// The ordered run queues of both scheduler generations are Rust `BTreeMap`s
// keyed by a pair `(major, id)`; the scheduler only inserts and pops the
// first entry.  Such a map is modelled here as a sequence of entries kept in
// strictly increasing key order, so `pop_first` is taking the head.

module KeyedQueue {

  /** A run-queue key `(major, id)`, compared lexicographically as Rust tuples are. */
  datatype Key = Key(major: nat, id: nat)

  predicate Before(a: Key, b: Key)
  {
    a.major < b.major || (a.major == b.major && a.id < b.id)
  }

  ghost predicate Sorted<V>(q: seq<(Key, V)>)
  {
    forall i, j :: 0 <= i < j < |q| ==> Before(q[i].0, q[j].0)
  }

  function Keys<V(==)>(q: seq<(Key, V)>): set<Key>
  {
    set e | e in q :: e.0
  }

  /** The ids carried by the keys, with multiplicity. */
  function Ids<V>(q: seq<(Key, V)>): multiset<nat>
  {
    if q == [] then multiset{} else multiset{q[0].0.id} + Ids(q[1..])
  }

  /**
   * `BTreeMap::insert`: the entry lands at its key's place; an entry with
   * an equal key is replaced, every other entry is kept.
   */
  function Insert<V(==)>(q: seq<(Key, V)>, k: Key, v: V): (r: seq<(Key, V)>)
    requires Sorted(q)
    ensures Sorted(r)
    ensures (k, v) in r
    ensures forall e :: e in q && e.0 != k ==> e in r
    ensures forall e :: e in r ==> e == (k, v) || (e in q && e.0 != k)
  {
    if q == [] then [(k, v)]
    else if Before(k, q[0].0) then
      assert forall e :: e in q ==> Before(k, e.0) by {
        forall e | e in q ensures Before(k, e.0) {
          var i :| 0 <= i < |q| && q[i] == e;
        }
      }
      [(k, v)] + q
    else if k == q[0].0 then
      assert forall e :: e in q[1..] ==> e.0 != k by {
        forall e | e in q[1..] ensures e.0 != k {
          var i :| 1 <= i < |q| && q[i] == e;
        }
      }
      [(k, v)] + q[1..]
    else
      var rest := Insert(q[1..], k, v);
      assert forall e :: e in rest ==> Before(q[0].0, e.0) by {
        forall e | e in rest ensures Before(q[0].0, e.0) {
          if e != (k, v) {
            var i :| 1 <= i < |q| && q[i] == e;
          }
        }
      }
      [q[0]] + rest
  }

  /** After an insert the queue's keys are the old ones and the new key. */
  lemma InsertKeys<V>(q: seq<(Key, V)>, k: Key, v: V)
    requires Sorted(q)
    ensures Keys(Insert(q, k, v)) == Keys(q) + {k}
  {
    var r := Insert(q, k, v);
    forall x | x in Keys(q) + {k} ensures x in Keys(r) {
      if x != k {
        var e :| e in q && e.0 == x;
        assert e in r;
      } else {
        assert (k, v) in r;
      }
    }
  }

  /** The head of a sorted queue has the least key: `pop_first` takes the minimum. */
  lemma {:induction false} HeadIsLeast<V>(q: seq<(Key, V)>, e: (Key, V))
    requires Sorted(q) && q != [] && e in q[1..]
    ensures Before(q[0].0, e.0)
  {
    var i :| 1 <= i < |q| && q[i] == e;
  }

  lemma {:induction false} SortedTail<V>(q: seq<(Key, V)>)
    requires Sorted(q) && q != []
    ensures Sorted(q[1..])
  {
    forall i, j | 0 <= i < j < |q| - 1 ensures Before(q[1..][i].0, q[1..][j].0) {
      assert q[1..][i] == q[i + 1] && q[1..][j] == q[j + 1];
    }
  }

  lemma {:induction false} IdsMember<V>(q: seq<(Key, V)>, e: (Key, V))
    requires e in q
    ensures e.0.id in Ids(q)
  {
    if q[0] != e {
      assert e in q[1..];
      IdsMember(q[1..], e);
    }
  }

  /** An id absent from the queue's multiset of ids labels no key in it. */
  lemma {:induction false} IdsAbsent<V>(q: seq<(Key, V)>, k: Key)
    requires k.id !in Ids(q)
    ensures k !in Keys(q)
  {
    if k in Keys(q) {
      var e :| e in q && e.0 == k;
      IdsMember(q, e);
    }
  }

  /** Inserting under a fresh key adds exactly that key's id. */
  lemma {:induction false} InsertIds<V>(q: seq<(Key, V)>, k: Key, v: V)
    requires Sorted(q) && k !in Keys(q)
    ensures Ids(Insert(q, k, v)) == Ids(q) + multiset{k.id}
  {
    if q == [] {
    } else if Before(k, q[0].0) {
      assert ([(k, v)] + q)[1..] == q;
    } else {
      assert k != q[0].0;
      SortedTail(q);
      assert Keys(q[1..]) <= Keys(q);
      InsertIds(q[1..], k, v);
      assert ([q[0]] + Insert(q[1..], k, v))[1..] == Insert(q[1..], k, v);
    }
  }

  /** Inserting under a key whose id the queue does not carry adds exactly that id. */
  lemma InsertFreshIds<V>(q: seq<(Key, V)>, k: Key, v: V)
    requires Sorted(q) && k.id !in Ids(q)
    ensures Ids(Insert(q, k, v)) == Ids(q) + multiset{k.id}
  {
    IdsAbsent(q, k);
    InsertIds(q, k, v);
  }
}
