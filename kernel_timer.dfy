// The tick counter, timer queue and timer softirq of kernel/src/timer.rs.
//
// The `BinaryHeap<Timer>` is modelled as a sequence kept in non-decreasing
// expiry order, so the heap's maximum under the reversed `Ord` is its first
// element.  Timer callbacks are boxed closures in the source; here a
// callback is a value naming what it will do, and running callbacks means
// returning them, in order, to the caller that executes them.

module KernelTimer {
  import opened Base

  /** What an expired timer does: wake a sleeping task, or some other closure. */
  datatype Callback = UnblockTask(taskId: nat) | Opaque(tag: nat)

  datatype Timer = Timer(id: nat, expiresAt: nat, callback: Option<Callback>)

  datatype Ordering = Less | Equal | Greater

  /** `Ord for Timer`: expiries compared in reverse, so the earliest is the greatest. */
  function Cmp(a: Timer, b: Timer): (o: Ordering)
    ensures o == Greater <==> a.expiresAt < b.expiresAt
    ensures o == Less <==> b.expiresAt < a.expiresAt
    ensures o == Equal <==> a.expiresAt == b.expiresAt
  {
    if b.expiresAt < a.expiresAt then Less
    else if b.expiresAt == a.expiresAt then Equal
    else Greater
  }

  /** `PartialEq for Timer`: ids only. */
  predicate Same(a: Timer, b: Timer)
  {
    a.id == b.id
  }

  /** `Ord` and `Eq` disagree: two timers with one expiry compare Equal but are not equal. */
  lemma OrdDisagreesWithEq()
    ensures var a, b := Timer(1, 5, None), Timer(2, 5, None);
      Cmp(a, b) == Equal && !Same(a, b)
  {
  }

  ghost predicate HeapOrdered(h: seq<Timer>)
  {
    forall i, j :: 0 <= i < j < |h| ==> h[i].expiresAt <= h[j].expiresAt
  }

  /** The first timer of an ordered heap is a maximum of the reversed `Ord`: `peek`/`pop` take it. */
  lemma PeekIsEarliest(h: seq<Timer>, t: Timer)
    requires HeapOrdered(h) && h != [] && t in h
    ensures Cmp(h[0], t) != Less
  {
    var i :| 0 <= i < |h| && h[i] == t;
    if i > 0 {
      assert h[0].expiresAt <= h[i].expiresAt;
    }
  }

  lemma OrderedTail(h: seq<Timer>)
    requires HeapOrdered(h) && h != []
    ensures HeapOrdered(h[1..])
  {
    forall i, j | 0 <= i < j < |h| - 1 ensures h[1..][i].expiresAt <= h[1..][j].expiresAt {
      assert h[1..][i] == h[i + 1] && h[1..][j] == h[j + 1];
    }
  }

  /** Every timer of an ordered heap expires no earlier than the first. */
  lemma OrderedHeadFirst(h: seq<Timer>, x: Timer)
    requires HeapOrdered(h) && x in h
    ensures h[0].expiresAt <= x.expiresAt
  {
    var i :| 0 <= i < |h| && h[i] == x;
    if i > 0 {
      assert h[0].expiresAt <= h[i].expiresAt;
    }
  }

  lemma OrderedCons(t: Timer, r: seq<Timer>)
    requires HeapOrdered(r) && forall x :: x in r ==> t.expiresAt <= x.expiresAt
    ensures HeapOrdered([t] + r)
  {
    forall i, j | 0 <= i < j < |[t] + r| ensures ([t] + r)[i].expiresAt <= ([t] + r)[j].expiresAt {
      if i == 0 {
        assert ([t] + r)[j] == r[j - 1];
        assert r[j - 1] in r;
      } else {
        assert ([t] + r)[i] == r[i - 1] && ([t] + r)[j] == r[j - 1];
      }
    }
  }

  /** `BinaryHeap::push`: the timer joins, the order is kept, nothing else changes. */
  function HeapPush(h: seq<Timer>, t: Timer): (r: seq<Timer>)
    requires HeapOrdered(h)
    ensures HeapOrdered(r)
    ensures multiset(r) == multiset(h) + multiset{t}
  {
    if h == [] || t.expiresAt < h[0].expiresAt then
      assert forall x :: x in h ==> t.expiresAt <= x.expiresAt by {
        forall x | x in h ensures t.expiresAt <= x.expiresAt {
          OrderedHeadFirst(h, x);
        }
      }
      OrderedCons(t, h);
      [t] + h
    else
      OrderedTail(h);
      var rest := HeapPush(h[1..], t);
      assert h == [h[0]] + h[1..];
      assert forall x :: x in rest ==> h[0].expiresAt <= x.expiresAt by {
        forall x | x in rest ensures h[0].expiresAt <= x.expiresAt {
          assert x in multiset(rest);
          if x != t {
            assert x in multiset(h[1..]);
            assert x in h;
            OrderedHeadFirst(h, x);
          }
        }
      }
      OrderedCons(h[0], rest);
      [h[0]] + rest
  }

  /**
   * The expired timers of `check_timers`: the longest prefix whose expiry
   * is at most `now`, and what remains.
   */
  function SplitExpired(h: seq<Timer>, now: nat): (r: (seq<Timer>, seq<Timer>))
    ensures r.0 + r.1 == h
    ensures forall t :: t in r.0 ==> t.expiresAt <= now
    ensures r.1 != [] ==> r.1[0].expiresAt > now
    decreases |h|
  {
    if h == [] || h[0].expiresAt > now then ([], h)
    else
      var rest := SplitExpired(h[1..], now);
      assert [h[0]] + rest.0 + rest.1 == h;
      ([h[0]] + rest.0, rest.1)
  }

  /** In an ordered heap nothing left behind has expired, and what is left stays ordered. */
  lemma SplitExpiredLater(h: seq<Timer>, now: nat)
    requires HeapOrdered(h)
    ensures HeapOrdered(SplitExpired(h, now).1)
    ensures forall t :: t in SplitExpired(h, now).1 ==> t.expiresAt > now
  {
    var r := SplitExpired(h, now);
    assert r.1 == h[|r.0|..];
    OrderedSuffix(h, |r.0|);
    if r.1 != [] {
      forall t | t in r.1 ensures t.expiresAt > now {
        OrderedHeadFirst(r.1, t);
      }
    }
  }

  lemma OrderedSuffix(h: seq<Timer>, k: nat)
    requires HeapOrdered(h) && k <= |h|
    ensures HeapOrdered(h[k..])
  {
    forall i, j | 0 <= i < j < |h| - k ensures h[k..][i].expiresAt <= h[k..][j].expiresAt {
      assert h[k..][i] == h[k + i] && h[k..][j] == h[k + j];
    }
  }

  /** A split into an expired prefix and a rest that starts later than `now` is SplitExpired's. */
  lemma {:induction false} SplitExpiredAt(h: seq<Timer>, expired: seq<Timer>, later: seq<Timer>, now: nat)
    requires h == expired + later
    requires forall t :: t in expired ==> t.expiresAt <= now
    requires later != [] ==> later[0].expiresAt > now
    ensures SplitExpired(h, now) == (expired, later)
  {
    if expired != [] {
      assert h[1..] == expired[1..] + later;
      assert expired[0] in expired;
      SplitExpiredAt(h[1..], expired[1..], later, now);
      assert [expired[0]] + expired[1..] == expired;
    } else {
      assert h == later;
    }
  }

  /** The callbacks a drained FIFO of timers runs, in FIFO order. */
  function Callbacks(ts: seq<Timer>): (cs: seq<Callback>)
    ensures |cs| <= |ts|
    ensures (forall t :: t in ts ==> t.callback.Some?) ==>
      |cs| == |ts| && forall i :: 0 <= i < |ts| ==> cs[i] == ts[i].callback.value
  {
    if ts == [] then []
    else
      var rest := Callbacks(ts[1..]);
      assert forall t :: t in ts[1..] ==> t in ts;
      if ts[0].callback.Some? then [ts[0].callback.value] + rest else rest
  }

  /** `ms_to_ticks`: `ms * frequency / 1000`, rounding down. */
  function MsToTicks(ms: nat, frequencyHz: nat): (ticks: nat)
    requires ms * frequencyHz < U64_LIMIT
    ensures ticks * 1000 <= ms * frequencyHz < (ticks + 1) * 1000
  {
    (ms * frequencyHz) / 1000
  }

  /** `seconds_to_ticks`: `seconds * frequency`. */
  function SecondsToTicks(seconds: nat, frequencyHz: nat): (ticks: nat)
    requires seconds * frequencyHz < U64_LIMIT
    ensures seconds * 1000 * frequencyHz < U64_LIMIT ==> ticks == MsToTicks(seconds * 1000, frequencyHz)
  {
    seconds * frequencyHz
  }

  /**
   * The loop of `check_timers`: pops the heap while its earliest timer has
   * expired, collecting the popped timers in pop order.
   */
  method PopExpired(heap: seq<Timer>, current: nat) returns (expired: seq<Timer>, later: seq<Timer>)
    requires HeapOrdered(heap)
    ensures (expired, later) == SplitExpired(heap, current)
    ensures HeapOrdered(later)
  {
    expired, later := [], heap;
    while later != [] && later[0].expiresAt <= current
      invariant heap == expired + later
      invariant forall t :: t in expired ==> t.expiresAt <= current
      invariant HeapOrdered(later)
      decreases |later|
    {
      var timer := later[0];
      OrderedTail(later);
      later := later[1..];
      expired := expired + [timer];
    }
    SplitExpiredAt(heap, expired, later, current);
  }

  /** The statics TICK_COUNT, TIMER_ID_COUNTER, TIMER_FREQUENCY_HZ, the two queues and the flags. */
  class TimerSystem {
    var tickCount: nat
    var nextTimerId: nat
    var frequencyHz: nat
    var heap: seq<Timer>
    var pending: seq<Timer>
    var softirqPending: bool
    var inSoftirq: bool

    ghost predicate Valid()
      reads this
    {
      HeapOrdered(heap) && tickCount < U64_LIMIT && nextTimerId < U64_LIMIT
    }

    constructor ()
      ensures Valid() && tickCount == 0 && nextTimerId == 1 && frequencyHz == 0
      ensures heap == [] && pending == [] && !softirqPending && !inSoftirq
    {
      tickCount, nextTimerId, frequencyHz := 0, 1, 0;
      heap, pending := [], [];
      softirqPending, inSoftirq := false, false;
    }

    /** `init(frequency_hz)`. */
    method Init(frequency: nat)
      modifies this
      ensures frequencyHz == frequency
      ensures tickCount == old(tickCount) && nextTimerId == old(nextTimerId)
      ensures heap == old(heap) && pending == old(pending)
      ensures softirqPending == old(softirqPending) && inSoftirq == old(inSoftirq)
    {
      frequencyHz := frequency;
    }

    /** `increment_tick`: returns the incremented count (the `+ 1` panics at `u64::MAX`). */
    method IncrementTick() returns (now: nat)
      requires Valid() && tickCount < U64_MAX
      modifies this
      ensures Valid()
      ensures now == old(tickCount) + 1 && tickCount == now
      ensures nextTimerId == old(nextTimerId) && frequencyHz == old(frequencyHz)
      ensures heap == old(heap) && pending == old(pending)
      ensures softirqPending == old(softirqPending) && inSoftirq == old(inSoftirq)
    {
      tickCount := tickCount + 1;
      now := tickCount;
    }

    /**
     * `register_timer` with `Timer::new`: the next id (the counter wraps as
     * `fetch_add` does), expiry `current_tick + delay`, one more timer in the heap.
     */
    method RegisterTimer(delayTicks: nat, callback: Callback) returns (id: nat)
      requires Valid() && tickCount + delayTicks < U64_LIMIT
      modifies this
      ensures Valid()
      ensures id == old(nextTimerId)
      ensures nextTimerId == if old(nextTimerId) == U64_MAX then 0 else old(nextTimerId) + 1
      ensures heap == HeapPush(old(heap), Timer(id, tickCount + delayTicks, Some(callback)))
      ensures tickCount == old(tickCount) && frequencyHz == old(frequencyHz)
      ensures pending == old(pending)
      ensures softirqPending == old(softirqPending) && inSoftirq == old(inSoftirq)
    {
      id := nextTimerId;
      nextTimerId := if nextTimerId == U64_MAX then 0 else nextTimerId + 1;
      var timer := Timer(id, tickCount + delayTicks, Some(callback));
      heap := HeapPush(heap, timer);
    }

    /**
     * `check_timers`: moves the expired timers, earliest first, to the back
     * of the pending FIFO and raises the softirq iff it moved one.
     */
    method CheckTimers()
      requires Valid()
      modifies this
      ensures Valid()
      ensures pending == old(pending) + SplitExpired(old(heap), tickCount).0
      ensures heap == SplitExpired(old(heap), tickCount).1
      ensures softirqPending == (old(softirqPending) || SplitExpired(old(heap), tickCount).0 != [])
      ensures tickCount == old(tickCount) && nextTimerId == old(nextTimerId)
      ensures frequencyHz == old(frequencyHz) && inSoftirq == old(inSoftirq)
    {
      var expired, later := PopExpired(heap, tickCount);
      heap, pending := later, pending + expired;
      if expired != [] {
        softirqPending := true;
      }
    }

    /** `raise_softirq`. */
    method RaiseSoftirq()
      modifies this
      ensures softirqPending
      ensures tickCount == old(tickCount) && nextTimerId == old(nextTimerId)
      ensures frequencyHz == old(frequencyHz) && heap == old(heap)
      ensures pending == old(pending) && inSoftirq == old(inSoftirq)
    {
      softirqPending := true;
    }

    /**
     * `process_pending_timers`: pops the pending FIFO until it is empty and
     * runs each timer's callback once, returned here in the order run.
     */
    method ProcessPendingTimers() returns (ran: seq<Callback>)
      modifies this
      ensures ran == Callbacks(old(pending)) && pending == []
      ensures tickCount == old(tickCount) && nextTimerId == old(nextTimerId)
      ensures frequencyHz == old(frequencyHz) && heap == old(heap)
      ensures softirqPending == old(softirqPending) && inSoftirq == old(inSoftirq)
    {
      ran := [];
      while pending != []
        invariant Callbacks(old(pending)) == ran + Callbacks(pending)
        invariant tickCount == old(tickCount) && nextTimerId == old(nextTimerId)
        invariant frequencyHz == old(frequencyHz) && heap == old(heap)
        invariant softirqPending == old(softirqPending) && inSoftirq == old(inSoftirq)
        decreases |pending|
      {
        var timer := pending[0];
        pending := pending[1..];
        if timer.callback.Some? {
          ran := ran + [timer.callback.value];
        }
      }
    }

    /**
     * `do_softirq`: nothing while a softirq is already running; otherwise
     * drains the pending FIFO while the pending flag was set, and leaves
     * both flags clear.
     */
    method DoSoftirq() returns (ran: seq<Callback>)
      modifies this
      ensures old(inSoftirq) ==>
        (ran == [] && pending == old(pending) && softirqPending == old(softirqPending) && inSoftirq)
      ensures !old(inSoftirq) ==>
        (ran == (if old(softirqPending) then Callbacks(old(pending)) else []) &&
         pending == (if old(softirqPending) then [] else old(pending)) &&
         !softirqPending && !inSoftirq)
      ensures tickCount == old(tickCount) && nextTimerId == old(nextTimerId)
      ensures frequencyHz == old(frequencyHz) && heap == old(heap)
    {
      ran := [];
      if inSoftirq {
        return;
      }
      inSoftirq := true;
      while softirqPending
        invariant inSoftirq
        invariant ran == (if old(softirqPending) && !softirqPending then Callbacks(old(pending)) else [])
        invariant pending == (if old(softirqPending) && !softirqPending then [] else old(pending))
        invariant softirqPending ==> old(softirqPending) && ran == []
        invariant tickCount == old(tickCount) && nextTimerId == old(nextTimerId)
        invariant frequencyHz == old(frequencyHz) && heap == old(heap)
        decreases softirqPending
      {
        softirqPending := false;
        var batch := ProcessPendingTimers();
        ran := ran + batch;
      }
      inSoftirq := false;
    }
  }
}
