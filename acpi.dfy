// ACPI table discovery of kernel/src/acpi.rs: validation of the Root System
// Description Pointer (sections 5.2.5.3 of the ACPI specification), of the
// XSDT/RSDT (sections 5.2.7 and 5.2.8, with the common header of section
// 5.2.6), and the walk over the interrupt-controller structures of the MADT
// (section 5.2.12).
//
// Physical memory is an oracle from addresses to bytes; the kernel reads it
// through its high-half mapping, which does not change the bytes seen.  The
// source only logs what it finds; the model returns it as a value.

module Acpi {
  import opened Base

  /** Physical memory as the kernel sees it. */
  type PhysMem = nat -> Byte

  // ---- raw reads ----------------------------------------------------------

  /** The little-endian unsigned integer of `n` bytes at `a` (packed fields are read unaligned). */
  function Le(mem: PhysMem, a: nat, n: nat): nat
    decreases n
  {
    if n == 0 then 0 else mem(a) + 256 * Le(mem, a + 1, n - 1)
  }

  /** The `n` bytes at `a`. */
  function BytesAt(mem: PhysMem, a: nat, n: nat): (r: seq<int>)
    ensures |r| == n
  {
    seq(n, i requires 0 <= i < n => mem(a + i))
  }

  /** The character codes of an ASCII literal. */
  function Ascii(s: string): (r: seq<int>)
    ensures |r| == |s|
  {
    seq(|s|, i requires 0 <= i < |s| => s[i] as int)
  }

  // ---- checksums ----------------------------------------------------------

  /**
   * `bytes.iter().fold(0u8, |acc, &b| acc.wrapping_add(b))` over the `n`
   * bytes at `a`: a left fold with 8-bit wrap-around.
   */
  function ByteSum(mem: PhysMem, a: nat, n: nat): (r: Byte)
    decreases n
  {
    if n == 0 then 0 else (ByteSum(mem, a, n - 1) + mem(a + n - 1)) % 256
  }

  /** The plain sum of the `n` bytes at `a`. */
  function PlainSum(mem: PhysMem, a: nat, n: nat): nat
    decreases n
  {
    if n == 0 then 0 else PlainSum(mem, a, n - 1) + mem(a + n - 1)
  }

  lemma ModAddLeft(x: nat, b: nat)
    ensures (x % 256 + b) % 256 == (x + b) % 256
  {
    var q := x / 256;
    assert x == 256 * q + x % 256;
    assert x + b == 256 * q + (x % 256 + b);
  }

  /**
   * The wrapping fold is the sum of the bytes modulo 256, which is what
   * section 5.2.6 of the ACPI specification asks to be zero.
   */
  lemma {:induction false} ByteSumIsSumMod256(mem: PhysMem, a: nat, n: nat)
    ensures ByteSum(mem, a, n) == PlainSum(mem, a, n) % 256
    decreases n
  {
    if n > 0 {
      ByteSumIsSumMod256(mem, a, n - 1);
      ModAddLeft(PlainSum(mem, a, n - 1), mem(a + n - 1));
    }
  }

  // ---- RSDP ---------------------------------------------------------------

  /** `size_of::<Rsdp>()`: the ACPI 1.0 part of the pointer structure. */
  const RSDP_SIZE: nat := 20

  predicate RsdpSignatureValid(mem: PhysMem, rsdp: nat)
  {
    BytesAt(mem, rsdp, 8) == Ascii("RSD PTR ")
  }

  predicate RsdpChecksumValid(mem: PhysMem, rsdp: nat)
  {
    ByteSum(mem, rsdp, RSDP_SIZE) == 0
  }

  /** `Rsdp::is_valid_signature` holds iff the eight bytes spell "RSD PTR ". */
  lemma RsdpSignatureBytes(mem: PhysMem, rsdp: nat)
    ensures RsdpSignatureValid(mem, rsdp) <==>
      (mem(rsdp) == 0x52 && mem(rsdp + 1) == 0x53 && mem(rsdp + 2) == 0x44 && mem(rsdp + 3) == 0x20 &&
       mem(rsdp + 4) == 0x50 && mem(rsdp + 5) == 0x54 && mem(rsdp + 6) == 0x52 && mem(rsdp + 7) == 0x20)
  {
    var b := BytesAt(mem, rsdp, 8);
    var w := Ascii("RSD PTR ");
    assert w == [0x52, 0x53, 0x44, 0x20, 0x50, 0x54, 0x52, 0x20];
    if b[0] == w[0] && b[1] == w[1] && b[2] == w[2] && b[3] == w[3] &&
       b[4] == w[4] && b[5] == w[5] && b[6] == w[6] && b[7] == w[7] {
      assert b == w;
    }
  }

  /** `Rsdp::verify_checksum` holds iff the 20 bytes sum to a multiple of 256. */
  lemma RsdpChecksumMeaning(mem: PhysMem, rsdp: nat)
    ensures RsdpChecksumValid(mem, rsdp) <==> PlainSum(mem, rsdp, RSDP_SIZE) % 256 == 0
  {
    ByteSumIsSumMod256(mem, rsdp, RSDP_SIZE);
  }

  function RsdpRevision(mem: PhysMem, rsdp: nat): Byte { mem(rsdp + 15) }

  function RsdtAddress(mem: PhysMem, rsdp: nat): nat { Le(mem, rsdp + 16, 4) }

  function XsdtAddress(mem: PhysMem, rsdp: nat): nat { Le(mem, rsdp + 24, 8) }

  // ---- system description table header -------------------------------------

  /** `size_of::<AcpiTableHeader>()`. */
  const HEADER_SIZE: nat := 36

  /** `size_of::<Madt>()`: the header, the local APIC address and the flags. */
  const MADT_HEADER_SIZE: nat := 44

  function TableLength(mem: PhysMem, table: nat): nat { Le(mem, table + 4, 4) }

  /**
   * `header.signature_str() == s` for a four-letter ASCII `s`: a signature
   * that is not UTF-8 reads as "????", and a UTF-8 one equals `s` exactly
   * when its bytes are those of `s`.
   */
  predicate HasSignature(mem: PhysMem, table: nat, s: string)
  {
    BytesAt(mem, table, 4) == Ascii(s)
  }

  /** `AcpiTableHeader::verify_checksum`: the table's `length` bytes fold to zero. */
  predicate TableChecksumValid(mem: PhysMem, table: nat)
  {
    ByteSum(mem, table, TableLength(mem, table)) == 0
  }

  // ---- MADT ---------------------------------------------------------------

  function EntryType(mem: PhysMem, entry: nat): Byte { mem(entry) }

  function EntryLength(mem: PhysMem, entry: nat): Byte { mem(entry + 1) }

  /** A Processor Local APIC structure whose flags have bit 0 (Enabled) set. */
  predicate EnabledCpu(mem: PhysMem, entry: nat)
  {
    EntryType(mem, entry) == 0 && Le(mem, entry + 4, 4) % 2 == 1
  }

  /** An I/O APIC structure. */
  predicate IoApic(mem: PhysMem, entry: nat)
  {
    EntryType(mem, entry) == 1
  }

  /**
   * The walk from `cur` to `end`, advancing by each entry's length, ends:
   * no entry it reaches before `end` has length 0.  The source loops for
   * ever on such an entry, so every walk the model performs requires this.
   */
  predicate Walkable(mem: PhysMem, cur: nat, end: nat)
    decreases end - cur
  {
    cur >= end || (EntryLength(mem, cur) > 0 && Walkable(mem, cur + EntryLength(mem, cur), end))
  }

  /** The offsets of the entries the walk visits, in order. */
  function Entries(mem: PhysMem, cur: nat, end: nat): seq<nat>
    requires Walkable(mem, cur, end)
    decreases end - cur
  {
    if cur >= end then [] else [cur] + Entries(mem, cur + EntryLength(mem, cur), end)
  }

  function CountCpus(mem: PhysMem, es: seq<nat>): nat
  {
    if es == [] then 0 else CountCpus(mem, es[..|es| - 1]) + (if EnabledCpu(mem, es[|es| - 1]) then 1 else 0)
  }

  function CountIoApics(mem: PhysMem, es: seq<nat>): nat
  {
    if es == [] then 0 else CountIoApics(mem, es[..|es| - 1]) + (if IoApic(mem, es[|es| - 1]) then 1 else 0)
  }

  /** The first entry and the one after it. */
  function EntriesStart(madt: nat): nat { madt + MADT_HEADER_SIZE }

  function EntriesEnd(mem: PhysMem, madt: nat): nat { madt + TableLength(mem, madt) }

  predicate MadtWalkable(mem: PhysMem, madt: nat)
  {
    Walkable(mem, EntriesStart(madt), EntriesEnd(mem, madt))
  }

  /** What `parse_madt` reports. */
  datatype MadtResult =
    | MadtNull                                       // address 0: nothing read
    | MadtBadChecksum
    | MadtSummary(localApicAddress: nat, flags: nat, cpuCount: nat, ioApicCount: nat)

  /** The specification of `parse_madt`. */
  function MadtSpec(mem: PhysMem, madt: nat): MadtResult
    requires madt != 0 && TableChecksumValid(mem, madt) ==> MadtWalkable(mem, madt)
  {
    if madt == 0 then MadtNull
    else if !TableChecksumValid(mem, madt) then MadtBadChecksum
    else
      var es := Entries(mem, EntriesStart(madt), EntriesEnd(mem, madt));
      MadtSummary(Le(mem, madt + 36, 4), Le(mem, madt + 40, 4), CountCpus(mem, es), CountIoApics(mem, es))
  }

  /** Every visited entry lies in `[cur, end)`, each one past the previous by its length. */
  lemma {:induction false} EntriesShape(mem: PhysMem, cur: nat, end: nat)
    requires Walkable(mem, cur, end)
    ensures var es := Entries(mem, cur, end);
      (forall i :: 0 <= i < |es| ==> cur <= es[i] < end) &&
      (|es| > 0 ==> es[0] == cur) &&
      (forall i :: 0 <= i < |es| - 1 ==> es[i + 1] == es[i] + EntryLength(mem, es[i]))
    decreases end - cur
  {
    if cur < end {
      EntriesShape(mem, cur + EntryLength(mem, cur), end);
    }
  }

  lemma {:induction false} CountsBounded(mem: PhysMem, es: seq<nat>)
    ensures CountCpus(mem, es) + CountIoApics(mem, es) <= |es|
  {
    if es != [] {
      CountsBounded(mem, es[..|es| - 1]);
    }
  }

  /** `Entries` splits at any visited offset. */
  lemma {:induction false} EntriesStep(mem: PhysMem, start: nat, cur: nat, end: nat, visited: seq<nat>)
    requires Walkable(mem, start, end) && Walkable(mem, cur, end) && cur < end
    requires Entries(mem, start, end) == visited + Entries(mem, cur, end)
    ensures Walkable(mem, cur + EntryLength(mem, cur), end)
    ensures Entries(mem, start, end) == (visited + [cur]) + Entries(mem, cur + EntryLength(mem, cur), end)
  {
    AppendAssoc(visited, [cur], Entries(mem, cur + EntryLength(mem, cur), end));
  }

  /** Counting one more visited entry. */
  lemma CountsStep(mem: PhysMem, visited: seq<nat>, e: nat)
    ensures CountCpus(mem, visited + [e]) == CountCpus(mem, visited) + (if EnabledCpu(mem, e) then 1 else 0)
    ensures CountIoApics(mem, visited + [e]) == CountIoApics(mem, visited) + (if IoApic(mem, e) then 1 else 0)
  {
    assert (visited + [e])[..|visited|] == visited;
  }

  /** The loop invariants of `WalkMadt` carry over one entry. */
  lemma WalkStep(mem: PhysMem, start: nat, cur: nat, end: nat, visited: seq<nat>)
    requires Walkable(mem, start, end) && Walkable(mem, cur, end) && cur < end
    requires Entries(mem, start, end) == visited + Entries(mem, cur, end)
    ensures Walkable(mem, cur + EntryLength(mem, cur), end)
    ensures Entries(mem, start, end) == (visited + [cur]) + Entries(mem, cur + EntryLength(mem, cur), end)
    ensures CountCpus(mem, visited + [cur]) == CountCpus(mem, visited) + (if EnabledCpu(mem, cur) then 1 else 0)
    ensures CountIoApics(mem, visited + [cur]) == CountIoApics(mem, visited) + (if IoApic(mem, cur) then 1 else 0)
  {
    EntriesStep(mem, start, cur, end, visited);
    CountsStep(mem, visited, cur);
  }

  /** The `match` on one entry's type in the loop of `parse_madt`. */
  method CountEntry(mem: PhysMem, entry: nat, cpuCount: nat, ioApicCount: nat) returns (cpus: nat, ioApics: nat)
    ensures cpus == cpuCount + (if EnabledCpu(mem, entry) then 1 else 0)
    ensures ioApics == ioApicCount + (if IoApic(mem, entry) then 1 else 0)
  {
    cpus, ioApics := cpuCount, ioApicCount;
    var entryType := EntryType(mem, entry);
    if entryType == 0 {
      if Le(mem, entry + 4, 4) % 2 == 1 {
        cpus := cpus + 1;
      }
    } else if entryType == 1 {
      ioApics := ioApics + 1;
    }
  }

  /**
   * The `while` loop of `parse_madt`: from `start` to `end`, advance by each
   * entry's length, counting enabled local APICs and I/O APICs; other
   * structure types are skipped.
   */
  method WalkMadt(mem: PhysMem, start: nat, end: nat) returns (cpuCount: nat, ioApicCount: nat)
    requires Walkable(mem, start, end)
    ensures cpuCount == CountCpus(mem, Entries(mem, start, end))
    ensures ioApicCount == CountIoApics(mem, Entries(mem, start, end))
  {
    var current: nat := start;
    cpuCount, ioApicCount := 0, 0;
    ghost var visited: seq<nat> := [];
    while current < end
      invariant Walkable(mem, current, end)
      invariant Entries(mem, start, end) == visited + Entries(mem, current, end)
      invariant cpuCount == CountCpus(mem, visited) && ioApicCount == CountIoApics(mem, visited)
      decreases end - current
    {
      cpuCount, ioApicCount := CountEntry(mem, current, cpuCount, ioApicCount);
      WalkStep(mem, start, current, end, visited);
      visited := visited + [current];
      current := current + EntryLength(mem, current);
    }
    assert visited + [] == visited;
  }

  /**
   * `parse_madt`: nothing for address 0, a rejection when the checksum
   * fails (the signature is not checked again), otherwise the local APIC
   * address, the flags and the counts of the entry walk from offset 44 to
   * the table length.
   */
  method ParseMadt(mem: PhysMem, madt: nat) returns (r: MadtResult)
    requires madt != 0 && TableChecksumValid(mem, madt) ==> MadtWalkable(mem, madt)
    ensures r == MadtSpec(mem, madt)
  {
    if madt == 0 {
      return MadtNull;
    }
    if !TableChecksumValid(mem, madt) {
      return MadtBadChecksum;
    }
    var localApicAddress := Le(mem, madt + 36, 4);
    var flags := Le(mem, madt + 40, 4);
    var cpuCount, ioApicCount := WalkMadt(mem, EntriesStart(madt), EntriesEnd(mem, madt));
    r := MadtSummary(localApicAddress, flags, cpuCount, ioApicCount);
  }

  // ---- XSDT and RSDT --------------------------------------------------------

  /** The two root tables: 64-bit entries in the XSDT, 32-bit ones in the RSDT. */
  datatype RootKind = XsdtKind | RsdtKind

  function RootSignature(k: RootKind): string { if k == XsdtKind then "XSDT" else "RSDT" }

  function EntryWidth(k: RootKind): nat { if k == XsdtKind then 8 else 4 }

  /** `(header.length - header_size) / width`: the number of table addresses after the header. */
  function EntryCount(mem: PhysMem, root: nat, k: RootKind): nat
    requires TableLength(mem, root) >= HEADER_SIZE
  {
    (TableLength(mem, root) - HEADER_SIZE) / EntryWidth(k)
  }

  /** The `i`-th table address, read unaligned after the header. */
  function EntryAddress(mem: PhysMem, root: nat, k: RootKind, i: nat): nat
  {
    Le(mem, root + HEADER_SIZE + i * EntryWidth(k), EntryWidth(k))
  }

  /** A table that passes the root table's signature and checksum tests. */
  predicate RootAccepted(mem: PhysMem, root: nat, k: RootKind)
  {
    root != 0 && HasSignature(mem, root, RootSignature(k)) && TableChecksumValid(mem, root)
  }

  /** A MADT listed in an accepted root table that `parse_madt` will walk. */
  predicate MadtToWalk(mem: PhysMem, t: nat)
  {
    HasSignature(mem, t, "APIC") && t != 0 && TableChecksumValid(mem, t)
  }

  /**
   * What the source needs of an accepted root table: a length of at least
   * the header (the subtraction panics otherwise) and walkable MADTs.
   */
  predicate RootSane(mem: PhysMem, root: nat, k: RootKind)
  {
    RootAccepted(mem, root, k) ==>
      TableLength(mem, root) >= HEADER_SIZE &&
      forall i :: 0 <= i < EntryCount(mem, root, k) && MadtToWalk(mem, EntryAddress(mem, root, k, i)) ==>
        MadtWalkable(mem, EntryAddress(mem, root, k, i))
  }

  /** What `parse_xsdt` / `parse_rsdt` report. */
  datatype RootResult =
    | RootNull                    // address 0
    | RootBadSignature
    | RootBadChecksum
    | RootParsed(tables: seq<nat>, madts: seq<MadtResult>)

  /** The MADT results of the table addresses, for those whose signature is "APIC". */
  function MadtsOf(mem: PhysMem, tables: seq<nat>): seq<MadtResult>
    requires forall i :: 0 <= i < |tables| && MadtToWalk(mem, tables[i]) ==> MadtWalkable(mem, tables[i])
  {
    if tables == [] then []
    else
      var last := tables[|tables| - 1];
      assert MadtToWalk(mem, last) ==> MadtWalkable(mem, last);
      MadtsOf(mem, tables[..|tables| - 1]) + (if HasSignature(mem, last, "APIC") then [MadtSpec(mem, last)] else [])
  }

  function Tables(mem: PhysMem, root: nat, k: RootKind, n: nat): (r: seq<nat>)
    ensures |r| == n
    ensures forall i :: 0 <= i < n ==> r[i] == EntryAddress(mem, root, k, i)
  {
    if n == 0 then [] else Tables(mem, root, k, n - 1) + [EntryAddress(mem, root, k, n - 1)]
  }

  /** The specification of `parse_xsdt` (`k == XsdtKind`) and `parse_rsdt` (`k == RsdtKind`). */
  function RootSpec(mem: PhysMem, root: nat, k: RootKind): RootResult
    requires RootSane(mem, root, k)
  {
    if root == 0 then RootNull
    else if !HasSignature(mem, root, RootSignature(k)) then RootBadSignature
    else if !TableChecksumValid(mem, root) then RootBadChecksum
    else
      var ts := Tables(mem, root, k, EntryCount(mem, root, k));
      RootParsed(ts, MadtsOf(mem, ts))
  }

  /**
   * The entry addresses the walk reads all lie inside the table's
   * `length` bytes, after the header.
   */
  lemma EntriesInsideTable(mem: PhysMem, root: nat, k: RootKind, i: nat)
    requires TableLength(mem, root) >= HEADER_SIZE && i < EntryCount(mem, root, k)
    ensures root + HEADER_SIZE <= root + HEADER_SIZE + i * EntryWidth(k)
    ensures root + HEADER_SIZE + i * EntryWidth(k) + EntryWidth(k) <= root + TableLength(mem, root)
  {
    var w := EntryWidth(k);
    var body := TableLength(mem, root) - HEADER_SIZE;
    assert body / w * w <= body;
    assert (i + 1) * w <= body / w * w by {
      MulMono(i + 1, body / w, w);
    }
  }

  /**
   * `parse_xsdt` / `parse_rsdt`: reject address 0, a wrong signature and a
   * failed checksum; otherwise read every table address after the header
   * and parse each table whose signature is "APIC" as a MADT.
   */
  method ParseRootTable(mem: PhysMem, root: nat, k: RootKind) returns (r: RootResult)
    requires RootSane(mem, root, k)
    ensures r == RootSpec(mem, root, k)
  {
    if root == 0 {
      return RootNull;
    }
    if !HasSignature(mem, root, RootSignature(k)) {
      return RootBadSignature;
    }
    if !TableChecksumValid(mem, root) {
      return RootBadChecksum;
    }
    var entryCount := (TableLength(mem, root) - HEADER_SIZE) / EntryWidth(k);
    var tables: seq<nat> := [];
    var madts: seq<MadtResult> := [];
    for i := 0 to entryCount
      invariant tables == Tables(mem, root, k, i)
      invariant madts == MadtsOf(mem, tables)
    {
      var tableAddr := EntryAddress(mem, root, k, i);
      var prev := tables;
      tables := tables + [tableAddr];
      assert tables[..|tables| - 1] == prev;
      if HasSignature(mem, tableAddr, "APIC") {
        var m := ParseMadt(mem, tableAddr);
        madts := madts + [m];
      }
    }
    r := RootParsed(tables, madts);
  }

  // ---- init ---------------------------------------------------------------

  /** Why `init` stopped, or what the root table gave. */
  datatype AcpiOutcome =
    | NoRsdp                      // the loader passed address 0
    | BadRsdpSignature
    | BadRsdpChecksum
    | ViaXsdt(xsdt: RootResult)   // revision 2 or later
    | ViaRsdt(rsdt: RootResult)   // ACPI 1.0

  predicate RsdpAccepted(mem: PhysMem, rsdp: nat)
  {
    rsdp != 0 && RsdpSignatureValid(mem, rsdp) && RsdpChecksumValid(mem, rsdp)
  }

  function RootKindOf(mem: PhysMem, rsdp: nat): RootKind
  {
    if RsdpRevision(mem, rsdp) >= 2 then XsdtKind else RsdtKind
  }

  function RootAddressOf(mem: PhysMem, rsdp: nat): nat
  {
    if RsdpRevision(mem, rsdp) >= 2 then XsdtAddress(mem, rsdp) else RsdtAddress(mem, rsdp)
  }

  /** What `init` needs of the tables an accepted RSDP leads to. */
  predicate FirmwareSane(mem: PhysMem, rsdp: nat)
  {
    RsdpAccepted(mem, rsdp) ==> RootSane(mem, RootAddressOf(mem, rsdp), RootKindOf(mem, rsdp))
  }

  /**
   * `init`: stop at once when the loader gave no RSDP, when its signature
   * is not "RSD PTR " or when its checksum fails; otherwise follow the
   * XSDT for revision 2 and later and the RSDT before that.
   */
  method Init(mem: PhysMem, rsdpAddress: nat) returns (o: AcpiOutcome)
    requires FirmwareSane(mem, rsdpAddress)
    ensures o == NoRsdp <==> rsdpAddress == 0
    ensures o == BadRsdpSignature <==> rsdpAddress != 0 && !RsdpSignatureValid(mem, rsdpAddress)
    ensures o == BadRsdpChecksum <==>
      rsdpAddress != 0 && RsdpSignatureValid(mem, rsdpAddress) && !RsdpChecksumValid(mem, rsdpAddress)
    ensures o.ViaXsdt? <==> RsdpAccepted(mem, rsdpAddress) && RsdpRevision(mem, rsdpAddress) >= 2
    ensures o.ViaXsdt? ==> o.xsdt == RootSpec(mem, XsdtAddress(mem, rsdpAddress), XsdtKind)
    ensures o.ViaRsdt? <==> RsdpAccepted(mem, rsdpAddress) && RsdpRevision(mem, rsdpAddress) < 2
    ensures o.ViaRsdt? ==> o.rsdt == RootSpec(mem, RsdtAddress(mem, rsdpAddress), RsdtKind)
  {
    if rsdpAddress == 0 {
      return NoRsdp;
    }
    if !RsdpSignatureValid(mem, rsdpAddress) {
      return BadRsdpSignature;
    }
    if !RsdpChecksumValid(mem, rsdpAddress) {
      return BadRsdpChecksum;
    }
    if RsdpRevision(mem, rsdpAddress) >= 2 {
      var x := ParseRootTable(mem, XsdtAddress(mem, rsdpAddress), XsdtKind);
      o := ViaXsdt(x);
    } else {
      var x := ParseRootTable(mem, RsdtAddress(mem, rsdpAddress), RsdtKind);
      o := ViaRsdt(x);
    }
  }
}
