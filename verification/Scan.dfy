/** Discovery of the JNI function tables in the target's memory: a scan that jumps over each
    table it finds, and the naive scan of every position that it is equal to. */
module Scan {
  import opened Words
  import opened Snapshots

  /** `n` words a table; the executable segment is [lo, hi); offsets are relative to `base`. */
  datatype Search = Search(n: nat, lo: u64, hi: u64, base: u64) {
    /** An executable mapping above address 0, or none at all; the schema is longer than the
        reserved words. */
    predicate Valid() {
      n > 4 && (lo > 0 || hi == 0)
    }
  }

  /** A mapping of the target, far enough below 2^64 that no bound of the scan wraps. */
  datatype Range = Range(start: u64, end: u64) {
    predicate Valid(n: nat) {
      start <= end && end + 8 * n + 8 < TWO_64
    }
  }

  predicate NullWord(mem: Memory, p: int, i: int) {
    0 <= p + 8 * i < TWO_64 && p + 8 * i in mem && mem[p + 8 * i] == 0
  }

  predicate CodeWord(mem: Memory, sc: Search, p: int, i: int) {
    0 <= p + 8 * i < TWO_64 && p + 8 * i in mem && sc.lo <= mem[p + 8 * i] < sc.hi
  }

  /** Four null words, then only pointers into the executable segment. */
  predicate IsTable(mem: Memory, sc: Search, p: int) {
    && (forall i | 0 <= i < 4 :: NullWord(mem, p, i))
    && (forall i | 4 <= i < sc.n :: CodeWord(mem, sc, p, i))
  }

  /** Every position from `p` on, eight bytes apart, that holds a table. */
  function TablesFrom(mem: Memory, sc: Search, p: nat, end: nat): seq<nat>
    decreases end - p
  {
    if p + 8 * sc.n > end || p >= end then []
    else (if IsTable(mem, sc, p) then [p] else []) + TablesFrom(mem, sc, p + 8, end)
  }

  function TablesIn(mem: Memory, sc: Search, ranges: seq<Range>): seq<nat> {
    if ranges == [] then []
    else
      var r := ranges[|ranges| - 1];
      TablesIn(mem, sc, ranges[..|ranges| - 1]) + TablesFrom(mem, sc, r.start, r.end)
  }

  lemma NullIsNoCode(mem: Memory, sc: Search, p: int, i: int, q: int, k: int)
    requires sc.Valid() && p + 8 * i == q + 8 * k
    ensures !(NullWord(mem, p, i) && CodeWord(mem, sc, q, k))
  {}

  /** Two tables never overlap: a null word of one would be a code pointer of the other. */
  lemma TablesDoNotOverlap(mem: Memory, sc: Search, p: int, k: int)
    requires sc.Valid() && IsTable(mem, sc, p) && 0 < k < sc.n
    ensures !IsTable(mem, sc, p + 8 * k)
  {
    var i := if k < 4 then 4 - k else 0;
    assert CodeWord(mem, sc, p, k + i);
    NullIsNoCode(mem, sc, p + 8 * k, i, p, k + i);
  }

  /** After a hit nothing is lost by starting again behind the table. */
  lemma {:induction false} JumpMissesNothing(mem: Memory, sc: Search, p: nat, k: nat, end: nat)
    requires sc.Valid() && IsTable(mem, sc, p) && 1 <= k <= sc.n
    ensures TablesFrom(mem, sc, p + 8 * k, end) == TablesFrom(mem, sc, p + 8 * sc.n, end)
    decreases sc.n - k
  {
    if k < sc.n {
      TablesDoNotOverlap(mem, sc, p, k);
      JumpMissesNothing(mem, sc, p, k + 1, end);
      assert p + 8 * k + 8 == p + 8 * (k + 1);
    }
  }

  // ----- the offset map

  /** File offset and slot of each entry of a table, in order. */
  function EntriesOf(mem: Memory, sc: Search, p: nat): seq<(u64, int)>
    requires sc.n >= 4 && IsTable(mem, sc, p)
  {
    seq(sc.n - 4, j requires 0 <= j < sc.n - 4 =>
      assert CodeWord(mem, sc, p, 4 + j); (Sub64(mem[p + 8 * (4 + j)], sc.base), 4 + j))
  }

  function AllEntries(mem: Memory, sc: Search, tables: seq<nat>): seq<(u64, int)>
    requires sc.n >= 4 && forall t | t in tables :: IsTable(mem, sc, t)
  {
    if tables == [] then []
    else AllEntries(mem, sc, tables[..|tables| - 1]) + EntriesOf(mem, sc, tables[|tables| - 1])
  }

  function Insert(m: map<u64, int>, es: seq<(u64, int)>): map<u64, int> {
    if es == [] then m else Insert(m, es[..|es| - 1])[es[|es| - 1].0 := es[|es| - 1].1]
  }

  lemma {:induction false} InsertAppend(m: map<u64, int>, a: seq<(u64, int)>, b: seq<(u64, int)>)
    ensures Insert(m, a + b) == Insert(Insert(m, a), b)
    decreases |b|
  {
    if b != [] {
      assert (a + b)[..|a + b| - 1] == a + b[..|b| - 1];
      InsertAppend(m, a, b[..|b| - 1]);
    } else {
      assert a + b == a;
    }
  }

  /** Index of the last entry with this offset, or -1. */
  function LastEntry(es: seq<(u64, int)>, off: u64): (j: int)
    ensures -1 <= j < |es|
    ensures j >= 0 ==> es[j].0 == off
    ensures forall k | j < k < |es| :: es[k].0 != off
  {
    if es == [] then -1
    else if es[|es| - 1].0 == off then |es| - 1
    else LastEntry(es[..|es| - 1], off)
  }

  /** The map holds exactly the offsets of the entries, each with the slot of its last one. */
  lemma {:induction false} InsertKeepsLast(es: seq<(u64, int)>, off: u64)
    ensures off in Insert(map[], es) <==> LastEntry(es, off) >= 0
    ensures off in Insert(map[], es) ==> Insert(map[], es)[off] == es[LastEntry(es, off)].1
    decreases |es|
  {
    if es != [] {
      InsertKeepsLast(es[..|es| - 1], off);
    }
  }

  lemma {:induction false} TablesFromAreTables(mem: Memory, sc: Search, p: nat, end: nat)
    ensures forall t | t in TablesFrom(mem, sc, p, end) :: IsTable(mem, sc, t)
    decreases end - p
  {
    if p + 8 * sc.n <= end && p < end {
      TablesFromAreTables(mem, sc, p + 8, end);
    }
  }

  lemma {:induction false} TablesInAreTables(mem: Memory, sc: Search, ranges: seq<Range>)
    ensures forall t | t in TablesIn(mem, sc, ranges) :: IsTable(mem, sc, t)
    decreases |ranges|
  {
    if ranges != [] {
      var r := ranges[|ranges| - 1];
      TablesInAreTables(mem, sc, ranges[..|ranges| - 1]);
      TablesFromAreTables(mem, sc, r.start, r.end);
    }
  }

  /** A position is accepted if and only if it is reached from the start in steps of eight,
      the table fits below the end, and it holds one. */
  lemma {:induction false} AcceptedIff(mem: Memory, sc: Search, p: nat, end: nat, q: nat)
    requires sc.n > 0
    ensures q in TablesFrom(mem, sc, p, end)
       <==> q >= p && (q - p) % 8 == 0 && q + 8 * sc.n <= end && IsTable(mem, sc, q)
    decreases end - p
  {
    if p + 8 * sc.n <= end {
      AcceptedIff(mem, sc, p + 8, end, q);
    }
  }

  /** The naive meaning of the offset scan. */
  function OffsetMap(mem: Memory, sc: Search, ranges: seq<Range>): map<u64, int>
    requires sc.Valid()
  {
    TablesInAreTables(mem, sc, ranges);
    Insert(map[], AllEntries(mem, sc, TablesIn(mem, sc, ranges)))
  }

  // ----- the scan itself

  method OffsetsFromScan(mem: Memory, sc: Search, ranges: seq<Range>) returns (res: Option<map<u64, int>>)
    requires sc.Valid() && forall r | r in ranges :: r.Valid(sc.n)
    ensures res == if OffsetMap(mem, sc, ranges) == map[] then None else Some(OffsetMap(mem, sc, ranges))
  {
    var out: map<u64, int> := map[];
    ghost var tables: seq<nat> := [];
    for k := 0 to |ranges|
      invariant tables == TablesIn(mem, sc, ranges[..k])
      invariant Maps(mem, sc, tables, out)
    {
      assert ranges[..k + 1][..k] == ranges[..k];
      out, tables := ScanRange(mem, sc, ranges[k], out, tables);
    }
    assert ranges[..|ranges|] == ranges;
    if |out| == 0 {
      return None;
    }
    return Some(out);
  }

  /** `out` is the offset map of these tables. */
  predicate Maps(mem: Memory, sc: Search, tables: seq<nat>, out: map<u64, int>)
    requires sc.Valid()
  {
    && (forall t | t in tables :: IsTable(mem, sc, t))
    && out == Insert(map[], AllEntries(mem, sc, tables))
  }

  method ScanRange(mem: Memory, sc: Search, r: Range, out0: map<u64, int>, ghost before: seq<nat>)
    returns (out: map<u64, int>, ghost tables: seq<nat>)
    requires sc.Valid() && r.Valid(sc.n)
    requires Maps(mem, sc, before, out0)
    ensures tables == before + TablesFrom(mem, sc, r.start, r.end)
    ensures Maps(mem, sc, tables, out)
  {
    out, tables := out0, before;
    var p: u64 := r.start;
    while Wrap64(p + sc.n * 8) <= r.end
      invariant r.start <= p <= r.end + 8
      invariant tables + TablesFrom(mem, sc, p, r.end) == before + TablesFrom(mem, sc, r.start, r.end)
      invariant Maps(mem, sc, tables, out)
      decreases r.end + 8 - p
    {
      assert p + sc.n * 8 < TWO_64;
      p, out, tables := TryPosition(mem, sc, p, r.end, out, tables);
    }
    assert TablesFrom(mem, sc, p, r.end) == [];
  }

  /** The body of the scan loop: past one position, or past the whole table found there. */
  method TryPosition(mem: Memory, sc: Search, p: u64, end: u64, out0: map<u64, int>, ghost before: seq<nat>)
    returns (next: u64, out: map<u64, int>, ghost tables: seq<nat>)
    requires sc.Valid() && p + 8 * sc.n <= end && end + 8 < TWO_64
    requires Maps(mem, sc, before, out0)
    ensures p < next <= end + 8
    ensures tables + TablesFrom(mem, sc, next, end) == before + TablesFrom(mem, sc, p, end)
    ensures Maps(mem, sc, tables, out)
  {
    out, tables := out0, before;
    var accepted := CheckTable(mem, sc, p);
    if !accepted {
      MissStep(mem, sc, p, end);
      next := p + 8;
      return;
    }
    out, tables := AddTable(mem, sc, p, out0, before);
    next := p + sc.n * 8;
    HitStep(mem, sc, before, p, end);
  }

  method CheckTable(mem: Memory, sc: Search, p: u64) returns (accepted: bool)
    requires sc.n > 4 && p + 8 * sc.n < TWO_64
    ensures accepted <==> IsTable(mem, sc, p)
  {
    var bad := ReservedWordsBad(mem, p);
    if bad {
      return false;
    }
    accepted := RestIsCode(mem, sc, p);
  }

  /** A table is four readable null words, and then only readable words that point into the
      executable segment. */
  lemma TableWords(mem: Memory, sc: Search, p: u64)
    requires sc.n > 4 && p + 8 * sc.n < TWO_64
    ensures IsTable(mem, sc, p)
       <==> && (forall i | 0 <= i < 4 :: p + 8 * i in mem && mem[p + 8 * i] == 0)
            && (forall i | 4 <= i < sc.n :: p + 8 * i in mem && sc.lo <= mem[p + 8 * i] < sc.hi)
  {
    forall i | 0 <= i < sc.n
      ensures NullWord(mem, p, i) <==> p + 8 * i in mem && mem[p + 8 * i] == 0
      ensures CodeWord(mem, sc, p, i) <==> p + 8 * i in mem && sc.lo <= mem[p + 8 * i] < sc.hi
    {}
    var nulls := forall i | 0 <= i < 4 :: p + 8 * i in mem && mem[p + 8 * i] == 0;
    var code := forall i | 4 <= i < sc.n :: p + 8 * i in mem && sc.lo <= mem[p + 8 * i] < sc.hi;
    if IsTable(mem, sc, p) {
      forall i | 0 <= i < 4
        ensures p + 8 * i in mem && mem[p + 8 * i] == 0
      {
        assert NullWord(mem, p, i);
      }
      forall i | 4 <= i < sc.n
        ensures p + 8 * i in mem && sc.lo <= mem[p + 8 * i] < sc.hi
      {
        assert CodeWord(mem, sc, p, i);
      }
    }
    if nulls && code {
      forall i | 0 <= i < sc.n
        ensures i < 4 ==> NullWord(mem, p, i)
        ensures i >= 4 ==> CodeWord(mem, sc, p, i)
      {
        assert p + 8 * i in mem;
      }
    }
  }

  lemma MissStep(mem: Memory, sc: Search, p: nat, end: nat)
    requires !IsTable(mem, sc, p) && p + 8 * sc.n <= end && sc.n > 0
    ensures TablesFrom(mem, sc, p, end) == TablesFrom(mem, sc, p + 8, end)
  {}

  lemma HitStep(mem: Memory, sc: Search, before: seq<nat>, p: nat, end: nat)
    requires sc.Valid() && IsTable(mem, sc, p) && p + 8 * sc.n <= end
    ensures before + [p] + TablesFrom(mem, sc, p + sc.n * 8, end) == before + TablesFrom(mem, sc, p, end)
  {
    JumpMissesNothing(mem, sc, p, 1, end);
    var rest := TablesFrom(mem, sc, p + sc.n * 8, end);
    assert TablesFrom(mem, sc, p, end) == [p] + rest;
    assert before + [p] + rest == before + ([p] + rest);
  }

  lemma TableStep(mem: Memory, sc: Search, tables: seq<nat>, p: nat, out: map<u64, int>)
    requires sc.Valid() && IsTable(mem, sc, p) && Maps(mem, sc, tables, out)
    ensures Maps(mem, sc, tables + [p], Insert(out, EntriesOf(mem, sc, p)))
  {
    assert (tables + [p])[..|tables|] == tables;
    InsertAppend(map[], AllEntries(mem, sc, tables), EntriesOf(mem, sc, p));
  }

  method ReservedWordsBad(mem: Memory, p: u64) returns (bad: bool)
    requires p + 8 * 4 < TWO_64
    ensures bad <==> !forall i | 0 <= i < 4 :: NullWord(mem, p, i)
  {
    bad := false;
    for i := 0 to 4
      invariant !bad
      invariant forall j | 0 <= j < i :: NullWord(mem, p, j)
    {
      var addr: u64 := p + i * 8;
      if addr !in mem || mem[addr] != 0 {
        bad := true;
        assert !NullWord(mem, p, i);
        break;
      }
    }
  }

  method RestIsCode(mem: Memory, sc: Search, p: u64) returns (okAll: bool)
    requires sc.n > 4 && p + 8 * sc.n < TWO_64
    ensures okAll <==> forall i | 4 <= i < sc.n :: CodeWord(mem, sc, p, i)
  {
    okAll := true;
    for i := 4 to sc.n
      invariant okAll
      invariant forall j | 4 <= j < i :: CodeWord(mem, sc, p, j)
    {
      var addr: u64 := p + i * 8;
      if addr !in mem || mem[addr] < sc.lo || mem[addr] >= sc.hi {
        okAll := false;
        assert !CodeWord(mem, sc, p, i);
        break;
      }
    }
  }

  method AddTable(mem: Memory, sc: Search, p: u64, out0: map<u64, int>, ghost before: seq<nat>)
    returns (out: map<u64, int>, ghost tables: seq<nat>)
    requires sc.Valid() && p + 8 * sc.n < TWO_64 && IsTable(mem, sc, p) && Maps(mem, sc, before, out0)
    ensures tables == before + [p] && Maps(mem, sc, tables, out)
  {
    out := AddEntries(mem, sc, p, out0);
    tables := before + [p];
    TableStep(mem, sc, before, p, out0);
  }

  /** Records every entry of an accepted table. */
  method AddEntries(mem: Memory, sc: Search, p: u64, out0: map<u64, int>) returns (out: map<u64, int>)
    requires sc.n > 4 && p + 8 * sc.n < TWO_64 && IsTable(mem, sc, p)
    ensures out == Insert(out0, EntriesOf(mem, sc, p))
  {
    out := out0;
    ghost var es := EntriesOf(mem, sc, p);
    for i := 4 to sc.n
      invariant out == Insert(out0, es[..i - 4])
    {
      assert CodeWord(mem, sc, p, i);
      assert es[..i - 3] == es[..i - 4] + [es[i - 4]];
      InsertSnoc(out0, es[..i - 4], es[i - 4]);
      out := out[Sub64(mem[p + i * 8], sc.base) := i];
    }
    assert es[..sc.n - 4] == es;
  }

  lemma InsertSnoc(m: map<u64, int>, es: seq<(u64, int)>, e: (u64, int))
    ensures Insert(m, es + [e]) == Insert(m, es)[e.0 := e.1]
  {
    assert (es + [e])[..|es|] == es;
  }

  // ----- what the map means for an event

  lemma {:induction false} EntryIsListed(mem: Memory, sc: Search, tables: seq<nat>, p: nat, i: int) returns (j: nat)
    requires sc.n >= 4 && (forall t | t in tables :: IsTable(mem, sc, t)) && p in tables && 4 <= i < sc.n
    ensures CodeWord(mem, sc, p, i)
    ensures j < |AllEntries(mem, sc, tables)|
    ensures AllEntries(mem, sc, tables)[j] == (Sub64(mem[p + 8 * i], sc.base), i)
    decreases |tables|
  {
    var front, t := tables[..|tables| - 1], tables[|tables| - 1];
    if p == t {
      j := |AllEntries(mem, sc, front)| + (i - 4);
    } else {
      j := EntryIsListed(mem, sc, front, p, i);
    }
  }

  lemma {:induction false} ListedIsEntry(mem: Memory, sc: Search, tables: seq<nat>, j: nat) returns (p: nat, i: int)
    requires sc.n >= 4 && (forall t | t in tables :: IsTable(mem, sc, t)) && j < |AllEntries(mem, sc, tables)|
    ensures p in tables && 4 <= i < sc.n && CodeWord(mem, sc, p, i)
    ensures AllEntries(mem, sc, tables)[j] == (Sub64(mem[p + 8 * i], sc.base), i)
    decreases |tables|
  {
    var front, t := tables[..|tables| - 1], tables[|tables| - 1];
    if j < |AllEntries(mem, sc, front)| {
      p, i := ListedIsEntry(mem, sc, front, j);
    } else {
      p, i := t, j - |AllEntries(mem, sc, front)| + 4;
      assert t in tables && CodeWord(mem, sc, t, i);
    }
  }

  /** Entry `i` of the table at `p` is the function at `ip`. */
  predicate Serves(mem: Memory, sc: Search, p: nat, i: int, ip: u64) {
    4 <= i < sc.n && CodeWord(mem, sc, p, i) && mem[p + 8 * i] == ip
  }

  /** The function at `ip` stands in no two different slots. */
  ghost predicate OneSlot(mem: Memory, sc: Search, tables: seq<nat>, ip: u64) {
    forall p, i, q, k :: p in tables && q in tables && Serves(mem, sc, p, i, ip) && Serves(mem, sc, q, k, ip) ==> i == k
  }

  lemma OffsetsAreInjective(x: u64, y: u64, base: u64)
    ensures Sub64(x, base) == Sub64(y, base) <==> x == y
  {}

  /** A probe address resolves, through ip - base modulo 2^64, if and only if it is an entry
      of an accepted table; and then to a slot it serves. */
  lemma ProbesResolve(mem: Memory, sc: Search, ranges: seq<Range>, ip: u64)
    requires sc.Valid()
    ensures Sub64(ip, sc.base) in OffsetMap(mem, sc, ranges)
       <==> exists p, i :: p in TablesIn(mem, sc, ranges) && Serves(mem, sc, p, i, ip)
    ensures Sub64(ip, sc.base) in OffsetMap(mem, sc, ranges) ==>
      exists p :: p in TablesIn(mem, sc, ranges) && Serves(mem, sc, p, OffsetMap(mem, sc, ranges)[Sub64(ip, sc.base)], ip)
  {
    TablesInAreTables(mem, sc, ranges);
    var tables, off := TablesIn(mem, sc, ranges), Sub64(ip, sc.base);
    var es := AllEntries(mem, sc, tables);
    InsertKeepsLast(es, off);
    forall p, i | p in tables && Serves(mem, sc, p, i, ip)
      ensures LastEntry(es, off) >= 0
    {
      var j := EntryIsListed(mem, sc, tables, p, i);
    }
    if LastEntry(es, off) >= 0 {
      var p, i := ListedIsEntry(mem, sc, tables, LastEntry(es, off));
      OffsetsAreInjective(mem[p + 8 * i], ip, sc.base);
      assert Serves(mem, sc, p, i, ip);
    }
  }

  /** Every event of the function at `ip` is given the slot of each entry that holds it, if
      and only if the function stands in one slot only. */
  lemma ResolvesToEverySlotIff(mem: Memory, sc: Search, ranges: seq<Range>, ip: u64)
    requires sc.Valid()
    ensures var tables, off, m := TablesIn(mem, sc, ranges), Sub64(ip, sc.base), OffsetMap(mem, sc, ranges);
            (forall p, i :: p in tables && Serves(mem, sc, p, i, ip) ==> off in m && m[off] == i)
            <==> OneSlot(mem, sc, tables, ip)
  {
    ProbesResolve(mem, sc, ranges, ip);
  }
}
