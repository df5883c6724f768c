/** The va_list type and the va_arg macro of the AArch64 procedure call standard (AAPCS64,
    appendix "Variable argument lists"), and the proof that the snapshot decoders agree
    with it: exactly when, parameter by parameter. */
module Aapcs64 {
  import opened Words
  import opened Snapshots

  datatype VaList = VaList(stack: u64, grTop: u64, vrTop: u64, grOffs: int, vrOffs: int)

  /** The va_list in memory: three pointers, then two 32-bit offsets in one word; all zero if
      any of it cannot be read. */
  function VaListAt(mem: Memory, p: u64): VaList {
    var gr, vr, offs := Wrap64(p + 8), Wrap64(p + 16), Wrap64(p + 24);
    if p in mem && gr in mem && vr in mem && offs in mem
    then VaList(mem[p], mem[gr], mem[vr], Truncate32(mem[offs]), AsS32(mem[offs] / TWO_32))
    else VaList(0, 0, 0, 0, 0)
  }

  /** What the standard says of every va_list that va_start and va_arg produce. */
  predicate Standard(ap: VaList) {
    && ap.stack % 8 == 0
    && -64 <= ap.grOffs <= 0 && ap.grOffs % 8 == 0
    && -128 <= ap.vrOffs <= 0 && ap.vrOffs % 16 == 0
    && (ap.grOffs < 0 ==> ap.grTop != 0)
  }

  /** Bytes of a promoted argument: int for the small integer types, else a double word. */
  function Size(t: string): int {
    if t in {"Z", "B", "C", "S", "I"} then 4 else 8
  }

  function TakeStack(ap: VaList, t: string): (u64, VaList) {
    (ap.stack, ap.(stack := Wrap64((ap.stack + Size(t) + 7) / 8 * 8)))
  }

  /** va_arg(ap, t): the address the argument is read from, and the advanced va_list. */
  function VaArg(ap: VaList, t: string): (u64, VaList) {
    if IsFp(t) then
      var offs := ap.vrOffs;
      if offs >= 0 then TakeStack(ap, t)
      else
        var ap1 := ap.(vrOffs := offs + 16);
        if ap1.vrOffs > 0 then TakeStack(ap1, t) else (Wrap64(ap.vrTop + offs), ap1)
    else
      var offs := ap.grOffs;
      if offs >= 0 then TakeStack(ap, t)
      else
        var ap1 := ap.(grOffs := offs + 8);
        if ap1.grOffs > 0 then TakeStack(ap1, t) else (Wrap64(ap.grTop + offs), ap1)
  }

  /** Addresses of a whole argument list, by repeated va_arg. */
  function VaArgs(ap: VaList, params: seq<string>): (addrs: seq<u64>)
    ensures |addrs| == |params|
    decreases |params|
  {
    if params == [] then []
    else var (addr, rest) := VaArg(ap, params[0]); [addr] + VaArgs(rest, params[1..])
  }

  // ----- places: the same cursors without addresses

  /** Where an argument lives: a save area at an offset, or the k-th stack word. */
  datatype Place = General(offs: int) | Vector(voffs: int) | Stack(k: nat) | Skipped

  datatype Cursor = Cursor(gr: int, vr: int, k: nat)

  function AbiNext(c: Cursor, fp: bool): (Place, Cursor) {
    if fp then
      if c.vr >= 0 then (Stack(c.k), c.(k := c.k + 1)) else (Vector(c.vr), c.(vr := c.vr + 16))
    else if c.gr >= 0 then (Stack(c.k), c.(k := c.k + 1))
    else (General(c.gr), c.(gr := c.gr + 8))
  }

  /** The decoder's cursors: an F or D parameter moves none. */
  function DecoderNext(c: Cursor, fp: bool): (Place, Cursor) {
    if fp then (Skipped, c)
    else if c.gr >= 0 then (Stack(c.k), c.(k := c.k + 1))
    else (General(c.gr), c.(gr := c.gr + 8))
  }

  function AbiPlaces(params: seq<string>, c: Cursor): (ps: seq<Place>)
    ensures |ps| == |params|
  {
    if params == [] then []
    else var (pl, next) := AbiNext(c, IsFp(params[0])); [pl] + AbiPlaces(params[1..], next)
  }

  function DecoderPlaces(params: seq<string>, c: Cursor): (ps: seq<Place>)
    ensures |ps| == |params|
  {
    if params == [] then []
    else var (pl, next) := DecoderNext(c, IsFp(params[0])); [pl] + DecoderPlaces(params[1..], next)
  }

  function Start(ap: VaList): Cursor {
    Cursor(ap.grOffs, ap.vrOffs, 0)
  }

  function AddressOf(ap: VaList, pl: Place): u64 {
    match pl
    case General(o) => Wrap64(ap.grTop + o)
    case Vector(o) => Wrap64(ap.vrTop + o)
    case Stack(k) => Wrap64(ap.stack + 8 * k)
    case Skipped => 0
  }

  /** Some F or D parameter before the j-th takes a stack word. */
  predicate OverflowBefore(params: seq<string>, c: Cursor, j: nat)
    requires j < |params|
  {
    exists i | 0 <= i < j :: IsFp(params[i]) && AbiPlaces(params, c)[i].Stack?
  }

  lemma OverflowTail(params: seq<string>, c: Cursor, j: nat)
    requires 0 < j < |params|
    ensures var (pl, next) := AbiNext(c, IsFp(params[0]));
            OverflowBefore(params, c, j)
            <==> (IsFp(params[0]) && pl.Stack?) || OverflowBefore(params[1..], next, j - 1)
  {
    var (pl, next) := AbiNext(c, IsFp(params[0]));
    var all, tail := AbiPlaces(params, c), AbiPlaces(params[1..], next);
    assert all[0] == pl;
    forall i | 0 <= i < |params| - 1
      ensures all[i + 1] == tail[i] && params[i + 1] == params[1..][i]
    {}
    if OverflowBefore(params, c, j) {
      var i :| 0 <= i < j && IsFp(params[i]) && all[i].Stack?;
      if i > 0 {
        assert IsFp(params[1..][i - 1]) && tail[i - 1].Stack?;
      }
    }
    if OverflowBefore(params[1..], next, j - 1) {
      var i :| 0 <= i < j - 1 && IsFp(params[1..][i]) && tail[i].Stack?;
      assert IsFp(params[i + 1]) && all[i + 1].Stack?;
    }
  }

  /** The decoder places the j-th parameter where the standard does if and only if that is
      in the save area, or no F/D parameter took a stack word before it. `gap` counts the
      stack words such parameters took so far. */
  lemma {:induction false} PlacesAgree(params: seq<string>, c: Cursor, gap: nat, j: nat)
    requires j < |params| && !IsFp(params[j])
    ensures var abi, dec := AbiPlaces(params, c.(k := c.k + gap))[j], DecoderPlaces(params, c)[j];
            && (abi.General? || abi.Stack?)
            && (abi.General? ==> dec == abi)
            && (abi.Stack? ==> dec.Stack? && dec.k + gap <= abi.k <= c.k + gap + j)
            && (abi.Stack? ==> (abi.k == dec.k <==> gap == 0 && !OverflowBefore(params, c.(k := c.k + gap), j)))
    decreases |params|
  {
    if j > 0 {
      var fp := IsFp(params[0]);
      var at := c.(k := c.k + gap);
      OverflowTail(params, at, j);
      PlacesAgree(params[1..], DecoderNext(c, fp).1.(vr := AbiNext(at, fp).1.vr),
                  if fp && c.vr >= 0 then gap + 1 else gap, j - 1);
      DecoderIgnoresVector(params[1..], DecoderNext(c, fp).1, AbiNext(at, fp).1.vr);
    }
  }

  lemma {:induction false} DecoderIgnoresVector(params: seq<string>, c: Cursor, vr: int)
    ensures DecoderPlaces(params, c.(vr := vr)) == DecoderPlaces(params, c)
    decreases |params|
  {
    if params != [] {
      DecoderIgnoresVector(params[1..], DecoderNext(c, IsFp(params[0])).1, vr);
    }
  }

  // ----- the places are what va_arg and the decoder read

  function ListAt(ap: VaList, c: Cursor): VaList {
    ap.(stack := Wrap64(ap.stack + 8 * c.k), grOffs := c.gr, vrOffs := c.vr)
  }

  predicate Aligned(c: Cursor) {
    -64 <= c.gr <= 0 && c.gr % 8 == 0 && -128 <= c.vr <= 0 && c.vr % 16 == 0
  }

  lemma WrapKeepsAlignment(x: int)
    requires x % 8 == 0
    ensures Wrap64(x) % 8 == 0
  {
    assert x == x / TWO_64 * TWO_64 + Wrap64(x);
  }

  /** Rounding up past a 4- or 8-byte argument moves an aligned pointer by one word. */
  lemma RoundUp(here: int, size: int)
    requires here % 8 == 0 && (size == 4 || size == 8)
    ensures (here + size + 7) / 8 * 8 == here + 8
  {}

  lemma TakeStackIs(ap: VaList, c: Cursor, t: string)
    requires ap.stack % 8 == 0
    ensures TakeStack(ListAt(ap, c), t) == (AddressOf(ap, Stack(c.k)), ListAt(ap, c.(k := c.k + 1)))
  {
    var x := ap.stack + 8 * c.k;
    WrapKeepsAlignment(x);
    RoundUp(Wrap64(x), Size(t));
    assert Wrap64(Wrap64(x) as int + 8) == Wrap64(x + 8);
  }

  lemma VaArgIs(ap: VaList, c: Cursor, t: string)
    requires ap.stack % 8 == 0 && Aligned(c)
    ensures var (pl, next) := AbiNext(c, IsFp(t));
            VaArg(ListAt(ap, c), t) == (AddressOf(ap, pl), ListAt(ap, next)) && Aligned(next)
  {
    TakeStackIs(ap, c, t);
  }

  lemma {:induction false} VaArgsPlaces(ap: VaList, params: seq<string>, c: Cursor, j: nat)
    requires ap.stack % 8 == 0 && Aligned(c) && j < |params|
    ensures VaArgs(ListAt(ap, c), params)[j] == AddressOf(ap, AbiPlaces(params, c)[j])
    decreases |params|
  {
    VaArgIs(ap, c, params[0]);
    if j > 0 {
      VaArgsPlaces(ap, params[1..], AbiNext(c, IsFp(params[0])).1, j - 1);
    }
  }

  /** The snapshot that the va_list branch takes of `ap`. */
  predicate Holds(sn: Snapshot, mem: Memory, ap: VaList) {
    && sn.cap == PeekWindow(mem, Sub64(ap.grTop, 128)) && sn.cap2 == PeekWindow(mem, ap.stack)
    && sn.vgr == ap.grTop && sn.vgoff == ap.grOffs && sn.vstk == ap.stack
  }

  /** 2^60: no list in a 64-bit address space is longer. */
  const LONG: nat := 0x1000_0000_0000_0000

  /** The word the decoder takes for a place of its own. */
  function WordOf(mem: Memory, ap: VaList, pl: Place): u64 {
    if pl.Stack? && pl.k >= NCAP then 0 else Peek(mem, AddressOf(ap, pl))
  }

  /** The decoder with its cursors counted in words instead of addresses. */
  function WordsByIndex(sn: Snapshot, params: seq<string>, c: Cursor): (ws: seq<Option<u64>>)
    ensures |ws| == |params|
  {
    if params == [] then []
    else
      var (pl, next) := DecoderNext(c, IsFp(params[0]));
      [WordFrom(sn, pl)] + WordsByIndex(sn, params[1..], next)
  }

  function WordFrom(sn: Snapshot, pl: Place): Option<u64> {
    match pl
    case General(o) => Some(WordAt(sn.cap, 16 + o / 8))
    case Stack(k) => Some(WordAt(sn.cap2, k))
    case _ => None
  }

  lemma SaveIndexIs(sn: Snapshot, gr: int)
    requires -64 <= gr < 0 && gr % 8 == 0
    ensures SaveIndex(sn, gr) == 16 + gr / 8
  {
    var low, top := Sub64(sn.vgr, 128), sn.vgr;
    assert low as int == top as int - 128 || low as int == top as int - 128 + TWO_64;
    assert AsS64(Wrap64(AsS64(top) + gr - AsS64(low))) == gr + 128;
  }

  lemma WrapBack(x: u64, y: int)
    requires 0 <= y < TWO_64
    ensures Sub64(Wrap64(x + y), x) == y
    ensures Add64(Wrap64(x + y), 8) == Wrap64(x + y + 8)
  {}

  /** The decoder's wrapping pointer arithmetic is the index arithmetic it stands for. */
  lemma {:induction false} WordsVByIndex(sn: Snapshot, params: seq<string>, c: Cursor, stack: u64)
    requires Aligned(c) && (c.gr < 0 ==> sn.vgr != 0)
    requires c.k + |params| < LONG && stack == Wrap64(sn.vstk + 8 * c.k)
    ensures WordsV(sn, params, c.gr, stack) == WordsByIndex(sn, params, c)
    decreases |params|
  {
    if params != [] {
      if c.gr < 0 {
        SaveIndexIs(sn, c.gr);
      }
      WrapBack(sn.vstk, 8 * c.k);
      assert Sub64(stack, sn.vstk) / 8 == c.k;
      var (_, next) := DecoderNext(c, IsFp(params[0]));
      WordsVByIndex(sn, params[1..], next, if next.k == c.k then stack else Add64(stack, 8));
    }
  }

  /** The general save area ends at its top: the window that starts 128 bytes below it. */
  lemma SaveAddress(top: u64, offs: int)
    requires -128 <= offs < 0 && offs % 8 == 0
    ensures Wrap64(Sub64(top, 128) + 8 * (16 + offs / 8)) == Wrap64(top + offs)
  {
    assert 8 * (16 + offs / 8) == 128 + offs;
    assert Wrap64(Wrap64(top - 128) as int + (128 + offs)) == Wrap64(top - 128 + (128 + offs));
  }

  lemma WindowWord(mem: Memory, ap: VaList, sn: Snapshot, pl: Place)
    requires Holds(sn, mem, ap) && (pl.General? ==> -64 <= pl.offs < 0 && pl.offs % 8 == 0) && !pl.Vector?
    ensures WordFrom(sn, pl) == if pl.Skipped? then None else Some(WordOf(mem, ap, pl))
  {
    if pl.General? {
      SaveAddress(sn.vgr, pl.offs);
    }
  }

  /** What the decoder takes for the j-th parameter: the word at its place. */
  lemma {:induction false} DecoderReads(mem: Memory, ap: VaList, sn: Snapshot, params: seq<string>, c: Cursor, j: nat)
    requires Holds(sn, mem, ap) && Aligned(c) && j < |params|
    ensures WordsByIndex(sn, params, c)[j]
         == var pl := DecoderPlaces(params, c)[j]; if pl.Skipped? then None else Some(WordOf(mem, ap, pl))
    decreases |params|
  {
    var (pl, next) := DecoderNext(c, IsFp(params[0]));
    if j == 0 {
      WindowWord(mem, ap, sn, pl);
    } else {
      DecoderReads(mem, ap, sn, params[1..], next, j - 1);
    }
  }

  lemma {:induction false} PlaceKinds(params: seq<string>, c: Cursor, j: nat)
    requires j < |params|
    ensures DecoderPlaces(params, c)[j].Skipped? <==> IsFp(params[j])
    decreases |params|
  {
    if j > 0 {
      PlaceKinds(params[1..], DecoderNext(c, IsFp(params[0])).1, j - 1);
    }
  }

  lemma CapturedHolds(mem: Memory, stale: Stale, a: ArgRegs, ix: nat)
    requires ix < NARGS
    ensures Holds(Captured(stale, a, mem, 2, ix), mem, VaListAt(mem, a[ix]))
  {
    var st, ap, sn := VaWords(mem, a[ix]), VaListAt(mem, a[ix]), Captured(stale, a, mem, 2, ix);
    VaWordsAre(mem, a[ix]);
    assert sn.vstk == st[0] && sn.vgr == st[1] && sn.vgoff == Truncate32(st[3]);
  }

  lemma VaWordsAre(mem: Memory, p: u64)
    ensures var st, ap := VaWords(mem, p), VaListAt(mem, p);
            st[0] == ap.stack && st[1] == ap.grTop && Truncate32(st[3]) == ap.grOffs
  {
    assert Wrap64(p + 8 * 0) == p;
  }

  function DecoderPlace(ap: VaList, params: seq<string>, j: nat): Place
    requires j < |params|
  {
    DecoderPlaces(params, Start(ap))[j]
  }

  /** The decoder reads the address that va_arg reads if and only if va_arg finds the
      parameter in the save area or no F/D parameter before it overflowed to the stack. */
  lemma DecoderAddressIff(ap: VaList, params: seq<string>, j: nat)
    requires Standard(ap) && |params| < LONG && j < |params| && !IsFp(params[j])
    ensures AddressOf(ap, DecoderPlace(ap, params, j)) == VaArgs(ap, params)[j]
       <==> AbiPlaces(params, Start(ap))[j].General? || !OverflowBefore(params, Start(ap), j)
  {
    var c := Start(ap);
    assert ListAt(ap, c) == ap;
    VaArgsPlaces(ap, params, c, j);
    PlacesAgree(params, c, 0, j);
    assert c.(k := c.k + 0) == c;
    var abi, dec := AbiPlaces(params, c)[j], DecoderPlace(ap, params, j);
    if abi.Stack? {
      DistinctStackWords(ap, abi.k, dec.k);
    }
  }

  /** A real list where they part: all save areas used up but one vector register, and
      parameters double, double, int. The second double takes the first stack word, and the
      decoder reads that word for the int, whose own word is the second. */
  lemma OverflowMisreads(ap: VaList)
    requires Standard(ap) && ap.grOffs == 0 && ap.vrOffs == -16
    ensures var params := ["D", "D", "I"];
            && AddressOf(ap, DecoderPlace(ap, params, 2)) == ap.stack
            && VaArgs(ap, params)[1] == ap.stack
            && VaArgs(ap, params)[2] == Wrap64(ap.stack + 8) != ap.stack
  {
    var params, c := ["D", "D", "I"], Start(ap);
    assert ListAt(ap, c) == ap;
    VaArgsPlaces(ap, params, c, 1);
    VaArgsPlaces(ap, params, c, 2);
    assert params[1..] == ["D", "I"] && params[1..][1..] == ["I"];
    assert AbiPlaces(["I"], Cursor(0, 0, 1)) == [Stack(1)];
    assert AbiPlaces(["D", "I"], Cursor(0, 0, 0)) == [Stack(0)] + [Stack(1)];
    assert AbiPlaces(params, c) == [Vector(-16)] + ([Stack(0)] + [Stack(1)]);
    assert DecoderPlaces(["I"], c) == [Stack(0)];
    assert DecoderPlaces(["D", "I"], c) == [Skipped] + [Stack(0)];
    assert DecoderPlaces(params, c) == [Skipped] + ([Skipped] + [Stack(0)]);
  }

  lemma DistinctStackWords(ap: VaList, k1: nat, k2: nat)
    requires k1 < LONG && k2 < LONG
    ensures AddressOf(ap, Stack(k1)) == AddressOf(ap, Stack(k2)) <==> k1 == k2
  {}

  /** From the caller's memory to the decoder's word, through the snapshot: the word at the
      decoder's place. */
  lemma DecodeVReads(mem: Memory, ap: VaList, sn: Snapshot, params: seq<string>, j: nat)
    requires Holds(sn, mem, ap) && Standard(ap)
    requires |params| < LONG && j < |params| && !IsFp(params[j])
    ensures DecodedWords(2, sn, params)[j] == Some(WordOf(mem, ap, DecoderPlace(ap, params, j)))
  {
    var c := Start(ap);
    WordsVByIndex(sn, params, c, ap.stack);
    DecoderReads(mem, ap, sn, params, c, j);
    PlaceKinds(params, c, j);
  }

  /** The word that va_arg reads for the j-th argument; 0 past the sixteen stack words that
      the snapshot holds. */
  function ArgumentInWindow(mem: Memory, ap: VaList, params: seq<string>, j: nat): u64
    requires j < |params|
  {
    var pl := AbiPlaces(params, Start(ap))[j];
    if pl.Stack? && pl.k >= NCAP then 0 else Peek(mem, VaArgs(ap, params)[j])
  }

  /** The va_list branch of the snapshot followed by its decoder refines repeated va_arg:
      for every memory, a parameter that is not F or D decodes to the word va_arg reads if
      no F/D parameter before it overflowed to the stack. */
  lemma DecodeVRefinesVaArg(mem: Memory, stale: Stale, a: ArgRegs, ix: nat, params: seq<string>, j: nat)
    requires ix < NARGS && Standard(VaListAt(mem, a[ix]))
    requires |params| < LONG && j < |params| && !IsFp(params[j])
    requires !OverflowBefore(params, Start(VaListAt(mem, a[ix])), j)
    ensures DecodedWords(2, Captured(stale, a, mem, 2, ix), params)[j]
         == Some(ArgumentInWindow(mem, VaListAt(mem, a[ix]), params, j))
  {
    var ap, sn := VaListAt(mem, a[ix]), Captured(stale, a, mem, 2, ix);
    CapturedHolds(mem, stale, a, ix);
    DecodeVReads(mem, ap, sn, params, j);
    InWindow(mem, ap, params, j);
  }

  lemma InWindow(mem: Memory, ap: VaList, params: seq<string>, j: nat)
    requires Standard(ap) && |params| < LONG && j < |params| && !IsFp(params[j])
    requires !OverflowBefore(params, Start(ap), j)
    ensures WordOf(mem, ap, DecoderPlace(ap, params, j)) == ArgumentInWindow(mem, ap, params, j)
  {
    var c := Start(ap);
    DecoderAddressIff(ap, params, j);
    assert c.(k := c.k + 0) == c;
    PlacesAgree(params, c, 0, j);
  }

  // ----- variadic C calls: arguments in the entry registers

  /** At the entry of a variadic function whose named arguments fill x0 .. x(ix-1), the
      standard places the variadic ones as if from a save area: all vector registers and
      x(ix) .. x7 are free, no stack word is taken. */
  function EntryCursor(ix: nat): Cursor {
    Cursor(8 * (ix - 8), -128, 0)
  }

  /** The general register saved at this offset of the save area, which holds x0 .. x7. */
  function RegisterOf(pl: Place): Option<int> {
    if pl.General? then Some(8 + pl.offs / 8) else None
  }

  predicate NoFpUpTo(params: seq<string>, j: nat)
    requires j < |params|
  {
    forall i | 0 <= i <= j :: !IsFp(params[i])
  }

  /** The j-th parameter stands j words after the first one if and only if it and all before
      it go to general registers. */
  lemma {:induction false} GeneralPlaceIff(params: seq<string>, c: Cursor, j: nat)
    requires j < |params| && c.gr + 8 * j < 0
    ensures var pl := AbiPlaces(params, c)[j];
            && (pl.General? ==> pl.offs <= c.gr + 8 * j)
            && (pl == General(c.gr + 8 * j) <==> NoFpUpTo(params, j))
    decreases |params|
  {
    if j > 0 {
      GeneralPlaceIff(params[1..], AbiNext(c, IsFp(params[0])).1, j - 1);
      assert forall i | 0 < i <= j :: params[i] == params[1..][i - 1];
      assert NoFpUpTo(params, j) <==> !IsFp(params[0]) && NoFpUpTo(params[1..], j - 1);
    }
  }

  /** The register branch: parameter j decodes to entry register ix + j while that was
      captured and to nothing after it, whatever its type; and that is the register the
      standard passes it in if and only if neither it nor any parameter before it is F or D. */
  lemma DecodeDirectReads(stale: Stale, a: ArgRegs, mem: Memory, ix: nat, params: seq<string>, j: nat)
    requires 3 <= ix < NARGS && j < |params|
    ensures var word := DecodedWords(3, Captured(stale, a, mem, 3, ix), params)[j];
            word == if ix + j < NARGS then Some(a[ix + j]) else None
    ensures ix + j < NARGS ==>
              (RegisterOf(AbiPlaces(params, EntryCursor(ix))[j]) == Some(ix + j)
               <==> NoFpUpTo(params, j))
  {
    DirectWord(stale, a, mem, ix, params, j);
    if ix + j < NARGS {
      EntryOffset(ix, j);
      EntryRegisterIff(params, EntryCursor(ix), ix + j, j);
    }
  }

  lemma DirectWord(stale: Stale, a: ArgRegs, mem: Memory, ix: nat, params: seq<string>, j: nat)
    requires 3 <= ix < NARGS && j < |params|
    ensures DecodedWords(3, Captured(stale, a, mem, 3, ix), params)[j] == if ix + j < NARGS then Some(a[ix + j]) else None
  {}

  lemma EntryOffset(ix: nat, j: nat)
    ensures EntryCursor(ix).gr % 8 == 0 && EntryCursor(ix).gr + 8 * j == 8 * (ix + j - 8)
  {}

  lemma EntryRegisterIff(params: seq<string>, c: Cursor, n: nat, j: nat)
    requires j < |params| && n < 8 && c.gr + 8 * j == 8 * (n - 8) && c.gr % 8 == 0
    ensures RegisterOf(AbiPlaces(params, c)[j]) == Some(n) <==> NoFpUpTo(params, j)
  {
    AlignedPlaces(params, c, j);
    RegisterIff(AbiPlaces(params, c)[j], n);
    GeneralPlaceIff(params, c, j);
  }

  lemma RegisterIff(pl: Place, n: int)
    requires pl.General? ==> pl.offs % 8 == 0
    ensures RegisterOf(pl) == Some(n) <==> pl == General(8 * (n - 8))
  {}

  lemma {:induction false} AlignedPlaces(params: seq<string>, c: Cursor, j: nat)
    requires j < |params| && c.gr % 8 == 0
    ensures AbiPlaces(params, c)[j].General? ==> AbiPlaces(params, c)[j].offs % 8 == 0
    decreases |params|
  {
    if j > 0 {
      AlignedPlaces(params[1..], AbiNext(c, IsFp(params[0])).1, j - 1);
    }
  }

  /** The jvalue branch: parameter j is the j-th 8-byte element of the caller's array. */
  lemma DecodeAReads(stale: Stale, a: ArgRegs, mem: Memory, ix: nat, params: seq<string>, j: nat)
    requires ix < NARGS && j < |params|
    ensures DecodedWords(1, Captured(stale, a, mem, 1, ix), params)[j]
         == if j < NCAP then Some(Peek(mem, Wrap64(a[ix] + 8 * j))) else None
  {}
}
