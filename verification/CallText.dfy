/** From the registers and memory at a call to the printed arguments: kernel snapshot, ring
    buffer, cached descriptor, decoder and text together. */
module CallText {
  import opened Words
  import opened Text
  import opened Schema
  import opened Descriptor
  import opened Snapshots
  import opened Aapcs64
  import opened Kernel
  import opened Learning
  import opened Tracing
  import opened Protocol
  import opened Pairing
  import opened Lag
  import opened Display
  import opened Names

  /** The set-up that chooses how a call slot is snapshotted agrees with the choice of the
      decoder, and its argument index is a register. */
  lemma CallIsCaptured(s: Settings, x: Activation, mem: Memory, stale: Stale)
    requires Probed(s, x) && IsCall(s, SlotOf(s, x))
    ensures var nm := SlotName(s.site.schema, SlotOf(s, x));
            SnapshotFor(KernelTables(s), x.call, mem, stale)
            == Captured(stale, x.call.x, mem, SnapshotKind(nm), CallIndex(nm).value + 1)
  {
    var nm, off := SlotName(s.site.schema, SlotOf(s, x)), Sub64(x.call.ip, s.site.base);
    var tb := KernelTables(s);
    assert tb.argkind[off] == SnapshotKind(nm) && tb.argidx[off] == CallIndex(nm).value + 1;
  }

  /** Nothing left in a ring-buffer record from an earlier event reaches the printed call. */
  lemma TextIgnoresStaleRecords(s: Settings, x: Activation, mem: Memory, s1: Stale, s2: Stale, depth: map<u32, u32>,
                                c: Caches, t: Target)
    requires Probed(s, x) && IsCall(s, SlotOf(s, x))
    ensures var tb, nm := KernelTables(s), SlotName(s.site.schema, SlotOf(s, x));
            DescribeCall(s, EntryEvent(tb, depth, x.call, SnapshotFor(tb, x.call, mem, s1)), nm, CallIndex(nm).value, c, t)
            == DescribeCall(s, EntryEvent(tb, depth, x.call, SnapshotFor(tb, x.call, mem, s2)), nm, CallIndex(nm).value, c, t)
  {
    var tb, nm := KernelTables(s), SlotName(s.site.schema, SlotOf(s, x));
    var ix := CallIndex(nm).value;
    CallIsCaptured(s, x, mem, s1);
    CallIsCaptured(s, x, mem, s2);
    var e1 := EntryEvent(tb, depth, x.call, SnapshotFor(tb, x.call, mem, s1));
    var e2 := EntryEvent(tb, depth, x.call, SnapshotFor(tb, x.call, mem, s2));
    if e1.a[ix] in c.idName {
      DecodersReadOnlyCaptured(s1, s2, x.call.x, mem, SnapshotKind(nm), ix + 1, Pieces(SplitNameSig(c.idName[e1.a[ix]]).1));
    }
    SameWordsSameText(s, e1, e2, nm, ix, c, t);
  }

  lemma SameWordsSameText(s: Settings, e1: Event, e2: Event, nm: string, ix: nat, c: Caches, t: Target)
    requires 2 <= ix <= 3 && e1.a == e2.a
    requires e1.a[ix] in c.idName ==>
      var params := Pieces(SplitNameSig(c.idName[e1.a[ix]]).1);
      DecodedWords(SnapshotKind(nm), e1.snap, params) == DecodedWords(SnapshotKind(nm), e2.snap, params)
    ensures DescribeCall(s, e1, nm, ix, c, t) == DescribeCall(s, e2, nm, ix, c, t)
  {}

  // ----- by the name of the call function

  /** Call functions take the method id in register x(id) and the arguments behind it: third
      argument, or fourth after object and class. */
  predicate TakesId(nm: string, id: nat) {
    || (HasPrefix(nm, "NewObject") && id == 2)
    || (HasPrefix(nm, "Call") && Contains(nm, "Method") && id == if Contains(nm, "Nonvirtual") then 3 else 2)
  }

  lemma TakesIdIff(nm: string, id: nat)
    ensures TakesId(nm, id) <==> CallIndex(nm) == Some(id)
  {
    if HasPrefix(nm, "NewObject") {
      assert nm[0] == 'N';
      OtherHead(nm, "Call");
    }
  }

  /** What the j-th argument of a call has to show: for a ...A function the j-th element of
      the array behind x(id + 1), for a ...V function the word that va_arg reads for it from
      the list there (with no F/D overflow before it), else entry register x(id + 1 + j). */
  predicate ArgumentShown(s: Settings, nm: string, id: nat, x: ArgRegs, mem: Memory, types: seq<string>, j: nat,
                          text: string, c: Caches, t: Target)
    requires id <= 3 && j < |types|
  {
    var ap := VaListAt(mem, x[id + 1]);
    && (HasSuffix(nm, "A") ==>
          text == if j < 16 then s.host.value(types[j], Peek(mem, Wrap64(x[id + 1] + 8 * j)), c, t) else "?")
    && (HasSuffix(nm, "V") && IsFp(types[j]) ==> text == "?")
    && (HasSuffix(nm, "V") && !IsFp(types[j]) && |types| < LONG && Standard(ap) && !OverflowBefore(types, Start(ap), j) ==>
          text == s.host.value(types[j], ArgumentInWindow(mem, ap, types, j), c, t))
    && (!HasSuffix(nm, "A") && !HasSuffix(nm, "V") ==>
          text == if id + 1 + j < 5 then s.host.value(types[j], x[id + 1 + j], c, t) else "?")
  }

  lemma {:induction false} FpUnknown(sn: Snapshot, params: seq<string>, gr: int, stack: u64, j: nat)
    requires j < |params|
    ensures WordsV(sn, params, gr, stack)[j].None? <==> IsFp(params[j])
    decreases j
  {
    if j > 0 {
      var (_, gr2, stack2) := NextV(sn, IsFp(params[0]), gr, stack);
      FpUnknown(sn, params[1..], gr2, stack2, j - 1);
    }
  }

  /** The word that the snapshot of this kind of call yields for the j-th parameter. */
  lemma WordByName(nm: string, id: nat, x: ArgRegs, mem: Memory, stale: Stale, types: seq<string>, j: nat)
    requires 2 <= id <= 3 && j < |types|
    ensures var ap := VaListAt(mem, x[id + 1]);
            var word := DecodedWords(SnapshotKind(nm), Captured(stale, x, mem, SnapshotKind(nm), id + 1), types)[j];
            && (HasSuffix(nm, "A") ==> word == if j < 16 then Some(Peek(mem, Wrap64(x[id + 1] + 8 * j))) else None)
            && (HasSuffix(nm, "V") && IsFp(types[j]) ==> word == None)
            && (HasSuffix(nm, "V") && !IsFp(types[j]) && |types| < LONG && Standard(ap) && !OverflowBefore(types, Start(ap), j) ==>
                  word == Some(ArgumentInWindow(mem, ap, types, j)))
            && (!HasSuffix(nm, "A") && !HasSuffix(nm, "V") ==>
                  word == if id + 1 + j < 5 then Some(x[id + 1 + j]) else None)
  {
    if HasSuffix(nm, "A") {
      DecodeAReads(stale, x, mem, id + 1, types, j);
    } else if HasSuffix(nm, "V") {
      var sn := Captured(stale, x, mem, 2, id + 1);
      FpUnknown(sn, types, sn.vgoff, sn.vstk, j);
      var ap := VaListAt(mem, x[id + 1]);
      if !IsFp(types[j]) && |types| < LONG && Standard(ap) && !OverflowBefore(types, Start(ap), j) {
        DecodeVRefinesVaArg(mem, stale, x, id + 1, types, j);
      }
    } else {
      DecodeDirectReads(stale, x, mem, id + 1, types, j);
    }
  }

  lemma ArgumentOfWord(s: Settings, nm: string, e: Event, sig: string, types: seq<string>, j: nat, c: Caches, t: Target)
    requires Pieces(sig) == types && j < |types|
    ensures var word, args := DecodedWords(SnapshotKind(nm), e.snap, types)[j], CallArgs(s, e, nm, sig, c, t);
            |args| == |types| && args[j] == if word.Some? then s.host.value(types[j], word.value, c, t) else "?"
  {}

  lemma ArgumentByName(s: Settings, nm: string, id: nat, x: ArgRegs, mem: Memory, stale: Stale, types: seq<string>, j: nat,
                       word: Option<u64>, text: string, c: Caches, t: Target)
    requires 2 <= id <= 3 && j < |types|
    requires word == DecodedWords(SnapshotKind(nm), Captured(stale, x, mem, SnapshotKind(nm), id + 1), types)[j]
    requires text == if word.Some? then s.host.value(types[j], word.value, c, t) else "?"
    ensures ArgumentShown(s, nm, id, x, mem, types, j, text, c, t)
  {
    WordByName(nm, id, x, mem, stale, types, j);
  }

  /** From registers and memory at the call to the printed argument, for every kind of call
      function, with the method id's descriptor as the cache holds it. */
  lemma PrintedArgument(s: Settings, x: Activation, mem: Memory, stale: Stale, c: Caches, t: Target, e: Event, id: nat,
                        params: seq<FieldType>, ret: string, j: nat)
    requires Probed(s, x) && TakesId(SlotName(s.site.schema, SlotOf(s, x)), id)
    requires e.snap == SnapshotFor(KernelTables(s), x.call, mem, stale)
    requires (forall p | p in params :: p.WellFormed()) && j < |params|
    ensures var nm := SlotName(s.site.schema, SlotOf(s, x));
            var args := CallArgs(s, e, nm, MethodDescriptor(params, ret), c, t);
            |args| == |params| && ArgumentShown(s, nm, id, x.call.x, mem, ShowAll(params), j, args[j], c, t)
  {
    var nm := SlotName(s.site.schema, SlotOf(s, x));
    TakesIdIff(nm, id);
    ParseRoundTrip(params, ret);
    CallIsCaptured(s, x, mem, stale);
    var sig, types := MethodDescriptor(params, ret), ShowAll(params);
    ArgumentOfWord(s, nm, e, sig, types, j, c, t);
    ArgumentByName(s, nm, id, x.call.x, mem, stale, types, j, DecodedWords(SnapshotKind(nm), e.snap, types)[j],
                   CallArgs(s, e, nm, sig, c, t)[j], c, t);
  }

  // ----- the class in front

  /** The latest calls in `truth` tell that reference `v` is, or is an object of, class
      `cls`: through the heap object `obj` behind it, or, with none readable (0), by itself. */
  predicate Tells(tb: Table, truth: seq<Lesson>, t: Target, v: u64, obj: u64, cls: string) {
    if obj == 0 then v != 0 && (forall o: u64 :: !Refers(t, v, o)) && LatestClassName(tb, truth, v) == Some(cls)
    else
      && Refers(t, v, obj)
      && var direct := LatestObjectName(tb, truth, obj);
         || direct == Some(cls)
         || (direct == None && obj in t.words && LatestObjectName(tb, truth, t.words[obj]) == Some(cls))
  }

  /** They tell nothing about it. */
  predicate TellsNothing(tb: Table, truth: seq<Lesson>, t: Target, v: u64) {
    && v != 0 && (forall o: u64 | Refers(t, v, o) ::
        LatestObjectName(tb, truth, o) == None && (o in t.words ==> LatestObjectName(tb, truth, t.words[o]) == None))
    && ((forall o: u64 :: !Refers(t, v, o)) ==> LatestClassName(tb, truth, v) == None)
  }

  lemma RefIs(tb: Table, truth: seq<Lesson>, t: Target, v: u64, obj: u64, cls: string)
    requires Tells(tb, truth, t, v, obj, cls)
    ensures ClassNameOfRef(LearnAll(tb, EMPTY, truth), t, v) == cls
  {
    LearnedNames(tb, truth, v);
    LearnedNames(tb, truth, obj);
    ResolvesIff(t, v, if obj == 0 then 1 else obj);
    if obj == 0 {
      var o := ResolveObj(t, v);
      assert o != 0 ==> Refers(t, v, o);
    } else if obj in t.words {
      LearnedNames(tb, truth, t.words[obj]);
    }
  }

  lemma RefIsHex(tb: Table, truth: seq<Lesson>, t: Target, v: u64)
    requires TellsNothing(tb, truth, t, v)
    ensures HasPrefix(ClassNameOfRef(LearnAll(tb, EMPTY, truth), t, v), "0x")
  {
    var o := ResolveObj(t, v);
    LearnedNames(tb, truth, v);
    LearnedNames(tb, truth, o);
    assert o != 0 ==> Refers(t, v, o);
    if o in t.words {
      LearnedNames(tb, truth, t.words[o]);
    }
    HexPrefix(v);
    HexPrefix(o);
  }

  lemma HexPrefix(v: nat)
    ensures HasPrefix(Hex(v), "0x")
  {
    assert Hex(v)[..2] == "0x";
  }

  /** The class to print for a call on `recv` through id `mid`: what is told of the receiver,
      else of the class the id was looked up in. */
  predicate CalleeTold(tb: Table, truth: seq<Lesson>, t: Target, recv: u64, mid: u64, obj: u64, cls: string) {
    && cls != "" && !HasPrefix(cls, "0x")
    && (|| Tells(tb, truth, t, recv, obj, cls)
        || (TellsNothing(tb, truth, t, recv) && LatestClass(tb, truth, mid).Some?
            && Tells(tb, truth, t, LatestClass(tb, truth, mid).value, obj, cls)))
  }

  lemma CalleeIs(tb: Table, truth: seq<Lesson>, t: Target, e: Event, mid: u64, obj: u64, cls: string)
    requires CalleeTold(tb, truth, t, e.a[1], mid, obj, cls)
    ensures CalleeClass(e, mid, LearnAll(tb, EMPTY, truth), t) == cls
  {
    if Tells(tb, truth, t, e.a[1], obj, cls) {
      RefIs(tb, truth, t, e.a[1], obj, cls);
    } else {
      RefIsHex(tb, truth, t, e.a[1]);
      LearnedNames(tb, truth, mid);
      RefIs(tb, truth, t, LatestClass(tb, truth, mid).value, obj, cls);
    }
  }

  // ----- the whole text

  /** The text is class, dot, name and arguments, each argument showing what the caller gave. */
  predicate Spells(s: Settings, e: Event, nm: string, id: nat, x: ArgRegs, mem: Memory, c: Caches, t: Target,
                   cls: string, name: string, params: seq<FieldType>, ret: string, text: string)
    requires id <= 3
  {
    var args := CallArgs(s, e, nm, MethodDescriptor(params, ret), c, t);
    && text == cls + "." + name + "(" + Join(args, ", ") + ")"
    && |args| == |params|
    && forall j | 0 <= j < |params| :: ArgumentShown(s, nm, id, x, mem, ShowAll(params), j, args[j], c, t)
  }

  /** `truth` tells the method behind id `mid`, and the class to print for a call on `recv`. */
  predicate TellsCall(tb: Table, truth: seq<Lesson>, t: Target, recv: u64, mid: u64, obj: u64, cls: string, full: string) {
    LatestName(tb, truth, mid) == Some(full) && CalleeTold(tb, truth, t, recv, mid, obj, cls)
  }

  lemma KnownText(s: Settings, x: Activation, mem: Memory, stale: Stale, truth: seq<Lesson>, t: Target, e: Event, id: nat,
                  name: string, params: seq<FieldType>, ret: string, obj: u64, cls: string)
    requires Probed(s, x) && TakesId(SlotName(s.site.schema, SlotOf(s, x)), id)
    requires e.a == x.call.x && e.snap == SnapshotFor(KernelTables(s), x.call, mem, stale)
    requires '(' !in name && forall p | p in params :: p.WellFormed()
    requires TellsCall(s.site.schema, truth, t, e.a[1], e.a[id], obj, cls, name + MethodDescriptor(params, ret))
    ensures var nm, c := SlotName(s.site.schema, SlotOf(s, x)), LearnAll(s.site.schema, EMPTY, truth);
            Spells(s, e, nm, id, x.call.x, mem, c, t, cls, name, params, ret, DescribeCall(s, e, nm, id, c, t).0)
  {
    var nm, c := SlotName(s.site.schema, SlotOf(s, x)), LearnAll(s.site.schema, EMPTY, truth);
    LearnedNames(s.site.schema, truth, e.a[id]);
    CalleeIs(s.site.schema, truth, t, e, e.a[id], obj, cls);
    DescribeRecovers(s, e, nm, id, c, t, name, params, ret);
    ParseRoundTrip(params, ret);
    forall j | 0 <= j < |params|
      ensures ArgumentShown(s, nm, id, x.call.x, mem, ShowAll(params), j,
                            CallArgs(s, e, nm, MethodDescriptor(params, ret), c, t)[j], c, t)
    {
      PrintedArgument(s, x, mem, stale, c, t, e, id, params, ret, j);
    }
  }

  /** The text of a call as a run makes it, handled however late, spelled by the target
      itself: the class that FindClass was asked for (with dots), a dot, the name that the
      latest lookup of the id asked for, and one argument per parameter of the descriptor
      asked for, each showing the array element, va_list word or register of this call. */
  lemma PrintedCallIsTrue(s: Settings, acts: seq<Action>, it: Item, slot: int, id: nat,
                          name: string, params: seq<FieldType>, ret: string, obj: u64, cls: string) returns (m: nat)
    requires Fits(s, acts) && Lossless(acts) && Run(s, acts).ring != [] && it == Run(s, acts).ring[0]
    requires EntryOf(s, it, slot) && TakesId(SlotName(s.site.schema, slot), id)
    requires '(' !in name && forall p | p in params :: p.WellFormed()
    ensures m < |acts| && acts[m].Act? && EntryRecord(s, Run(s, acts[..m]), acts[m].move, it)
    ensures var nm, c := SlotName(s.site.schema, slot), Run(s, acts).tracer;
            var x, mem, t := acts[m].move.call.x, acts[m].move.mem, it.env.target;
            TellsCall(s.site.schema, TrueLessons(s.site, MovesOf(acts[..m])), t, x[1], x[id], obj, cls,
                      name + MethodDescriptor(params, ret)) ==>
              Spells(s, it.e, nm, id, x, mem, c.caches, t, cls, name, params, ret, EntryText(s, c, it, slot))
  {
    var nm, c := SlotName(s.site.schema, slot), Run(s, acts).tracer;
    TakesIdIff(nm, id);
    m := CachesFollowTarget(s, acts);
    NewRecordIs(s, Run(s, acts[..m]), acts[m], it);
    var truth, a, full := TrueLessons(s.site, MovesOf(acts[..m])), acts[m], name + MethodDescriptor(params, ret);
    if TellsCall(s.site.schema, truth, it.env.target, it.e.a[1], it.e.a[id], obj, cls, full) {
      KnownText(s, Activation(a.move.call, a.move.env), a.move.mem, a.res.stale, truth, it.env.target, it.e, id,
                name, params, ret, obj, cls);
      assert EntryText(s, c, it, slot) == DescribeCall(s, it.e, nm, id, c.caches, it.env.target).0;
    }
  }
}
