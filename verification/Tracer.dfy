/** The consumer: pairs calls with returns by (thread, depth), learns from completed calls
    and prints the call tree. */
module Tracing {
  import opened Words
  import opened Text
  import opened Schema
  import opened Filtering
  import opened Descriptor
  import opened Snapshots
  import opened Kernel
  import opened Learning

  /** Printing of single values by type, and regular expressions, stay uninterpreted. */
  datatype Host = Host(rx: Matcher,
                       value: (string, u64, Caches, Target) -> string,
                       arg: (string, u64, Caches, Target) -> string,
                       ret: (string, u64, Caches, Target) -> string,
                       millis: u64 -> string)

  /** What does not depend on any filter: the schema, libart's base, the slot of each probed
      file offset, and the one thread to watch (0: all). */
  datatype Site = Site(schema: Table, base: u64, offsets: map<u64, int>, tid: int)

  datatype View = View(maxDepth: int, verbose: bool, count: bool, json: bool)

  datatype Settings = Settings(site: Site, start: Filter, noReturns: bool, view: View, host: Host)

  // ----- set-up: which slots are calls, which are tracked

  predicate WantsReturn(s: Settings, slot: int) {
    var nm := SlotName(s.site.schema, slot);
    AlwaysWatch(nm) || (!s.noReturns && SlotRet(s.site.schema, slot) != "void" && SlotWanted(s.site.schema, s.start, slot))
  }

  predicate IsCall(s: Settings, slot: int) {
    CallIndex(SlotName(s.site.schema, slot)).Some?
  }

  function RetSetOf(s: Settings, offs: set<u64>): set<int>
    requires offs <= s.site.offsets.Keys
  {
    set off | off in offs && WantsReturn(s, s.site.offsets[off]) :: s.site.offsets[off]
  }

  function CallSetOf(s: Settings, offs: set<u64>): set<int>
    requires offs <= s.site.offsets.Keys
  {
    set off | off in offs && IsCall(s, s.site.offsets[off]) :: s.site.offsets[off]
  }

  function KindsOf(s: Settings, offs: set<u64>): map<u64, nat>
    requires offs <= s.site.offsets.Keys
  {
    map off | off in offs && IsCall(s, s.site.offsets[off]) :: SnapshotKind(SlotName(s.site.schema, s.site.offsets[off]))
  }

  function IndexesOf(s: Settings, offs: set<u64>): map<u64, nat>
    requires offs <= s.site.offsets.Keys
  {
    map off | off in offs && IsCall(s, s.site.offsets[off]) ::
      CallIndex(SlotName(s.site.schema, s.site.offsets[off])).value + 1
  }

  function RetSet(s: Settings): set<int> {
    RetSetOf(s, s.site.offsets.Keys)
  }

  function CallSet(s: Settings): set<int> {
    CallSetOf(s, s.site.offsets.Keys)
  }

  function KernelTables(s: Settings): Tables {
    Tables(s.site.base, (set off | off in s.site.offsets && s.site.offsets[off] in RetSet(s)),
           KindsOf(s, s.site.offsets.Keys), IndexesOf(s, s.site.offsets.Keys))
  }

  /** What the flags and the start-up filter ask for, by the slot's name and return type. */
  predicate Asked(s: Settings, slot: int) {
    var nm, f := SlotName(s.site.schema, slot), s.start;
    || nm in {"GetMethodID", "GetStaticMethodID", "GetFieldID", "GetStaticFieldID", "FindClass", "GetObjectClass",
              "NewObject", "NewObjectV", "NewObjectA", "AllocObject", "GetStringUTFChars", "NewStringUTF"}
    || (&& !s.noReturns && SlotRet(s.site.schema, slot) != "void"
        && (forall x | x in f.exclude :: !Contains(nm, x))
        && (if f.only != [] then exists o | o in f.only :: Contains(nm, o)
            else "all" in f.modes || Category(nm) in f.modes))
  }

  lemma WantsAsked(s: Settings, slot: int)
    ensures WantsReturn(s, slot) <==> Asked(s, slot)
  {
    AnyInIff(SlotName(s.site.schema, slot), s.start.exclude);
    AnyInIff(SlotName(s.site.schema, slot), s.start.only);
  }

  lemma TrackedAsAsked(s: Settings)
    ensures forall slot :: slot in RetSet(s) <==> slot in s.site.offsets.Values && Asked(s, slot)
  {
    forall slot
      ensures WantsReturn(s, slot) <==> Asked(s, slot)
    {
      WantsAsked(s, slot);
    }
    assert RetSet(s) == set off | off in s.site.offsets && WantsReturn(s, s.site.offsets[off]) :: s.site.offsets[off];
  }

  /** The set-up over the offsets, in whatever order the map is visited. */
  method Configure(s: Settings, f: Filters) returns (callSet: set<int>, retSet: set<int>, tables: Tables)
    requires f.Value() == s.start
    ensures callSet == CallSet(s) && retSet == RetSet(s) && tables == KernelTables(s)
    ensures forall slot :: slot in retSet <==> slot in s.site.offsets.Values && Asked(s, slot)
    ensures forall off :: off in tables.hasret <==> off in s.site.offsets && s.site.offsets[off] in retSet
  {
    var kinds, idxs;
    TrackedAsAsked(s);
    callSet, retSet, kinds, idxs := Classify(s, f);
    var offs := s.site.offsets;
    var hasret: set<u64> := {};
    var todo := offs.Keys;
    while todo != {}
      invariant todo <= offs.Keys
      invariant hasret == set off | off in offs.Keys - todo && offs[off] in retSet
    {
      var off :| off in todo;
      if offs[off] in retSet {
        hasret := hasret + {off};
      }
      todo := todo - {off};
    }
    tables := Tables(s.site.base, hasret, kinds, idxs);
  }

  method Classify(s: Settings, f: Filters)
    returns (callSet: set<int>, retSet: set<int>, kinds: map<u64, nat>, idxs: map<u64, nat>)
    requires f.Value() == s.start
    ensures callSet == CallSet(s) && retSet == RetSet(s)
    ensures kinds == KindsOf(s, s.site.offsets.Keys) && idxs == IndexesOf(s, s.site.offsets.Keys)
  {
    callSet, retSet, kinds, idxs := {}, {}, map[], map[];
    var todo, done: set<u64> := s.site.offsets.Keys, {};
    while todo != {}
      invariant todo + done == s.site.offsets.Keys && todo !! done
      invariant callSet == CallSetOf(s, done) && retSet == RetSetOf(s, done)
      invariant kinds == KindsOf(s, done) && idxs == IndexesOf(s, done)
    {
      var off :| off in todo;
      var slot := s.site.offsets[off];
      var nm := SlotName(s.site.schema, slot);
      SetsGrow(s, done, off);
      TablesGrow(s, done, off);
      KindsGrow(s, done, off);
      var ix := CallIndex(nm);
      if ix.Some? {
        callSet := callSet + {slot};
        kinds := kinds[off := SnapshotKind(nm)];
        idxs := idxs[off := ix.value + 1];
      }
      if AlwaysWatch(nm) {
        retSet := retSet + {slot};
      } else if !s.noReturns && SlotRet(s.site.schema, slot) != "void" {
        var wanted := f.MatchSlot(s.site.schema, slot);
        if wanted {
          retSet := retSet + {slot};
        }
      }
      todo, done := todo - {off}, done + {off};
    }
  }

  lemma SetsGrow(s: Settings, done: set<u64>, off: u64)
    requires done <= s.site.offsets.Keys && off in s.site.offsets
    ensures var slot := s.site.offsets[off];
            && CallSetOf(s, done + {off}) == CallSetOf(s, done) + (if IsCall(s, slot) then {slot} else {})
            && RetSetOf(s, done + {off}) == RetSetOf(s, done) + (if WantsReturn(s, slot) then {slot} else {})
  {}

  lemma TablesGrow(s: Settings, done: set<u64>, off: u64)
    requires done <= s.site.offsets.Keys && off in s.site.offsets
    ensures var ix := CallIndex(SlotName(s.site.schema, s.site.offsets[off]));
            IndexesOf(s, done + {off}) == if ix.Some? then IndexesOf(s, done)[off := ix.value + 1] else IndexesOf(s, done)
  {}

  lemma KindsGrow(s: Settings, done: set<u64>, off: u64)
    requires done <= s.site.offsets.Keys && off in s.site.offsets
    ensures var nm := SlotName(s.site.schema, s.site.offsets[off]);
            KindsOf(s, done + {off})
            == if CallIndex(nm).Some? then KindsOf(s, done)[off := SnapshotKind(nm)] else KindsOf(s, done)
  {}

  lemma RetSetIff(s: Settings, off: u64)
    requires off in s.site.offsets
    ensures s.site.offsets[off] in RetSet(s) <==> WantsReturn(s, s.site.offsets[off])
    ensures s.site.offsets[off] in CallSet(s) <==> IsCall(s, s.site.offsets[off])
  {}

  // ----- state

  type Key = (int, int)

  function KeyOf(tid: u32, depth: int): Key {
    (AsS32(tid), depth)
  }

  datatype Frame = Frame(slot: int, ts: u64, call: string, caller: string, a1: u64, a2: u64, a3: u64)

  /** What the consumer's surroundings hold when it handles one event: the target's memory,
      and the module that the caller's address falls in. */
  datatype Env = Env(target: Target, caller: string)

  datatype Item = Item(e: Event, env: Env)

  /** A return matched with the frame it was paired with (its rendered text left out). */
  datatype Pair = Pair(call: Frame, tid: u32, depth: int, rc: u64, ts: u64, target: Target)

  datatype Line = Line(json: bool, text: string)

  /** `paired` and `shown` are history: the matched returns so far, and the open frames
      whose "->" line was emitted. Nothing else depends on them. */
  datatype Consumer = Consumer(frames: map<Key, Frame>, caches: Caches, filter: Filter,
                               out: seq<Line>, counts: map<string, nat>,
                               paired: seq<Pair>, shown: set<Key>)

  function Idle(s: Settings): Consumer {
    Consumer(map[], EMPTY, s.start, [], map[], [], {})
  }

  predicate Observed(s: Settings, tid: u32) {
    s.site.tid == 0 || tid == s.site.tid
  }

  function LessonOf(p: Pair): Lesson {
    Lesson(p.call.slot, p.call.a1, p.call.a2, p.call.a3, p.rc, p.target)
  }

  function Core(fr: Frame): Frame {
    fr.(call := "")
  }

  // ----- text of calls

  function SplitNameSig(full: string): (string, string) {
    var i := IndexOf(full, '(');
    if i >= 0 then (full[..i], full[i..]) else (full, "")
  }

  function SplitClassMethod(call: string): (string, string) {
    var i := LastIndexOf(call, '.');
    if i >= 0 then
      var rest := call[i + 1..];
      var j := IndexOf(rest, '(');
      (call[..i], if j >= 0 then rest[..j] else rest)
    else ("", call)
  }

  function Show(s: Settings, c: Caches, t: Target): (string, u64) -> string {
    (typ: string, v: u64) => s.host.value(typ, v, c, t)
  }

  function CalleeClass(e: Event, mid: u64, c: Caches, t: Target): string {
    var direct := ClassNameOfRef(c, t, e.a[1]);
    var cls := if HasPrefix(direct, "0x") && mid in c.idClass then ClassNameOfRef(c, t, c.idClass[mid]) else direct;
    if cls == "" then "?" else cls
  }

  function CallArgs(s: Settings, e: Event, nm: string, sig: string, c: Caches, t: Target): seq<string> {
    var params := Pieces(sig);
    Render(Show(s, c, t), params, DecodedWords(SnapshotKind(nm), e.snap, params))
  }

  /** The text of a call through a method id, and whether the id is known. */
  function DescribeCall(s: Settings, e: Event, nm: string, ix: nat, c: Caches, t: Target): (string, bool)
    requires 2 <= ix <= 3
  {
    var mid := e.a[ix];
    if mid !in c.idName then (nm + " mid=" + Hex(mid) + " (?)", false)
    else
      var (mname, msig) := SplitNameSig(c.idName[mid]);
      (CalleeClass(e, mid, c, t) + "." + mname + "(" + Join(CallArgs(s, e, nm, msig, c, t), ", ") + ")", true)
  }

  function GenericArgs(s: Settings, types: seq<string>, e: Event, i: nat, c: Caches, t: Target): seq<string>
    decreases NARGS - i
  {
    if i >= |types| || i >= NARGS then []
    else
      var text := s.host.arg(types[i], e.a[i], c, t);
      (if text != "" then [text] else []) + GenericArgs(s, types, e, i + 1, c, t)
  }

  function RenderGeneric(s: Settings, e: Event, slot: int, c: Caches, t: Target): string {
    var types := SlotArgs(s.site.schema, slot);
    if |types| == 0 then "a1=" + Hex(e.a[1]) + " a2=" + Hex(e.a[2]) + " a3=" + Hex(e.a[3])
    else Join(GenericArgs(s, types, e, 1, c, t), ", ")
  }

  function GenericText(s: Settings, e: Event, slot: int, c: Caches, t: Target): string {
    SlotName(s.site.schema, slot) + "(" + RenderGeneric(s, e, slot, c, t) + ")"
  }

  function Indent(d: int): string
    decreases d
  {
    if d <= 0 then "" else if d > 24 then Indent(24) else Indent(d - 1) + "  "
  }

  function Tag(s: Settings, it: Item): string {
    if s.view.verbose then "  [caller=" + Hex(it.e.caller) + " " + it.env.caller + "]" else ""
  }

  function Emit(s: Settings, c: Consumer, text: string): Consumer {
    if s.view.count then c.(counts := c.counts[text := (if text in c.counts then c.counts[text] else 0) + 1])
    else c.(out := c.out + [Line(s.view.json, text)])
  }

  // ----- one event

  /** int32(c.maxDepth) when a maximum is set. */
  predicate TooDeep(s: Settings, depth: int) {
    s.view.maxDepth > 0 && depth > Truncate32(s.view.maxDepth)
  }

  function FrameOf(slot: int, it: Item): Frame {
    Frame(slot, it.e.ts, "", it.env.caller, it.e.a[1], it.e.a[2], it.e.a[3])
  }

  predicate Stores(s: Settings, it: Item, slot: int) {
    slot in RetSet(s) && it.e.depth >= 0
  }

  function Store(s: Settings, c: Consumer, it: Item, slot: int): Consumer {
    if !Stores(s, it, slot) then c
    else
      var fr := FrameOf(slot, it);
      var text := if slot in CallSet(s) then "" else GenericText(s, it.e, slot, c.caches, it.env.target);
      var key := KeyOf(it.e.tid, it.e.depth);
      c.(frames := c.frames[key := fr.(call := text)], shown := c.shown - {key})
  }

  function Rename(c: Consumer, key: Key, call: string): Consumer {
    if key in c.frames then c.(frames := c.frames[key := c.frames[key].(call := call)]) else c
  }

  function MarkShown(c: Consumer, key: Key): Consumer {
    if key in c.frames then c.(shown := c.shown + {key}) else c
  }

  function ShowCall(s: Settings, c: Consumer, it: Item, nm: string, ix: nat): Consumer
    requires 2 <= ix <= 3
  {
    var (call, known) := DescribeCall(s, it.e, nm, ix, c.caches, it.env.target);
    var key := KeyOf(it.e.tid, it.e.depth);
    var c1 := Rename(c, key, call);
    var (cls, meth) := SplitClassMethod(call);
    if (known || s.view.verbose) && LineWanted(s.host.rx, c1.filter, cls, meth, call, it.env.caller)
    then Emit(s, MarkShown(c1, key), Indent(it.e.depth) + "-> " + call + Tag(s, it))
    else c1
  }

  function ShowGeneric(s: Settings, c: Consumer, it: Item, slot: int): Consumer {
    var nm := SlotName(s.site.schema, slot);
    var text := GenericText(s, it.e, slot, c.caches, it.env.target);
    if LineWanted(s.host.rx, c.filter, "", nm, text, it.env.caller)
    then Emit(s, MarkShown(c, KeyOf(it.e.tid, it.e.depth)), Indent(it.e.depth) + "-> " + text)
    else c
  }

  function ShowEntry(s: Settings, c: Consumer, it: Item, slot: int): Consumer {
    var nm := SlotName(s.site.schema, slot);
    var ix := CallIndex(nm);
    if !SlotWanted(s.site.schema, c.filter, slot) || TooDeep(s, it.e.depth) then c
    else if ix.Some? then ShowCall(s, c, it, nm, ix.value)
    else ShowGeneric(s, c, it, slot)
  }

  function HandleEntry(s: Settings, c: Consumer, it: Item): Consumer {
    var off := Sub64(it.e.ip, s.site.base);
    if off !in s.site.offsets then c
    else
      var slot := s.site.offsets[off];
      ShowEntry(s, Store(s, c, it, slot), it, slot)
  }

  function PairOf(fr: Frame, it: Item): Pair {
    Pair(Core(fr), it.e.tid, it.e.depth, it.e.rc, it.e.ts, it.env.target)
  }

  function TakeFrame(s: Settings, c: Consumer, key: Key, it: Item): Consumer
    requires key in c.frames
  {
    var p := PairOf(c.frames[key], it);
    c.(frames := c.frames - {key}, shown := c.shown - {key}, paired := c.paired + [p],
       caches := Learn(s.site.schema, c.caches, LessonOf(p)))
  }

  function ReturnText(s: Settings, c: Caches, fr: Frame, it: Item): string {
    s.host.ret(SlotRet(s.site.schema, fr.slot), it.e.rc, c, it.env.target)
  }

  function ReturnLine(s: Settings, c: Caches, fr: Frame, it: Item): string {
    Indent(it.e.depth) + "<- " + fr.call + " = " + ReturnText(s, c, fr, it)
    + "  (" + s.host.millis(Sub64(it.e.ts, fr.ts)) + " ms)"
  }

  /** Whether the return of frame `fr` is printed. */
  predicate ReturnWanted(s: Settings, f: Filter, c: Caches, fr: Frame, it: Item) {
    var (cls, meth) := SplitClassMethod(fr.call);
    && SlotWanted(s.site.schema, f, fr.slot) && fr.call != ""
    && !TooDeep(s, it.e.depth)
    && LineWanted(s.host.rx, f, cls, meth, fr.call + ReturnText(s, c, fr, it), fr.caller)
  }

  function HandleReturn(s: Settings, c: Consumer, it: Item): Consumer {
    var key := KeyOf(it.e.tid, it.e.depth);
    if it.e.depth < 0 || key !in c.frames then c
    else
      var fr, c1 := c.frames[key], TakeFrame(s, c, key, it);
      if ReturnWanted(s, c1.filter, c1.caches, fr, it) then Emit(s, c1, ReturnLine(s, c1.caches, fr, it)) else c1
  }

  /** One turn of the event loop. */
  function Receive(s: Settings, c: Consumer, it: Item): Consumer {
    if !Observed(s, it.e.tid) then c
    else if it.e.kind.Return? then HandleReturn(s, c, it)
    else HandleEntry(s, c, it)
  }

  function ReceiveAll(s: Settings, c: Consumer, items: seq<Item>): Consumer {
    if items == [] then c
    else Receive(s, ReceiveAll(s, c, items[..|items| - 1]), items[|items| - 1])
  }

  // ----- the consumer as a program

  class Tracer {
    const s: Settings
    const filters: Filters
    const callSet: set<int>
    const retSet: set<int>
    var frames: map<Key, Frame>
    var caches: Caches
    var out: seq<Line>
    var counts: map<string, nat>
    ghost var paired: seq<Pair>
    ghost var shown: set<Key>

    ghost predicate Valid() {
      callSet == CallSet(s) && retSet == RetSet(s)
    }

    ghost function State(): Consumer
      reads this, filters
    {
      Consumer(frames, caches, filters.Value(), out, counts, paired, shown)
    }

    constructor (s: Settings, filters: Filters, callSet: set<int>, retSet: set<int>)
      requires filters.Value() == s.start && callSet == CallSet(s) && retSet == RetSet(s)
      ensures Valid() && this.s == s && this.filters == filters && State() == Idle(s)
    {
      this.s, this.filters, this.callSet, this.retSet := s, filters, callSet, retSet;
      frames, caches, out, counts := map[], EMPTY, [], map[];
      paired, shown := [], {};
    }

    /** The event loop, over the records that arrive. */
    method EventLoop(records: seq<Item>)
      requires Valid()
      modifies this
      ensures State() == ReceiveAll(s, old(State()), records)
    {
      for i := 0 to |records|
        invariant State() == ReceiveAll(s, old(State()), records[..i])
      {
        assert records[..i + 1][..i] == records[..i];
        HandleEvent(records[i]);
      }
      assert records[..|records|] == records;
    }

    method EmitLine(text: string)
      modifies `out, `counts
      ensures State() == Emit(s, old(State()), text)
    {
      if s.view.count {
        counts := counts[text := (if text in counts then counts[text] else 0) + 1];
        return;
      }
      out := out + [Line(s.view.json, text)];
    }

    method HandleEvent(it: Item)
      requires Valid()
      modifies this
      ensures State() == Receive(s, old(State()), it)
    {
      if s.site.tid != 0 && it.e.tid != s.site.tid {
        return;
      }
      if it.e.kind.Return? {
        OnReturn(it);
        return;
      }
      OnEntry(it);
    }

    method OnEntry(it: Item)
      requires Valid()
      modifies this
      ensures State() == HandleEntry(s, old(State()), it)
    {
      var off := Sub64(it.e.ip, s.site.base);
      if off !in s.site.offsets {
        return;
      }
      var slot := s.site.offsets[off];
      StoreFrame(it, slot);
      PrintEntry(it, slot);
    }

    method StoreFrame(it: Item, slot: int)
      requires Valid()
      modifies `frames, `shown
      ensures State() == Store(s, old(State()), it, slot)
    {
      if slot in retSet && it.e.depth >= 0 {
        var fr := FrameOf(slot, it);
        if slot !in callSet {
          fr := fr.(call := GenericText(s, it.e, slot, caches, it.env.target));
        }
        var key := KeyOf(it.e.tid, it.e.depth);
        frames := frames[key := fr];
        shown := shown - {key};
      }
    }

    method PrintEntry(it: Item, slot: int)
      modifies this
      ensures State() == ShowEntry(s, old(State()), it, slot)
    {
      var nm := SlotName(s.site.schema, slot);
      var wanted := filters.MatchSlot(s.site.schema, slot);
      if !wanted || (s.view.maxDepth > 0 && it.e.depth > Truncate32(s.view.maxDepth)) {
        return;
      }
      var ix := CallIndex(nm);
      if ix.Some? {
        PrintCall(it, nm, ix.value);
        return;
      }
      var text := GenericText(s, it.e, slot, caches, it.env.target);
      var keep := filters.MatchLine(s.host.rx, "", nm, text, it.env.caller);
      if keep {
        shown := if KeyOf(it.e.tid, it.e.depth) in frames then shown + {KeyOf(it.e.tid, it.e.depth)} else shown;
        EmitLine(Indent(it.e.depth) + "-> " + text);
      }
    }

    method PrintCall(it: Item, nm: string, ix: nat)
      requires 2 <= ix <= 3
      modifies this
      ensures State() == ShowCall(s, old(State()), it, nm, ix)
    {
      var call, known := Describe(it, nm, ix);
      var key := KeyOf(it.e.tid, it.e.depth);
      if key in frames {
        frames := frames[key := frames[key].(call := call)];
      }
      var (cls, meth) := SplitClassMethod(call);
      if known || s.view.verbose {
        var keep := filters.MatchLine(s.host.rx, cls, meth, call, it.env.caller);
        if keep {
          shown := if key in frames then shown + {key} else shown;
          EmitLine(Indent(it.e.depth) + "-> " + call + Tag(s, it));
        }
      }
    }

    method Describe(it: Item, nm: string, ix: nat) returns (call: string, known: bool)
      requires 2 <= ix <= 3
      ensures (call, known) == DescribeCall(s, it.e, nm, ix, caches, it.env.target)
    {
      var mid := it.e.a[ix];
      if mid !in caches.idName {
        return nm + " mid=" + Hex(mid) + " (?)", false;
      }
      var (mname, msig) := SplitNameSig(caches.idName[mid]);
      var cls := CalleeClass(it.e, mid, caches, it.env.target);
      var params := ParseParams(msig);
      var show := Show(s, caches, it.env.target);
      var args;
      if HasSuffix(nm, "A") {
        args := DecodeA(it.e.snap, params, show);
      } else if HasSuffix(nm, "V") {
        args := DecodeV(it.e.snap, params, show);
      } else {
        args := DecodeDirect(it.e.snap, params, show);
      }
      return cls + "." + mname + "(" + Join(args, ", ") + ")", true;
    }

    /** The switch of the return handler: what a completed call of this slot teaches. */
    method FeedCaches(fr: Frame, it: Item)
      modifies `caches
      ensures caches == Learn(s.site.schema, old(caches), LessonOf(PairOf(fr, it)))
    {
      var t, rc := it.env.target, it.e.rc;
      if !t.attached || rc == 0 {
        return;
      }
      match RoleOf(SlotName(s.site.schema, fr.slot)) {
        case GetsId =>
          var nm, sg := CStr(t, fr.a2), CStr(t, fr.a3);
          if ValidName(nm) && ValidSig(sg) {
            caches := caches.(idName := caches.idName[rc := nm + sg]);
          }
          caches := caches.(idClass := caches.idClass[rc := fr.a1]);
        case FindsClass =>
          var nm := CStr(t, fr.a1);
          if ValidName(nm) {
            caches := caches.(classNames := caches.classNames[rc := Dotted(nm)]);
            var obj := ResolveObj(t, rc);
            if obj != 0 {
              caches := caches.(nameByClass := caches.nameByClass[obj := Dotted(nm)]);
            }
          }
        case GetsClass =>
          caches := LearnObject(caches, ResolveObj(t, fr.a1), ResolveObj(t, rc));
        case MakesObject =>
          caches := LearnObject(caches, ResolveObj(t, rc), ResolveObj(t, fr.a1));
        case GetsChars =>
          caches := caches.(jstr := caches.jstr[fr.a1 := CStr(t, rc)]);
        case MakesString =>
          caches := caches.(jstr := caches.jstr[rc := CStr(t, fr.a1)]);
        case Plain =>
      }
    }

    method OnReturn(it: Item)
      modifies this
      ensures State() == HandleReturn(s, old(State()), it)
    {
      if it.e.depth < 0 {
        return;
      }
      var key := KeyOf(it.e.tid, it.e.depth);
      if key !in frames {
        return;
      }
      var fr := frames[key];
      frames := frames - {key};
      shown := shown - {key};
      var p := PairOf(fr, it);
      paired := paired + [p];
      FeedCaches(fr, it);
      var wanted := filters.MatchSlot(s.site.schema, fr.slot);
      if wanted && fr.call != "" {
        if s.view.maxDepth > 0 && it.e.depth > Truncate32(s.view.maxDepth) {
          return;
        }
        var ret := ReturnText(s, caches, fr, it);
        var (cls, meth) := SplitClassMethod(fr.call);
        var keep := filters.MatchLine(s.host.rx, cls, meth, fr.call + ret, fr.caller);
        if keep {
          EmitLine(ReturnLine(s, caches, fr, it));
        }
      }
    }
  }
}
