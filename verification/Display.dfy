/** Main results about what is printed: exactly when an entry line appears, exactly when the
    return line of a shown call appears, and exactly how the two can part. */
module Display {
  import opened Words
  import opened Text
  import opened Schema
  import opened Filtering
  import opened Kernel
  import opened Learning
  import opened Tracing
  import opened Protocol

  // ----- the guards

  /** The class and method expressions accept what splitting the call's text yields. */
  predicate SplitAccepted(s: Settings, f: Filter, call: string) {
    var (cls, meth) := SplitClassMethod(call);
    Accepts(s.host.rx, f, cls, meth)
  }

  /** What the expressions are asked about at the entry: the split text of a call slot, but
      the slot's own name for any other. */
  predicate EntryAccepted(s: Settings, f: Filter, slot: int, call: string) {
    if IsCall(s, slot) then SplitAccepted(s, f, call)
    else Accepts(s.host.rx, f, "", SlotName(s.site.schema, slot))
  }

  /** Slot and depth, which entry and return are tested for alike. */
  predicate InView(s: Settings, f: Filter, slot: int, depth: int) {
    SlotWanted(s.site.schema, f, slot) && !TooDeep(s, depth)
  }

  /** Everything the entry line is tested for. */
  predicate Passes(s: Settings, f: Filter, slot: int, call: string, caller: string, depth: int) {
    InView(s, f, slot, depth) && GrepHit(f, call) && EntryAccepted(s, f, slot, call) && FromHit(f, caller)
  }

  /** The method id of a call slot's event has a cached name; other slots need none. */
  predicate Known(s: Settings, c: Consumer, it: Item, slot: int) {
    var ix := CallIndex(SlotName(s.site.schema, slot));
    ix.Some? ==> it.e.a[ix.value] in c.caches.idName
  }

  function EntryText(s: Settings, c: Consumer, it: Item, slot: int): (text: string)
    ensures text != ""
  {
    var nm := SlotName(s.site.schema, slot);
    var ix := CallIndex(nm);
    if ix.Some? then
      TextNotEmpty(s, it.e, nm, ix.value, c.caches, it.env.target);
      DescribeCall(s, it.e, nm, ix.value, c.caches, it.env.target).0
    else GenericText(s, it.e, slot, c.caches, it.env.target)
  }

  lemma TextNotEmpty(s: Settings, e: Event, nm: string, ix: nat, c: Caches, t: Target)
    requires 2 <= ix <= 3
    ensures DescribeCall(s, e, nm, ix, c, t).0 != ""
    ensures DescribeCall(s, e, nm, ix, c, t).1 <==> e.a[ix] in c.idName
  {}

  predicate EntryWanted(s: Settings, c: Consumer, it: Item, slot: int) {
    && Passes(s, c.filter, slot, EntryText(s, c, it, slot), it.env.caller, it.e.depth)
    && (Known(s, c, it, slot) || s.view.verbose)
  }

  predicate Printed(before: Consumer, after: Consumer) {
    after.out != before.out || after.counts != before.counts
  }

  lemma EmitPrints(s: Settings, c: Consumer, text: string)
    ensures Printed(c, Emit(s, c, text))
  {
    if s.view.count {
      assert Emit(s, c, text).counts[text] != if text in c.counts then c.counts[text] else 0;
    } else {
      assert |Emit(s, c, text).out| != |c.out|;
    }
  }

  // ----- one entry

  predicate EntryOf(s: Settings, it: Item, slot: int) {
    var off := Sub64(it.e.ip, s.site.base);
    Observed(s, it.e.tid) && it.e.kind.Entry? && off in s.site.offsets && slot == s.site.offsets[off]
  }

  /** The frame an entry leaves behind: a call slot out of view stays without a text. */
  function FrameLeft(s: Settings, c: Consumer, it: Item, slot: int): Frame {
    var call := if IsCall(s, slot) && !InView(s, c.filter, slot, it.e.depth) then "" else EntryText(s, c, it, slot);
    FrameOf(slot, it).(call := call)
  }

  lemma EmitKeeps(s: Settings, c: Consumer, text: string)
    ensures var c2 := Emit(s, c, text);
            c2.frames == c.frames && c2.shown == c.shown && c2.filter == c.filter && c2.caches == c.caches
  {}

  lemma StoredCall(s: Settings, c: Consumer, it: Item, slot: int)
    requires EntryOf(s, it, slot) && Stores(s, it, slot) && IsCall(s, slot) && InView(s, c.filter, slot, it.e.depth)
    ensures var c2, key := Receive(s, c, it), KeyOf(it.e.tid, it.e.depth);
            && c2.frames == c.frames[key := FrameLeft(s, c, it, slot)]
            && c2.shown == c.shown - {key} + (if EntryWanted(s, c, it, slot) then {key} else {})
            && (Printed(c, c2) <==> EntryWanted(s, c, it, slot))
  {
    var key, nm := KeyOf(it.e.tid, it.e.depth), SlotName(s.site.schema, slot);
    var c1, text := Store(s, c, it, slot), EntryText(s, c, it, slot);
    var ix := CallIndex(nm).value;
    TextNotEmpty(s, it.e, nm, ix, c.caches, it.env.target);
    var c3 := Rename(c1, key, text);
    assert c3.frames == c.frames[key := FrameLeft(s, c, it, slot)];
    var line := Indent(it.e.depth) + "-> " + text + Tag(s, it);
    EmitPrints(s, MarkShown(c3, key), line);
    EmitKeeps(s, MarkShown(c3, key), line);
  }

  lemma StoredPlain(s: Settings, c: Consumer, it: Item, slot: int)
    requires EntryOf(s, it, slot) && Stores(s, it, slot) && !IsCall(s, slot) && InView(s, c.filter, slot, it.e.depth)
    ensures var c2, key := Receive(s, c, it), KeyOf(it.e.tid, it.e.depth);
            && c2.frames == c.frames[key := FrameLeft(s, c, it, slot)]
            && c2.shown == c.shown - {key} + (if EntryWanted(s, c, it, slot) then {key} else {})
            && (Printed(c, c2) <==> EntryWanted(s, c, it, slot))
  {
    var key, c1 := KeyOf(it.e.tid, it.e.depth), Store(s, c, it, slot);
    var line := Indent(it.e.depth) + "-> " + EntryText(s, c, it, slot);
    EmitPrints(s, MarkShown(c1, key), line);
    EmitKeeps(s, MarkShown(c1, key), line);
  }

  /** What the entry of a tracked call does, completely: the frame it leaves, and that it
      prints a line, and marks the frame, exactly when `EntryWanted` says so. */
  lemma StoredEntry(s: Settings, c: Consumer, it: Item, slot: int)
    requires EntryOf(s, it, slot) && Stores(s, it, slot)
    ensures var c2, key := Receive(s, c, it), KeyOf(it.e.tid, it.e.depth);
            && c2.frames == c.frames[key := FrameLeft(s, c, it, slot)]
            && c2.shown == c.shown - {key} + (if EntryWanted(s, c, it, slot) then {key} else {})
            && (Printed(c, c2) <==> EntryWanted(s, c, it, slot))
  {
    if InView(s, c.filter, slot, it.e.depth) {
      if IsCall(s, slot) {
        StoredCall(s, c, it, slot);
      } else {
        StoredPlain(s, c, it, slot);
      }
    } else {
      RetSetIff(s, Sub64(it.e.ip, s.site.base));
    }
  }

  // ----- the lines, letter by letter

  function Blanks(n: nat): string {
    seq(n, _ => ' ')
  }

  /** Two blanks for every level, up to 24 levels. */
  function Margin(depth: int): string {
    Blanks(if depth <= 0 then 0 else if depth < 24 then 2 * depth else 48)
  }

  lemma {:induction false} IndentIsMargin(d: int)
    ensures Indent(d) == Margin(d)
    decreases d
  {
    if d > 24 {
      IndentIsMargin(24);
    } else if d > 0 {
      IndentIsMargin(d - 1);
      assert Margin(d) == Margin(d - 1) + "  ";
    }
  }

  /** The texts that are there, in order. */
  function NonEmpty(parts: seq<string>): seq<string> {
    if parts == [] then []
    else (if parts[0] != "" then [parts[0]] else []) + NonEmpty(parts[1..])
  }

  /** The arguments behind the environment pointer, up to the fifth register, by their types. */
  function ArgTexts(s: Settings, types: seq<string>, e: Event, i: nat, c: Caches, t: Target): seq<string>
    requires i <= 5
  {
    var end := if |types| < 5 then |types| else 5;
    seq(if i < end then end - i else 0, k requires 0 <= k < (if i < end then end - i else 0) =>
      s.host.arg(types[i + k], e.a[i + k], c, t))
  }

  lemma {:induction false} GenericArgsAre(s: Settings, types: seq<string>, e: Event, i: nat, c: Caches, t: Target)
    requires i <= 5
    ensures GenericArgs(s, types, e, i, c, t) == NonEmpty(ArgTexts(s, types, e, i, c, t))
    decreases 5 - i
  {
    if i < |types| && i < 5 {
      var all := ArgTexts(s, types, e, i, c, t);
      GenericArgsAre(s, types, e, i + 1, c, t);
      assert all[1..] == ArgTexts(s, types, e, i + 1, c, t) && all[0] == s.host.arg(types[i], e.a[i], c, t);
    }
  }

  /** A plain slot prints its name and, in parentheses, those arguments that have a text; with
      no types in the schema, its first three registers. */
  lemma PlainTextIs(s: Settings, c: Consumer, it: Item, slot: int)
    requires !IsCall(s, slot)
    ensures var nm, types := SlotName(s.site.schema, slot), SlotArgs(s.site.schema, slot);
            EntryText(s, c, it, slot)
            == nm + "(" + (if types == [] then "a1=" + Hex(it.e.a[1]) + " a2=" + Hex(it.e.a[2]) + " a3=" + Hex(it.e.a[3])
                           else Join(NonEmpty(ArgTexts(s, types, it.e, 1, c.caches, it.env.target)), ", ")) + ")"
  {
    GenericArgsAre(s, SlotArgs(s.site.schema, slot), it.e, 1, c.caches, it.env.target);
  }

  /** The depth limit is a plain one below 2^31; from there to 2^32 it is taken as a negative
      number, and hides every tracked call. */
  lemma DepthLimit(s: Settings, depth: int)
    ensures s.view.maxDepth <= 0 ==> !TooDeep(s, depth)
    ensures 0 < s.view.maxDepth < 0x8000_0000 ==> (TooDeep(s, depth) <==> depth > s.view.maxDepth)
    ensures 0x8000_0000 <= s.view.maxDepth < 0x1_0000_0000 && depth >= 0 ==> TooDeep(s, depth)
  {
    var limit := s.view.maxDepth;
    if 0 < limit < 0x1_0000_0000 {
      TruncateIs(limit, if limit < 0x8000_0000 then limit else limit - 0x1_0000_0000);
    }
  }

  /** One line `text` more is printed, or counted once more. */
  predicate Says(s: Settings, c: Consumer, c2: Consumer, text: string) {
    if s.view.count then c2.out == c.out && c2.counts == c.counts[text := 1 + if text in c.counts then c.counts[text] else 0]
    else c2.counts == c.counts && c2.out == c.out + [Line(s.view.json, text)]
  }

  /** The line of an entry: with --verbose a call slot adds the caller's address and module. */
  function EntryLine(s: Settings, it: Item, slot: int, text: string): string {
    Margin(it.e.depth) + "-> " + text
    + if IsCall(s, slot) && s.view.verbose then "  [caller=" + Hex(it.e.caller) + " " + it.env.caller + "]" else ""
  }

  lemma EmitSays(s: Settings, c: Consumer, text: string)
    ensures Says(s, c, Emit(s, c, text), text)
  {}

  lemma EntryLineIs(s: Settings, it: Item, slot: int, text: string)
    ensures EntryLine(s, it, slot, text)
         == if IsCall(s, slot) then Indent(it.e.depth) + "-> " + text + Tag(s, it) else Indent(it.e.depth) + "-> " + text
  {
    IndentIsMargin(it.e.depth);
  }

  lemma ShowCallIs(s: Settings, c: Consumer, it: Item, slot: int)
    requires IsCall(s, slot) && InView(s, c.filter, slot, it.e.depth)
    ensures var nm, key, text := SlotName(s.site.schema, slot), KeyOf(it.e.tid, it.e.depth), EntryText(s, c, it, slot);
            var c1 := Rename(c, key, text);
            ShowCall(s, c, it, nm, CallIndex(nm).value)
            == if EntryWanted(s, c, it, slot) then Emit(s, MarkShown(c1, key), Indent(it.e.depth) + "-> " + text + Tag(s, it))
               else c1
  {
    var nm := SlotName(s.site.schema, slot);
    TextNotEmpty(s, it.e, nm, CallIndex(nm).value, c.caches, it.env.target);
  }

  lemma ShowGenericIs(s: Settings, c: Consumer, it: Item, slot: int)
    requires !IsCall(s, slot) && InView(s, c.filter, slot, it.e.depth)
    ensures var key, text := KeyOf(it.e.tid, it.e.depth), EntryText(s, c, it, slot);
            ShowGeneric(s, c, it, slot)
            == if EntryWanted(s, c, it, slot) then Emit(s, MarkShown(c, key), Indent(it.e.depth) + "-> " + text) else c
  {}

  lemma MarkPrintsNothing(c: Consumer, key: Key, call: string)
    ensures var c1 := Rename(c, key, call);
            && c1.out == c.out && c1.counts == c.counts
            && MarkShown(c1, key).out == c.out && MarkShown(c1, key).counts == c.counts
    ensures MarkShown(c, key).out == c.out && MarkShown(c, key).counts == c.counts
  {}

  /** `c2` differs from `c` by at most the marks and the line of the entry. */
  lemma MarkedSays(s: Settings, c: Consumer, c1: Consumer, c2: Consumer, it: Item, slot: int, text: string)
    requires c1.out == c.out && c1.counts == c.counts
    requires c2 == Emit(s, c1, if IsCall(s, slot) then Indent(it.e.depth) + "-> " + text + Tag(s, it)
                               else Indent(it.e.depth) + "-> " + text)
    ensures Says(s, c, c2, EntryLine(s, it, slot, text))
  {
    EntryLineIs(s, it, slot, text);
    EmitSays(s, c1, EntryLine(s, it, slot, text));
  }

  lemma ShowEntrySays(s: Settings, c: Consumer, it: Item, slot: int)
    ensures EntrySaid(s, c, ShowEntry(s, c, it, slot), it, slot, EntryText(s, c, it, slot), EntryWanted(s, c, it, slot))
  {
    var c2, key, text := ShowEntry(s, c, it, slot), KeyOf(it.e.tid, it.e.depth), EntryText(s, c, it, slot);
    MarkPrintsNothing(c, key, text);
    if InView(s, c.filter, slot, it.e.depth) {
      if IsCall(s, slot) {
        ShowCallIs(s, c, it, slot);
        if EntryWanted(s, c, it, slot) {
          MarkedSays(s, c, MarkShown(Rename(c, key, text), key), c2, it, slot, text);
        }
      } else {
        ShowGenericIs(s, c, it, slot);
        if EntryWanted(s, c, it, slot) {
          MarkedSays(s, c, MarkShown(c, key), c2, it, slot, text);
        }
      }
    }
  }

  /** The step from `c` to `c2` prints the entry line with `text` if wanted, else nothing. */
  predicate EntrySaid(s: Settings, c: Consumer, c2: Consumer, it: Item, slot: int, text: string, wanted: bool) {
    if wanted then Says(s, c, c2, EntryLine(s, it, slot, text)) else !Printed(c, c2)
  }

  lemma SaidAlike(s: Settings, c: Consumer, c1: Consumer, c2: Consumer, it: Item, slot: int, text: string, wanted: bool)
    requires c1.out == c.out && c1.counts == c.counts && EntrySaid(s, c1, c2, it, slot, text, wanted)
    ensures EntrySaid(s, c, c2, it, slot, text, wanted)
  {}

  lemma StorePrintsNothing(s: Settings, c: Consumer, it: Item, slot: int)
    ensures var c1 := Store(s, c, it, slot);
            c1.caches == c.caches && c1.filter == c.filter && c1.out == c.out && c1.counts == c.counts
  {}

  /** What an entry prints, letter by letter, tracked or not. */
  lemma EntrySays(s: Settings, c: Consumer, it: Item, slot: int)
    requires EntryOf(s, it, slot)
    ensures EntrySaid(s, c, Receive(s, c, it), it, slot, EntryText(s, c, it, slot), EntryWanted(s, c, it, slot))
  {
    var c1 := Store(s, c, it, slot);
    StorePrintsNothing(s, c, it, slot);
    SameText(s, c, c1, it, slot);
    ShowEntrySays(s, c1, it, slot);
    assert Receive(s, c, it) == ShowEntry(s, c1, it, slot);
    SaidAlike(s, c, c1, Receive(s, c, it), it, slot, EntryText(s, c, it, slot), EntryWanted(s, c, it, slot));
  }

  lemma SameText(s: Settings, c: Consumer, c1: Consumer, it: Item, slot: int)
    requires c1.caches == c.caches && c1.filter == c.filter
    ensures EntryText(s, c1, it, slot) == EntryText(s, c, it, slot)
    ensures EntryWanted(s, c1, it, slot) <==> EntryWanted(s, c, it, slot)
  {}

  /** The history mark means what it says: after the entry of a tracked call its frame is
      marked if and only if the entry printed a line. */
  lemma MarkedIffPrinted(s: Settings, c: Consumer, it: Item, slot: int)
    requires EntryOf(s, it, slot) && Stores(s, it, slot)
    ensures KeyOf(it.e.tid, it.e.depth) in Receive(s, c, it).shown <==> Printed(c, Receive(s, c, it))
  {
    StoredEntry(s, c, it, slot);
  }

  lemma ShowsNothingOpen(s: Settings, c: Consumer, it: Item)
    requires Observed(s, it.e.tid) && it.e.kind.Entry? && KeyOf(it.e.tid, it.e.depth) !in c.frames
    requires var off := Sub64(it.e.ip, s.site.base);
             off in s.site.offsets ==> !Stores(s, it, s.site.offsets[off])
    ensures Receive(s, c, it).frames == c.frames && Receive(s, c, it).shown == c.shown
  {
    var off := Sub64(it.e.ip, s.site.base);
    if off in s.site.offsets {
      ShowsNoFrame(s, c, it, s.site.offsets[off]);
    }
  }

  lemma ShowsNoFrame(s: Settings, c: Consumer, it: Item, slot: int)
    requires KeyOf(it.e.tid, it.e.depth) !in c.frames
    ensures ShowEntry(s, c, it, slot).frames == c.frames && ShowEntry(s, c, it, slot).shown == c.shown
  {}

  // ----- one return

  lemma ValueKeepsGrep(f: Filter, call: string, value: string)
    requires GrepHit(f, call)
    ensures GrepHit(f, call + value)
  {
    if f.grep != "" {
      ContainsMonotone(call, value, f.grep);
    }
  }

  /** `ret` is a return of the frame open at its thread and depth. */
  predicate ReturnOf(s: Settings, c: Consumer, ret: Item) {
    && Observed(s, ret.e.tid) && ret.e.kind.Return? && ret.e.depth >= 0
    && KeyOf(ret.e.tid, ret.e.depth) in c.frames
  }

  /** The consumer after it took the frame, before it prints. */
  function Taken(s: Settings, c: Consumer, ret: Item): Consumer
    requires ReturnOf(s, c, ret)
  {
    TakeFrame(s, c, KeyOf(ret.e.tid, ret.e.depth), ret)
  }

  function ReturnValue(s: Settings, c: Consumer, ret: Item): string
    requires ReturnOf(s, c, ret)
  {
    ReturnText(s, Taken(s, c, ret).caches, c.frames[KeyOf(ret.e.tid, ret.e.depth)], ret)
  }

  /** `Taken` and the one line "<-" of the frame. */
  function Answered(s: Settings, c: Consumer, ret: Item): Consumer
    requires ReturnOf(s, c, ret)
  {
    var taken := Taken(s, c, ret);
    Emit(s, taken, ReturnLine(s, taken.caches, c.frames[KeyOf(ret.e.tid, ret.e.depth)], ret))
  }

  /** What a return prints, completely: its own line or nothing. */
  lemma ReturnOutcome(s: Settings, c: Consumer, ret: Item)
    requires ReturnOf(s, c, ret)
    ensures var fr := c.frames[KeyOf(ret.e.tid, ret.e.depth)];
            var wanted := && fr.call != "" && InView(s, c.filter, fr.slot, ret.e.depth) && FromHit(c.filter, fr.caller)
                          && GrepHit(c.filter, fr.call + ReturnValue(s, c, ret)) && SplitAccepted(s, c.filter, fr.call);
            && Receive(s, c, ret) == (if wanted then Answered(s, c, ret) else Taken(s, c, ret))
            && (Printed(c, Receive(s, c, ret)) <==> wanted)
  {
    var taken := Taken(s, c, ret);
    EmitPrints(s, taken, ReturnLine(s, taken.caches, c.frames[KeyOf(ret.e.tid, ret.e.depth)], ret));
  }

  /** The line of a return, `nanos` after its entry. */
  function AnswerLine(s: Settings, depth: int, call: string, value: string, nanos: u64): string {
    Margin(depth) + "<- " + call + " = " + value + "  (" + s.host.millis(nanos) + " ms)"
  }

  /** What a printed return says, letter by letter: the text its entry left, the value by the
      slot's return type and with what the call itself taught, and the time since the entry. */
  lemma AnswerSays(s: Settings, c: Consumer, ret: Item, slot: int, entry: u64, call: string)
    requires ReturnOf(s, c, ret) && entry <= ret.e.ts
    requires var fr := c.frames[KeyOf(ret.e.tid, ret.e.depth)]; fr.slot == slot && fr.ts == entry && fr.call == call
    ensures var c2 := Receive(s, c, ret);
            var value := s.host.ret(SlotRet(s.site.schema, slot), ret.e.rc, c2.caches, ret.env.target);
            Printed(c, c2) ==> Says(s, c, c2, AnswerLine(s, ret.e.depth, call, value, ret.e.ts - entry))
  {
    var taken := Taken(s, c, ret);
    var line := ReturnLine(s, taken.caches, c.frames[KeyOf(ret.e.tid, ret.e.depth)], ret);
    ReturnOutcome(s, c, ret);
    IndentIsMargin(ret.e.depth);
    EmitSays(s, taken, line);
    EmitKeeps(s, taken, line);
    assert Sub64(ret.e.ts, entry) == ret.e.ts - entry;
  }

  // ----- shown calls, in every run without commands

  /** Open frames sit at real depths; those whose entry was shown pass its tests still. */
  predicate ShownStillPass(s: Settings, c: Consumer) {
    && (forall key | key in c.frames :: key.1 >= 0)
    && (forall key | key in c.shown :: key in c.frames && FramePasses(s, c.filter, c.frames[key], key.1))
  }

  predicate FramePasses(s: Settings, f: Filter, fr: Frame, depth: int) {
    fr.call != "" && Passes(s, f, fr.slot, fr.call, fr.caller, depth)
  }

  /** Only tracked slots carry a depth. */
  predicate StampedRight(s: Settings, it: Item) {
    var off := Sub64(it.e.ip, s.site.base);
    it.e.kind.Entry? && off in s.site.offsets && it.e.depth >= 0 ==> s.site.offsets[off] in RetSet(s)
  }

  lemma EntryPasses(s: Settings, c: Consumer, it: Item)
    requires ShownStillPass(s, c) && Observed(s, it.e.tid) && it.e.kind.Entry? && StampedRight(s, it)
    ensures ShownStillPass(s, Receive(s, c, it))
  {
    var off := Sub64(it.e.ip, s.site.base);
    var c2 := Receive(s, c, it);
    ReceiveFeeds(s, c, it);
    if off in s.site.offsets && Stores(s, it, s.site.offsets[off]) {
      var slot := s.site.offsets[off];
      StoredEntry(s, c, it, slot);
      assert EntryWanted(s, c, it, slot) ==> FramePasses(s, c.filter, FrameLeft(s, c, it, slot), it.e.depth);
    } else if it.e.depth < 0 || off !in s.site.offsets {
      ShowsNothing(s, c, it);
    }
  }

  lemma ShowsNothing(s: Settings, c: Consumer, it: Item)
    requires ShownStillPass(s, c) && Observed(s, it.e.tid) && it.e.kind.Entry?
    requires it.e.depth < 0 || Sub64(it.e.ip, s.site.base) !in s.site.offsets
    ensures Receive(s, c, it).frames == c.frames && Receive(s, c, it).shown == c.shown
  {
    if it.e.depth < 0 {
      ShowsNothingOpen(s, c, it);
    }
  }

  lemma ReturnPasses(s: Settings, c: Consumer, it: Item)
    requires ShownStillPass(s, c) && Observed(s, it.e.tid) && it.e.kind.Return?
    ensures ShownStillPass(s, Receive(s, c, it))
  {
    var key := KeyOf(it.e.tid, it.e.depth);
    if it.e.depth >= 0 && key in c.frames {
      var c1 := TakeFrame(s, c, key, it);
      EmitKeeps(s, c1, ReturnLine(s, c1.caches, c.frames[key], it));
      assert ShownStillPass(s, c1);
    }
  }

  lemma RecordEntryStamps(s: Settings, tb: Tables, y: System, call: Call, snap: Snapshots.Snapshot, env: Env)
    requires tb.base == s.site.base && (IsTracked(tb, call) <==> Tracked(s, Activation(call, env)))
    ensures StampedRight(s, Item(EntryEvent(tb, y.depth, call, snap), env))
  {}

  lemma ProbeStamps(s: Settings, y: System, m: Move, res: Reservation)
    requires forall it | it in y.ring :: StampedRight(s, it)
    ensures forall it | it in ProbeStep(s, y, m, res).ring :: StampedRight(s, it)
    ensures ProbeStep(s, y, m, res).tracer == y.tracer
  {
    if m.Enter? && res.Granted? {
      var tb := KernelTables(s);
      TrackedIffProbe(s, m.call, m.env);
      RecordEntryStamps(s, tb, y, m.call, SnapshotFor(tb, m.call, m.mem, res.stale), m.env);
    }
  }

  /** In every run without commands, under any loss: an open frame whose entry was shown
      passes the entry's tests ever after. */
  lemma {:induction false} RunKeepsShown(s: Settings, acts: seq<Action>)
    requires NoCommands(acts)
    ensures ShownStillPass(s, Run(s, acts).tracer)
    ensures forall it | it in Run(s, acts).ring :: StampedRight(s, it)
    decreases |acts|
  {
    if acts != [] {
      var y, a := Run(s, Front(acts)), Last(acts);
      assert NoCommands(Front(acts)) && a in acts;
      RunKeepsShown(s, Front(acts));
      if a.Poll? && y.ring != [] {
        var it := y.ring[0];
        if Observed(s, it.e.tid) {
          if it.e.kind.Return? {
            ReturnPasses(s, y.tracer, it);
          } else {
            EntryPasses(s, y.tracer, it);
          }
        }
      } else if a.Act? {
        ProbeStamps(s, y, a.move, a.res);
      }
    }
  }

  /** In every reachable state without commands, for every slot: the return of a frame whose
      "->" line was shown prints exactly one line, the "<-" line of that frame at the same
      depth, if and only if the class and method expressions accept the split of its text. */
  lemma ShownReturnIff(s: Settings, acts: seq<Action>, ret: Item)
    requires NoCommands(acts) && Observed(s, ret.e.tid) && ret.e.kind.Return?
    requires KeyOf(ret.e.tid, ret.e.depth) in Run(s, acts).tracer.shown
    ensures var c := Run(s, acts).tracer;
            && ReturnOf(s, c, ret)
            && Receive(s, c, ret) == if SplitAccepted(s, c.filter, c.frames[KeyOf(ret.e.tid, ret.e.depth)].call)
                                     then Answered(s, c, ret) else Taken(s, c, ret)
  {
    RunKeepsShown(s, acts);
    PassedReturn(s, Run(s, acts).tracer, ret);
  }

  lemma PassedReturn(s: Settings, c: Consumer, ret: Item)
    requires ReturnOf(s, c, ret)
    requires FramePasses(s, c.filter, c.frames[KeyOf(ret.e.tid, ret.e.depth)], ret.e.depth)
    ensures Receive(s, c, ret) == if SplitAccepted(s, c.filter, c.frames[KeyOf(ret.e.tid, ret.e.depth)].call)
                                  then Answered(s, c, ret) else Taken(s, c, ret)
  {
    ReturnOutcome(s, c, ret);
    ValueKeepsGrep(c.filter, c.frames[KeyOf(ret.e.tid, ret.e.depth)].call, ReturnValue(s, c, ret));
  }

  /** So every shown call slot, and without class and method expressions every shown slot,
      has its return line printed. */
  lemma ShownEntryShownReturn(s: Settings, acts: seq<Action>, ret: Item)
    requires NoCommands(acts) && Observed(s, ret.e.tid) && ret.e.kind.Return?
    requires KeyOf(ret.e.tid, ret.e.depth) in Run(s, acts).tracer.shown
    ensures var c := Run(s, acts).tracer;
            && ReturnOf(s, c, ret)
            && (IsCall(s, c.frames[KeyOf(ret.e.tid, ret.e.depth)].slot)
                || (c.filter.classRe.None? && c.filter.methodRe.None?) ==>
                  Receive(s, c, ret) == Answered(s, c, ret))
  {
    RunKeepsShown(s, acts);
    ShownReturnIff(s, acts, ret);
  }

  // ----- how entry and return lines part

  /** `ret`, handled in `c2`, ends the call whose entry `it` was handled in `c`; since then
      neither its frame nor the filter changed. */
  predicate Completes(s: Settings, c: Consumer, it: Item, slot: int, c2: Consumer, ret: Item) {
    && EntryOf(s, it, slot) && Stores(s, it, slot)
    && ReturnOf(s, c2, ret) && ret.e.tid == it.e.tid && ret.e.depth == it.e.depth
    && c2.frames[KeyOf(it.e.tid, it.e.depth)] == FrameLeft(s, c, it, slot) && c2.filter == c.filter
  }

  /** A printed return without its entry, exactly: what both lines are tested for holds, the
      split text is accepted, and the entry fails one of the three tests that the return
      does not repeat. Those are: the id had no name yet (and no --verbose), the grep text
      is in the returned value only, or the expressions refuse the name of a plain slot. */
  lemma ReturnWithoutEntryIff(s: Settings, c: Consumer, it: Item, slot: int, c2: Consumer, ret: Item)
    requires Completes(s, c, it, slot, c2, ret)
    ensures var f, text := c.filter, EntryText(s, c, it, slot);
            Printed(c2, Receive(s, c2, ret)) && !Printed(c, Receive(s, c, it))
            <==>
            && InView(s, f, slot, it.e.depth) && FromHit(f, it.env.caller)
            && GrepHit(f, text + ReturnValue(s, c2, ret)) && SplitAccepted(s, f, text)
            && (|| (!Known(s, c, it, slot) && !s.view.verbose)
                || !GrepHit(f, text)
                || (!IsCall(s, slot) && !Accepts(s.host.rx, f, "", SlotName(s.site.schema, slot))))
  {
    StoredEntry(s, c, it, slot);
    ReturnOutcome(s, c2, ret);
  }

  /** A printed entry without its return, exactly: a plain slot whose name the expressions
      accept and whose split text they do not. */
  lemma EntryWithoutReturnIff(s: Settings, c: Consumer, it: Item, slot: int, c2: Consumer, ret: Item)
    requires Completes(s, c, it, slot, c2, ret)
    ensures var f, text := c.filter, EntryText(s, c, it, slot);
            Printed(c, Receive(s, c, it)) && !Printed(c2, Receive(s, c2, ret))
            <==>
            && InView(s, f, slot, it.e.depth) && FromHit(f, it.env.caller) && GrepHit(f, text)
            && !IsCall(s, slot) && Accepts(s.host.rx, f, "", SlotName(s.site.schema, slot))
            && !SplitAccepted(s, f, text)
  {
    StoredEntry(s, c, it, slot);
    ReturnOutcome(s, c2, ret);
    if GrepHit(c.filter, EntryText(s, c, it, slot)) {
      ValueKeepsGrep(c.filter, EntryText(s, c, it, slot), ReturnValue(s, c2, ret));
    }
  }

  /** One such family: a method expression that accepts the slot's name but not the whole
      text, like one anchored at both ends, where the text has no '.'. */
  lemma MethodExpressionHidesReturn(s: Settings, c: Consumer, it: Item, slot: int, c2: Consumer, ret: Item, pat: string)
    requires Completes(s, c, it, slot, c2, ret) && !IsCall(s, slot) && InView(s, c.filter, slot, it.e.depth)
    requires c.filter == Filter(c.filter.modes, c.filter.only, c.filter.exclude, "", None, Some(pat), [])
    requires '.' !in EntryText(s, c, it, slot)
    requires s.host.rx(pat, SlotName(s.site.schema, slot)) && !s.host.rx(pat, EntryText(s, c, it, slot))
    ensures KeyOf(it.e.tid, it.e.depth) in Receive(s, c, it).shown && Printed(c, Receive(s, c, it))
    ensures Receive(s, c2, ret) == Taken(s, c2, ret) && !Printed(c2, Receive(s, c2, ret))
  {
    StoredEntry(s, c, it, slot);
    ReturnOutcome(s, c2, ret);
    NoDotNoSplit(EntryText(s, c, it, slot));
  }

  lemma NoDotNoSplit(text: string)
    requires '.' !in text
    ensures SplitClassMethod(text) == ("", text)
  {}

  /** The converse family: with slots and depth the only filter, a call through an unknown id
      prints no entry unless --verbose is on, and yet its return line. */
  lemma UnknownCallShowsReturnOnly(s: Settings, c: Consumer, it: Item, slot: int, c2: Consumer, ret: Item)
    requires Completes(s, c, it, slot, c2, ret) && IsCall(s, slot) && InView(s, c.filter, slot, it.e.depth)
    requires c.filter == Filter(c.filter.modes, c.filter.only, c.filter.exclude, "", None, None, [])
    requires !Known(s, c, it, slot) && !s.view.verbose
    ensures KeyOf(it.e.tid, it.e.depth) !in Receive(s, c, it).shown && !Printed(c, Receive(s, c, it))
    ensures Receive(s, c2, ret) == Answered(s, c2, ret) && Printed(c2, Receive(s, c2, ret))
  {
    StoredEntry(s, c, it, slot);
    ReturnOutcome(s, c2, ret);
  }
}
