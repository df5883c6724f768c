/** Main results about what the consumer learns: it depends on the target alone, never on
    filters, and every name comes from the call that taught it. */
module Names {
  import opened Words
  import opened Text
  import opened Schema
  import opened Descriptor
  import opened Snapshots
  import opened Kernel
  import opened Learning
  import opened Tracing
  import opened Protocol
  import opened Pairing
  import opened Lag
  import opened Display

  // ----- caches follow the matches

  function Lessons(pairs: seq<Pair>): seq<Lesson> {
    seq(|pairs|, i requires 0 <= i < |pairs| => LessonOf(pairs[i]))
  }

  predicate LearnedFromMatches(s: Settings, c: Consumer) {
    c.caches == LearnAll(s.site.schema, EMPTY, Lessons(c.paired))
  }

  lemma ReceiveLearns(s: Settings, c: Consumer, it: Item)
    requires LearnedFromMatches(s, c)
    ensures LearnedFromMatches(s, Receive(s, c, it))
  {
    ReceiveFeeds(s, c, it);
    var c2 := Receive(s, c, it);
    if c2.paired != c.paired {
      var p := Last(c2.paired);
      assert Lessons(c2.paired) == Lessons(c.paired) + [LessonOf(p)];
      LearnSnoc(s.site.schema, EMPTY, Lessons(c.paired), LessonOf(p));
    }
  }

  lemma {:induction false} RunLearnsFromMatches(s: Settings, acts: seq<Action>)
    ensures LearnedFromMatches(s, Run(s, acts).tracer)
    decreases |acts|
  {
    if acts != [] {
      RunLearnsFromMatches(s, Front(acts));
      var y := Run(s, Front(acts));
      if Last(acts).Poll? && y.ring != [] {
        ReceiveLearns(s, y.tracer, y.ring[0]);
      }
    }
  }

  lemma {:induction false} MatchesOnlyGrow(s: Settings, l: Ledger, items: seq<Item>)
    ensures l.pairs <= FeedAll(s, l, items).pairs
    decreases |items|
  {
    if items != [] {
      MatchesOnlyGrow(s, Feed(s, l, items[0]), items[1..]);
    }
  }

  /** However far the consumer lags: what it has matched so far is a first part of the true
      matches. */
  lemma MatchedSoFarIsTrue(s: Settings, acts: seq<Action>)
    requires Fits(s, acts) && Lossless(acts)
    ensures Run(s, acts).tracer.paired <= TrueMatches(s, acts)
  {
    PairingIsExact(s, acts);
    MatchesOnlyGrow(s, LedgerOf(Run(s, acts).tracer), Run(s, acts).ring);
  }

  /** The frame that the next return takes is the one its own call stored: the call of the
      next true match, with the same slot, time and arguments. */
  lemma TakenFrameIsOwn(s: Settings, acts: seq<Action>, it: Item)
    requires Fits(s, acts) && Lossless(acts) && Run(s, acts).ring != [] && it == Run(s, acts).ring[0]
    requires Observed(s, it.e.tid) && it.e.kind.Return? && it.e.depth >= 0
    requires KeyOf(it.e.tid, it.e.depth) in Run(s, acts).tracer.frames
    ensures var c := Run(s, acts).tracer;
            |c.paired| < |TrueMatches(s, acts)|
            && PairOf(c.frames[KeyOf(it.e.tid, it.e.depth)], it) == TrueMatches(s, acts)[|c.paired|]
  {
    var y, l := Run(s, acts), LedgerOf(Run(s, acts).tracer);
    PairingIsExact(s, acts);
    MatchesOnlyGrow(s, Feed(s, l, it), y.ring[1..]);
    NextMatch(s, y.tracer, it);
  }

  lemma NextMatch(s: Settings, c: Consumer, it: Item)
    requires Observed(s, it.e.tid) && it.e.kind.Return? && it.e.depth >= 0 && KeyOf(it.e.tid, it.e.depth) in c.frames
    ensures Feed(s, LedgerOf(c), it).pairs == c.paired + [PairOf(c.frames[KeyOf(it.e.tid, it.e.depth)], it)]
  {}

  // ----- the lessons the target itself gives

  function MovesOf(acts: seq<Action>): seq<Move> {
    if acts == [] then []
    else MovesOf(Front(acts)) + if Last(acts).Act? then [Last(acts).move] else []
  }

  /** The moves alone, as a run; what becomes of the records does not matter to the target. */
  function Replayed(moves: seq<Move>): seq<Action> {
    seq(|moves|, i requires 0 <= i < |moves| => Act(moves[i], Full))
  }

  function LiveAfter(moves: seq<Move>): Stacks<Activation> {
    LiveFrom(map[], Replayed(moves))
  }

  function SiteSlot(site: Site, x: Activation): Option<int> {
    var off := Sub64(x.call.ip, site.base);
    if off in site.offsets then Some(site.offsets[off]) else None
  }

  /** The lesson of a return that ends call `x`, if the slot teaches anything and the thread
      is watched. Nothing here mentions a filter. */
  function LessonFrom(site: Site, x: Activation, exit: Exit, env: Env): seq<Lesson> {
    var slot := SiteSlot(site, x);
    if slot.Some? && AlwaysWatch(SlotName(site.schema, slot.value)) && (site.tid == 0 || exit.tid == site.tid)
    then [Lesson(slot.value, x.call.x[1], x.call.x[2], x.call.x[3], exit.rc, env.target)] else []
  }

  /** What one move teaches, given the calls its thread is in. */
  function TaughtBy(site: Site, st: seq<Activation>, m: Move): seq<Lesson> {
    if m.Leave? && st != [] then LessonFrom(site, Last(st), m.exit, m.env) else []
  }

  function TrueLessons(site: Site, moves: seq<Move>): seq<Lesson> {
    if moves == [] then []
    else
      TrueLessons(site, Front(moves))
      + TaughtBy(site, StackOf(LiveAfter(Front(moves)), Last(moves).Tid()), Last(moves))
  }

  lemma LiveAfterSnoc(moves: seq<Move>, m: Move)
    ensures LiveAfter(moves + [m]) == TargetStep(LiveAfter(moves), m)
  {
    assert Front(Replayed(moves + [m])) == Replayed(moves) && Last(Replayed(moves + [m])) == Act(m, Full);
  }

  lemma {:induction false} LiveByMoves(acts: seq<Action>)
    ensures LiveFrom(map[], acts) == LiveAfter(MovesOf(acts))
    decreases |acts|
  {
    if acts != [] {
      LiveByMoves(Front(acts));
      if Last(acts).Act? {
        LiveAfterSnoc(MovesOf(Front(acts)), Last(acts).move);
      } else {
        assert MovesOf(acts) == MovesOf(Front(acts));
      }
    }
  }

  lemma WatchedAppend(tb: Table, ls: seq<Lesson>, l: Lesson)
    ensures Watched(tb, ls + [l]) == Watched(tb, ls) + if AlwaysWatch(SlotName(tb, l.slot)) then [l] else []
  {
    assert (ls + [l])[..|ls|] == ls;
  }

  lemma StepTeaches(s: Settings, st: seq<Activation>, a: Action)
    requires a.Act?
    ensures Watched(s.site.schema, Lessons(StepMatch(s, st, a, a.move.Tid(), 0, 0))) == TaughtBy(s.site, st, a.move)
  {
    if a.move.Leave? && st != [] {
      var x := Last(st);
      if Tracked(s, x) && Observed(s, a.move.Tid()) {
        var p := TrueMatch(s, st, a.move.exit, a.move.env, 0, 0);
        assert Lessons([p]) == [] + [LessonOf(p)];
        WatchedAppend(s.site.schema, [], LessonOf(p));
      } else if Probed(s, x) {
        RetSetIff(s, Sub64(x.call.ip, s.site.base));
      }
    }
  }

  /** Always-watched slots are tracked under any filter, so the matches teach exactly what
      the target's own calls teach. */
  lemma {:induction false} MatchesTeachTruth(s: Settings, acts: seq<Action>)
    ensures Watched(s.site.schema, Lessons(TrueMatches(s, acts))) == TrueLessons(s.site, MovesOf(acts))
    decreases |acts|
  {
    if acts != [] {
      var a, front := Last(acts), Front(acts);
      MatchesTeachTruth(s, front);
      if a.Act? {
        var st := StackOf(LiveFrom(map[], front), a.move.Tid());
        LiveByMoves(front);
        assert Front(MovesOf(acts)) == MovesOf(front);
        StepTeaches(s, st, a);
        WatchedConcat(s.site.schema, TrueMatches(s, front), StepMatch(s, st, a, a.move.Tid(), 0, 0));
      } else {
        assert TrueMatches(s, acts) == TrueMatches(s, front) && MovesOf(acts) == MovesOf(front);
      }
    }
  }

  lemma WatchedConcat(tb: Table, ps: seq<Pair>, more: seq<Pair>)
    requires |more| <= 1
    ensures Watched(tb, Lessons(ps + more)) == Watched(tb, Lessons(ps)) + Watched(tb, Lessons(more))
  {
    if more == [] {
      assert ps + more == ps && Watched(tb, Lessons(ps)) + [] == Watched(tb, Lessons(ps));
    } else {
      assert Lessons(ps + more) == Lessons(ps) + [LessonOf(more[0])] && Lessons(more) == [] + [LessonOf(more[0])];
      WatchedAppend(tb, Lessons(ps), LessonOf(more[0]));
      WatchedAppend(tb, [], LessonOf(more[0]));
    }
  }

  lemma MatchesTeachCaches(s: Settings, c: Consumer, acts: seq<Action>)
    requires LearnedFromMatches(s, c) && c.paired == TrueMatches(s, acts)
    ensures c.caches == LearnAll(s.site.schema, EMPTY, TrueLessons(s.site, MovesOf(acts)))
  {
    OnlyWatchedTeach(s.site.schema, EMPTY, Lessons(c.paired));
    MatchesTeachTruth(s, acts);
  }

  /** In every reachable loss-free state the consumer stands at a point `m` of the run: its
      ring holds exactly what was recorded since, and its caches are exactly what the target's
      own returns up to there teach. Neither the start-up filter, nor --no-returns, nor a
      command enters the right side. */
  lemma CachesFollowTarget(s: Settings, acts: seq<Action>) returns (m: nat)
    requires Fits(s, acts) && Lossless(acts)
    ensures m <= |acts| && Records(s, acts) == Records(s, acts[..m]) + Run(s, acts).ring
    ensures Run(s, acts).ring != [] ==>
              m < |acts| && NewRecords(s, Run(s, acts[..m]), acts[m]) == [Run(s, acts).ring[0]]
    ensures Run(s, acts).ring == [] ==> m == |acts|
    ensures Run(s, acts).tracer.caches == LearnAll(s.site.schema, EMPTY, TrueLessons(s.site, MovesOf(acts[..m])))
  {
    m := LagPoint(s, acts);
    FitsPrefix(s, acts, m);
    PairingIsExact(s, acts[..m]);
    RunLearnsFromMatches(s, acts);
    MatchesTeachCaches(s, Run(s, acts).tracer, acts[..m]);
  }

  /** Filter independence: two runs over the same moves of the target, with any two start-up
      filters and --no-returns settings (hence different tracked sets and depths), any
      commands and any polling in between, end with identical caches. */
  lemma FilterIndependence(s1: Settings, s2: Settings, acts1: seq<Action>, acts2: seq<Action>)
    requires s1.site == s2.site && MovesOf(acts1) == MovesOf(acts2)
    requires Fits(s1, acts1) && Lossless(acts1) && Run(s1, acts1).ring == []
    requires Fits(s2, acts2) && Lossless(acts2) && Run(s2, acts2).ring == []
    ensures Run(s1, acts1).tracer.caches == Run(s2, acts2).tracer.caches
  {
    var m1 := CachesFollowTarget(s1, acts1);
    var m2 := CachesFollowTarget(s2, acts2);
    assert acts1[..m1] == acts1 && acts2[..m2] == acts2;
  }

  /** Every cached name, class and text is that of the latest of these lessons that could
      set it, and absent if and only if none could. */
  predicate NamedBy(tb: Table, c: Caches, truth: seq<Lesson>, id: u64) {
    && Lookup(c.idName, id) == LatestName(tb, truth, id)
    && Lookup(c.idClass, id) == LatestClass(tb, truth, id)
    && Lookup(c.classNames, id) == LatestClassName(tb, truth, id)
    && Lookup(c.nameByClass, id) == LatestObjectName(tb, truth, id)
    && Lookup(c.objClass, id) == LatestObjClass(tb, truth, id)
    && Lookup(c.jstr, id) == LatestText(tb, truth, id)
  }

  lemma LearnedNames(tb: Table, truth: seq<Lesson>, id: u64)
    ensures NamedBy(tb, LearnAll(tb, EMPTY, truth), truth, id)
  {
    NameProvenance(tb, truth, id);
    ClassNameProvenance(tb, truth, id);
    ObjectProvenance(tb, truth, id);
    TextProvenance(tb, truth, id);
  }

  /** Provenance in every reachable loss-free state: what the consumer knows is what the
      latest calls of the target taught, among those that returned before the first record
      still to be handled. */
  lemma NamesComeFromTarget(s: Settings, acts: seq<Action>, id: u64) returns (m: nat)
    requires Fits(s, acts) && Lossless(acts)
    ensures m <= |acts| && Records(s, acts) == Records(s, acts[..m]) + Run(s, acts).ring
    ensures Run(s, acts).ring == [] ==> m == |acts|
    ensures NamedBy(s.site.schema, Run(s, acts).tracer.caches, TrueLessons(s.site, MovesOf(acts[..m])), id)
  {
    m := CachesFollowTarget(s, acts);
    LearnedNames(s.site.schema, TrueLessons(s.site, MovesOf(acts[..m])), id);
  }

  /** The text of a call is made when its record is handled, however late that is; yet the
      method it names is the one that the latest lookup of its id, among the lookups that
      returned before the call was made, was asked for. With no such lookup it is shown as
      unknown. */
  lemma PrintedNameIsLatest(s: Settings, acts: seq<Action>, it: Item, slot: int,
                            name: string, params: seq<FieldType>, ret: string) returns (m: nat)
    requires Fits(s, acts) && Lossless(acts) && Run(s, acts).ring != [] && it == Run(s, acts).ring[0]
    requires EntryOf(s, it, slot) && IsCall(s, slot)
    requires '(' !in name && forall p | p in params :: p.WellFormed()
    ensures m < |acts| && acts[m].Act? && EntryRecord(s, Run(s, acts[..m]), acts[m].move, it)
    ensures var nm, c := SlotName(s.site.schema, slot), Run(s, acts).tracer;
            var id := it.e.a[CallIndex(nm).value];
            var known := LatestName(s.site.schema, TrueLessons(s.site, MovesOf(acts[..m])), id);
            var args := Render(Show(s, c.caches, it.env.target), ShowAll(params),
                               DecodedWords(SnapshotKind(nm), it.e.snap, ShowAll(params)));
            && |args| == |params|
            && (known == Some(name + MethodDescriptor(params, ret)) ==>
                  EntryText(s, c, it, slot)
                  == CalleeClass(it.e, id, c.caches, it.env.target) + "." + name + "(" + Join(args, ", ") + ")")
            && (known == None ==> EntryText(s, c, it, slot) == nm + " mid=" + Hex(id) + " (?)")
            && (Known(s, c, it, slot) <==> known != None)
  {
    var nm, c := SlotName(s.site.schema, slot), Run(s, acts).tracer;
    var ix := CallIndex(nm).value;
    var id := it.e.a[ix];
    m := CachesFollowTarget(s, acts);
    NewRecordIs(s, Run(s, acts[..m]), acts[m], it);
    LearnedNames(s.site.schema, TrueLessons(s.site, MovesOf(acts[..m])), id);
    if id in c.caches.idName && c.caches.idName[id] == name + MethodDescriptor(params, ret) {
      DescribeRecovers(s, it.e, nm, ix, c.caches, it.env.target, name, params, ret);
    }
  }

  /** With or without loss: an id that has a name has a class. */
  lemma NamedIdsHaveClasses(s: Settings, acts: seq<Action>, id: u64)
    ensures id in Run(s, acts).tracer.caches.idName ==> id in Run(s, acts).tracer.caches.idClass
  {
    RunLearnsFromMatches(s, acts);
    NameProvenance(s.site.schema, Lessons(Run(s, acts).tracer.paired), id);
  }

  // ----- from the cache to the printed call

  /** A call through an id whose cached name is a method name and descriptor prints that name
      and exactly one argument per parameter of the descriptor. */
  lemma DescribeRecovers(s: Settings, e: Event, nm: string, ix: nat, c: Caches, t: Target,
                         name: string, params: seq<FieldType>, ret: string)
    requires 2 <= ix <= 3 && e.a[ix] in c.idName
    requires c.idName[e.a[ix]] == name + MethodDescriptor(params, ret) && '(' !in name
    requires forall p | p in params :: p.WellFormed()
    ensures var args := Render(Show(s, c, t), ShowAll(params), DecodedWords(SnapshotKind(nm), e.snap, ShowAll(params)));
            && |args| == |params|
            && DescribeCall(s, e, nm, ix, c, t)
               == (CalleeClass(e, e.a[ix], c, t) + "." + name + "(" + Join(args, ", ") + ")", true)
  {
    var full, sig := name + MethodDescriptor(params, ret), MethodDescriptor(params, ret);
    SplitAtParen(name, sig);
    ParseRoundTrip(params, ret);
  }

  lemma SplitAtParen(name: string, sig: string)
    requires '(' !in name && sig != "" && sig[0] == '('
    ensures IndexOf(name + sig, '(') == |name|
    ensures SplitNameSig(name + sig) == (name, sig)
  {
    var full := name + sig;
    assert full[..|name|] == name && full[|name|..] == sig;
    IndexOfIs(full, '(', |name|);
  }

  lemma SplitAtDot(cls: string, tail: string)
    ensures SplitClassMethod(cls + "." + tail).0 == cls <==> '.' !in tail
    ensures '.' !in tail ==>
      SplitClassMethod(cls + "." + tail).1 == if IndexOf(tail, '(') >= 0 then tail[..IndexOf(tail, '(')] else tail
  {
    var call := cls + "." + tail;
    assert call[|cls| + 1..] == tail && call[..|cls|] == cls;
    LastIndexOfIs(call, '.', |cls|);
  }

  lemma NoDotInTail(name: string, args: string)
    ensures '.' !in name + ("(" + args + ")") <==> '.' !in name && '.' !in args
  {
    var rest := "(" + args + ")";
    assert forall m | 0 <= m < |args| :: rest[m + 1] == args[m];
    assert '.' in args ==> '.' in rest;
  }

  /** Splitting a printed call at its last '.' gives back class and method if and only if no
      '.' follows the one between them: not in the method name, not in any argument. */
  lemma SplitRecoversIff(cls: string, name: string, args: string)
    requires '(' !in name
    ensures SplitClassMethod(cls + "." + name + "(" + args + ")") == (cls, name)
       <==> '.' !in name && '.' !in args
  {
    var rest := "(" + args + ")";
    var tail := name + rest;
    assert cls + "." + tail == cls + "." + name + "(" + args + ")";
    SplitAtDot(cls, tail);
    SplitAtParen(name, rest);
    NoDotInTail(name, args);
    assert tail[..|name|] == name;
  }
}
