/** The whole tracer as a step system (target, probes, ring buffer, consumer) and the
    abstract machine it refines: one stack of frames per thread. */
module Protocol {
  import opened Words
  import opened Schema
  import opened Filtering
  import opened Snapshots
  import opened Kernel
  import opened Learning
  import opened Tracing

  // ----- the target

  /** A running call, with what the consumer's surroundings will hold when it handles the
      event of this call (arbitrary, since the consumer may lag behind). */
  datatype Activation = Activation(call: Call, env: Env)

  datatype Move =
    | Enter(call: Call, mem: Memory, env: Env)
    | Leave(exit: Exit, env: Env)
  {
    function Tid(): u32 {
      if Enter? then call.tid else exit.tid
    }
  }

  type Stacks<V> = map<u32, seq<V>>

  function StackOf<V>(m: Stacks<V>, tid: u32): seq<V> {
    if tid in m then m[tid] else []
  }

  function Front<V>(q: seq<V>): seq<V>
    requires q != []
  {
    q[..|q| - 1]
  }

  function Last<V>(q: seq<V>): V
    requires q != []
  {
    q[|q| - 1]
  }

  /** The true call stacks. Returns end the innermost call of their thread. */
  function TargetStep(live: Stacks<Activation>, m: Move): Stacks<Activation> {
    var st := StackOf(live, m.Tid());
    match m
    case Enter(call, _, env) => live[call.tid := st + [Activation(call, env)]]
    case Leave(exit, _) => if st == [] then live else live[exit.tid := Front(st)]
  }

  // ----- which calls are probed and tracked

  predicate Probed(s: Settings, x: Activation) {
    Sub64(x.call.ip, s.site.base) in s.site.offsets
  }

  function SlotOf(s: Settings, x: Activation): int
    requires Probed(s, x)
  {
    s.site.offsets[Sub64(x.call.ip, s.site.base)]
  }

  predicate Tracked(s: Settings, x: Activation) {
    Probed(s, x) && SlotOf(s, x) in RetSet(s)
  }

  /** The frame that belongs to a call, its rendered text left out. */
  function FrameFor(s: Settings, x: Activation): Frame
    requires Probed(s, x)
  {
    Frame(SlotOf(s, x), x.call.ts, "", x.env.caller, x.call.x[1], x.call.x[2], x.call.x[3])
  }

  // ----- the system

  datatype Action =
    | Act(move: Move, res: Reservation)
    | Poll
    | Command(line: string)

  datatype System = System(live: Stacks<Activation>, depth: map<u32, u32>, ring: seq<Item>, tracer: Consumer)

  function Step(s: Settings, y: System, a: Action): System {
    match a
    case Poll =>
      if y.ring == [] then y
      else y.(ring := y.ring[1..], tracer := Receive(s, y.tracer, y.ring[0]))
    case Command(line) =>
      y.(tracer := y.tracer.(filter := CommandEffect(y.tracer.filter, line)))
    case Act(m, res) => ProbeStep(s, y, m, res).(live := TargetStep(y.live, m))
  }

  function RecordEntry(tb: Tables, y: System, call: Call, snap: Snapshot, env: Env): System {
    y.(depth := DepthAfterEntry(tb, y.depth, call),
       ring := y.ring + [Item(EntryEvent(tb, y.depth, call, snap), env)])
  }

  /** The probe a move hits, if any: every known offset has an entry probe, the tracked ones
      a return probe. */
  function ProbeStep(s: Settings, y: System, m: Move, res: Reservation): System {
    match m
    case Enter(call, mem, env) =>
      if res.Full? || !Probed(s, Activation(call, env)) then y
      else
        RecordEntry(KernelTables(s), y, call, SnapshotFor(KernelTables(s), call, mem, res.stale), env)
    case Leave(exit, env) =>
      var st := StackOf(y.live, exit.tid);
      if res.Full? || st == [] || !Tracked(s, Last(st)) then y
      else
        y.(depth := DepthAfterReturn(y.depth, exit.tid),
           ring := y.ring + [Item(ReturnEvent(y.depth, exit, res.stale), env)])
  }

  function RunFrom(s: Settings, y: System, acts: seq<Action>): System {
    if acts == [] then y else Step(s, RunFrom(s, y, Front(acts)), Last(acts))
  }

  function Run(s: Settings, acts: seq<Action>): System {
    RunFrom(s, System(map[], map[], [], Idle(s)), acts)
  }

  predicate NoCommands(acts: seq<Action>) {
    forall a | a in acts :: !a.Command?
  }

  // ----- the abstract machine

  /** Per thread, the stack of frames whose entry was recorded and that no recorded return
      has taken; and the matches made so far. */
  datatype Ideal = Ideal(live: Stacks<Activation>, kept: Stacks<Frame>, pairs: seq<Pair>)

  function IdealStep(s: Settings, i: Ideal, a: Action): Ideal {
    match a
    case Act(m, res) => RecordStep(s, i, m, res).(live := TargetStep(i.live, m))
    case _ => i
  }

  function Recorded(s: Settings, i: Ideal, x: Activation): Ideal {
    if !Tracked(s, x) then i
    else i.(kept := Put(i.kept, x.call.tid, StackOf(i.kept, x.call.tid) + [FrameFor(s, x)]))
  }

  function RecordStep(s: Settings, i: Ideal, m: Move, res: Reservation): Ideal {
    match m
    case Enter(call, mem, env) =>
      if res.Full? then i else Recorded(s, i, Activation(call, env))
    case Leave(exit, env) =>
      var st, q := StackOf(i.live, exit.tid), StackOf(i.kept, exit.tid);
      if res.Full? || st == [] || !Tracked(s, Last(st)) then i
      else if q == [] then i.(kept := Put(i.kept, exit.tid, []))
      else
        i.(kept := Put(i.kept, exit.tid, Front(q)),
           pairs := if Observed(s, exit.tid)
                    then i.pairs + [MatchOf(Last(q), exit, |q| - 1, env)] else i.pairs)
  }

  function MatchOf(fr: Frame, exit: Exit, depth: int, env: Env): Pair {
    Pair(Core(fr), exit.tid, depth, exit.rc, exit.ts, env.target)
  }

  function IdealFrom(s: Settings, i: Ideal, acts: seq<Action>): Ideal {
    if acts == [] then i else IdealStep(s, IdealFrom(s, i, Front(acts)), Last(acts))
  }

  const NOTHING: Ideal := Ideal(map[], map[], [])

  function IdealRun(s: Settings, acts: seq<Action>): Ideal {
    IdealFrom(s, NOTHING, acts)
  }

  // ----- room: the two limits of the depth map

  /** A recorded entry finds room: its thread has an entry in the depth map or the map is
      not full, and its depth fits a signed 32-bit word. */
  predicate Roomy(s: Settings, i: Ideal, a: Action) {
    a.Act? && a.move.Enter? && a.res.Granted? && Tracked(s, Activation(a.move.call, a.move.env)) ==>
      var tid := a.move.call.tid;
      (tid in i.kept || |i.kept| < DEPTH_ROOM) && |StackOf(i.kept, tid)| < TWO_31
  }

  predicate FitsFrom(s: Settings, i: Ideal, acts: seq<Action>) {
    acts == [] || (FitsFrom(s, i, Front(acts)) && Roomy(s, IdealFrom(s, i, Front(acts)), Last(acts)))
  }

  predicate Fits(s: Settings, acts: seq<Action>) {
    FitsFrom(s, NOTHING, acts)
  }

  // ----- the consumer seen as a ledger of open frames and matches

  datatype Ledger = Ledger(open: map<Key, Frame>, pairs: seq<Pair>)

  function CoreMap(frames: map<Key, Frame>): map<Key, Frame> {
    map k | k in frames :: Core(frames[k])
  }

  function LedgerOf(c: Consumer): Ledger {
    Ledger(CoreMap(c.frames), c.paired)
  }

  function Feed(s: Settings, l: Ledger, it: Item): Ledger {
    var key := KeyOf(it.e.tid, it.e.depth);
    var off := Sub64(it.e.ip, s.site.base);
    if !Observed(s, it.e.tid) then l
    else if it.e.kind.Return? then
      if it.e.depth < 0 || key !in l.open then l
      else Ledger(l.open - {key}, l.pairs + [PairOf(l.open[key], it)])
    else if off in s.site.offsets && Stores(s, it, s.site.offsets[off]) then
      l.(open := l.open[key := FrameOf(s.site.offsets[off], it)])
    else l
  }

  function FeedAll(s: Settings, l: Ledger, items: seq<Item>): Ledger
    decreases |items|
  {
    if items == [] then l else FeedAll(s, Feed(s, l, items[0]), items[1..])
  }

  /** Everything that names are learned from, and the filter, are alike in `c` and `d`. */
  predicate Alike(c: Consumer, d: Consumer) {
    LedgerOf(c) == LedgerOf(d) && c.caches == d.caches && c.filter == d.filter
  }

  lemma EmitAlike(s: Settings, c: Consumer, text: string)
    ensures Alike(Emit(s, c, text), c)
  {}

  lemma RenameAlike(c: Consumer, key: Key, call: string)
    ensures Alike(Rename(c, key, call), c)
    ensures Alike(MarkShown(c, key), c)
  {
    if key in c.frames {
      assert CoreMap(Rename(c, key, call).frames) == CoreMap(c.frames);
    }
  }

  /** Printing an entry never touches what is learned. */
  lemma ShowEntryAlike(s: Settings, c: Consumer, it: Item, slot: int)
    ensures Alike(ShowEntry(s, c, it, slot), c)
  {
    var key := KeyOf(it.e.tid, it.e.depth);
    var ix := CallIndex(SlotName(s.site.schema, slot));
    if ix.Some? {
      var call := DescribeCall(s, it.e, SlotName(s.site.schema, slot), ix.value, c.caches, it.env.target).0;
      var c1 := Rename(c, key, call);
      RenameAlike(c, key, call);
      RenameAlike(c1, key, call);
      EmitAlike(s, MarkShown(c1, key), Indent(it.e.depth) + "-> " + call + Tag(s, it));
    } else {
      RenameAlike(c, key, "");
    }
  }

  lemma EntryFeeds(s: Settings, c: Consumer, it: Item)
    requires Observed(s, it.e.tid) && it.e.kind.Entry?
    ensures var c2 := HandleEntry(s, c, it);
            LedgerOf(c2) == Feed(s, LedgerOf(c), it) && c2.filter == c.filter && c2.caches == c.caches
  {
    var off := Sub64(it.e.ip, s.site.base);
    if off in s.site.offsets {
      var slot := s.site.offsets[off];
      var c1 := Store(s, c, it, slot);
      assert CoreMap(c1.frames) == Feed(s, LedgerOf(c), it).open;
      ShowEntryAlike(s, c1, it, slot);
    }
  }

  lemma ReturnFeeds(s: Settings, c: Consumer, it: Item)
    requires Observed(s, it.e.tid) && it.e.kind.Return?
    ensures var c2, l := HandleReturn(s, c, it), Feed(s, LedgerOf(c), it);
            && LedgerOf(c2) == l && c2.filter == c.filter
            && c2.caches == if l.pairs == c.paired then c.caches
                            else Learn(s.site.schema, c.caches, LessonOf(Last(l.pairs)))
  {
    var key := KeyOf(it.e.tid, it.e.depth);
    if it.e.depth >= 0 && key in c.frames {
      var c1 := TakeFrame(s, c, key, it);
      assert CoreMap(c1.frames) == CoreMap(c.frames) - {key};
      EmitAlike(s, c1, ReturnLine(s, c1.caches, c.frames[key], it));
    }
  }

  /** `c2` is `c` after the event: its open frames and matches follow from the event alone,
      and its caches change only with a match. */
  predicate Fed(s: Settings, c: Consumer, it: Item, c2: Consumer) {
    var l := Feed(s, LedgerOf(c), it);
    && LedgerOf(c2) == l && c2.filter == c.filter
    && c2.caches == if l.pairs == c.paired then c.caches
                    else Learn(s.site.schema, c.caches, LessonOf(Last(l.pairs)))
  }

  /** No filter, view option or learned name has a part in what the consumer matches. */
  lemma ReceiveFeeds(s: Settings, c: Consumer, it: Item)
    ensures Fed(s, c, it, Receive(s, c, it))
  {
    if Observed(s, it.e.tid) {
      if it.e.kind.Return? {
        ReturnFeeds(s, c, it);
      } else {
        EntryFeeds(s, c, it);
      }
    }
  }

  lemma FeedAllSnoc(s: Settings, l: Ledger, items: seq<Item>, it: Item)
    ensures FeedAll(s, l, items + [it]) == Feed(s, FeedAll(s, l, items), it)
    decreases |items|
  {
    if items != [] {
      assert (items + [it])[1..] == items[1..] + [it];
      FeedAllSnoc(s, Feed(s, l, items[0]), items[1..], it);
    } else {
      assert FeedAll(s, Feed(s, l, it), []) == Feed(s, l, it);
      assert (items + [it])[1..] == [];
    }
  }

  lemma ReceiveLedger(s: Settings, c: Consumer, it: Item)
    ensures LedgerOf(Receive(s, c, it)) == Feed(s, LedgerOf(c), it)
  {
    ReceiveFeeds(s, c, it);
  }

  lemma {:induction false} ReceiveAllFeeds(s: Settings, c: Consumer, items: seq<Item>)
    ensures LedgerOf(ReceiveAll(s, c, items)) == FeedAll(s, LedgerOf(c), items)
    decreases |items|
  {
    if items != [] {
      ReceiveAllFeeds(s, c, Front(items));
      ReceiveLedger(s, ReceiveAll(s, c, Front(items)), Last(items));
      assert items == Front(items) + [Last(items)];
      FeedAllSnoc(s, LedgerOf(c), Front(items), Last(items));
    }
  }

  // ----- the refinement

  /** The open frames are, for each observed thread, its kept stack, keyed by position. */
  ghost predicate Mirrors(s: Settings, open: map<Key, Frame>, kept: Stacks<Frame>) {
    forall tid: u32, k: int {:trigger KeyOf(tid, k)} ::
      && (KeyOf(tid, k) in open <==> Observed(s, tid) && 0 <= k < |StackOf(kept, tid)|)
      && (KeyOf(tid, k) in open ==> open[KeyOf(tid, k)] == StackOf(kept, tid)[k])
  }

  /** The ledger once the consumer has caught up with the ring buffer. */
  function Settled(s: Settings, y: System): Ledger {
    FeedAll(s, LedgerOf(y.tracer), y.ring)
  }

  /** The depth map counts the kept frames of every thread. */
  ghost predicate Counts(depth: map<u32, u32>, kept: Stacks<Frame>) {
    && depth.Keys == kept.Keys
    && forall tid | tid in depth :: depth[tid] == |kept[tid]| && |kept[tid]| <= TWO_31
  }

  ghost predicate Refines(s: Settings, y: System, i: Ideal) {
    && y.live == i.live
    && Counts(y.depth, i.kept)
    && Mirrors(s, Settled(s, y).open, i.kept)
    && Settled(s, y).pairs == i.pairs
  }

  lemma SameRoom<V, W>(m: map<u32, V>, n: map<u32, W>)
    requires m.Keys == n.Keys
    ensures |m| == |n|
  {
    assert |m.Keys| == |m| && |n.Keys| == |n|;
  }

  lemma KeysDiffer(t1: u32, k1: int, t2: u32, k2: int)
    ensures KeyOf(t1, k1) == KeyOf(t2, k2) <==> t1 == t2 && k1 == k2
  {}

  lemma FeedEntry(s: Settings, l: Ledger, it: Item, kept: Stacks<Frame>, slot: int)
    requires Mirrors(s, l.open, kept)
    requires it.e.kind.Entry? && Sub64(it.e.ip, s.site.base) in s.site.offsets
    requires slot == s.site.offsets[Sub64(it.e.ip, s.site.base)] && slot in RetSet(s)
    requires it.e.depth == |StackOf(kept, it.e.tid)|
    ensures var l2 := Feed(s, l, it);
            && l2.pairs == l.pairs
            && Mirrors(s, l2.open, kept[it.e.tid := StackOf(kept, it.e.tid) + [FrameOf(slot, it)]])
  {
    var key := KeyOf(it.e.tid, it.e.depth);
    forall tid: u32, k: int
      ensures KeyOf(tid, k) == key <==> tid == it.e.tid && k == it.e.depth
    {
      KeysDiffer(tid, k, it.e.tid, it.e.depth);
    }
  }

  lemma FeedReturn(s: Settings, l: Ledger, it: Item, kept: Stacks<Frame>)
    requires Mirrors(s, l.open, kept) && it.e.kind.Return?
    requires StackOf(kept, it.e.tid) != [] && it.e.depth == |StackOf(kept, it.e.tid)| - 1
    ensures var q, l2 := StackOf(kept, it.e.tid), Feed(s, l, it);
            && Mirrors(s, l2.open, kept[it.e.tid := Front(q)])
            && l2.pairs == if Observed(s, it.e.tid) then l.pairs + [PairOf(Last(q), it)] else l.pairs
  {
    var key := KeyOf(it.e.tid, it.e.depth);
    forall tid: u32, k: int
      ensures KeyOf(tid, k) == key <==> tid == it.e.tid && k == it.e.depth
    {
      KeysDiffer(tid, k, it.e.tid, it.e.depth);
    }
  }

  lemma FeedSpuriousReturn(s: Settings, l: Ledger, it: Item, kept: Stacks<Frame>)
    requires Mirrors(s, l.open, kept) && it.e.kind.Return?
    requires StackOf(kept, it.e.tid) == [] && it.e.depth == 0
    ensures Feed(s, l, it) == l && Mirrors(s, l.open, kept[it.e.tid := []])
  {
    assert KeyOf(it.e.tid, 0) !in l.open;
  }

  /** Appending the event of a tracked entry pushes its frame. */
  lemma PushRefines(s: Settings, y: System, i: Ideal, it: Item, slot: int, d: u32)
    requires Refines(s, y, i)
    requires it.e.kind.Entry? && Sub64(it.e.ip, s.site.base) in s.site.offsets
    requires slot == s.site.offsets[Sub64(it.e.ip, s.site.base)] && slot in RetSet(s)
    requires it.e.tid in i.kept || |i.kept| < DEPTH_ROOM
    requires d == DepthOf(y.depth, it.e.tid) && d < TWO_31 && it.e.depth == d
    ensures Refines(s, y.(depth := Put(y.depth, it.e.tid, d + 1), ring := y.ring + [it]),
                    i.(kept := Put(i.kept, it.e.tid, StackOf(i.kept, it.e.tid) + [FrameOf(slot, it)])))
  {
    FeedAllSnoc(s, LedgerOf(y.tracer), y.ring, it);
    SameRoom(y.depth, i.kept);
    FeedEntry(s, Settled(s, y), it, i.kept, slot);
  }

  /** Appending the event of an untracked entry changes nothing. */
  lemma PassRefines(s: Settings, y: System, i: Ideal, it: Item)
    requires Refines(s, y, i) && it.e.kind.Entry? && it.e.depth == -1
    ensures Refines(s, y.(ring := y.ring + [it]), i)
  {
    FeedAllSnoc(s, LedgerOf(y.tracer), y.ring, it);
  }

  /** The return probes are set exactly on the tracked slots. */
  lemma TrackedIffProbe(s: Settings, call: Call, env: Env)
    ensures IsTracked(KernelTables(s), call) <==> Tracked(s, Activation(call, env))
  {}

  lemma RecordEntryRefines(s: Settings, y: System, i: Ideal, tb: Tables, call: Call, snap: Snapshot, env: Env)
    requires Refines(s, y, i)
    requires tb.base == s.site.base && Probed(s, Activation(call, env))
    requires IsTracked(tb, call) <==> Tracked(s, Activation(call, env))
    requires Tracked(s, Activation(call, env)) ==>
      (call.tid in i.kept || |i.kept| < DEPTH_ROOM) && |StackOf(i.kept, call.tid)| < TWO_31
    ensures Refines(s, RecordEntry(tb, y, call, snap, env), Recorded(s, i, Activation(call, env)))
  {
    var x := Activation(call, env);
    var it := Item(EntryEvent(tb, y.depth, call, snap), env);
    if Tracked(s, x) {
      var d := DepthOf(y.depth, call.tid);
      assert FrameOf(SlotOf(s, x), it) == FrameFor(s, x) && (d + 1) % TWO_32 == d + 1;
      PushRefines(s, y, i, it, SlotOf(s, x), d);
    } else {
      PassRefines(s, y, i, it);
    }
  }

  lemma EnterRefines(s: Settings, y: System, i: Ideal, m: Move, res: Reservation)
    requires Refines(s, y, i) && m.Enter? && Roomy(s, i, Act(m, res))
    ensures Refines(s, ProbeStep(s, y, m, res), RecordStep(s, i, m, res))
  {
    if res.Granted? && Probed(s, Activation(m.call, m.env)) {
      var tb := KernelTables(s);
      TrackedIffProbe(s, m.call, m.env);
      RecordEntryRefines(s, y, i, tb, m.call, SnapshotFor(tb, m.call, m.mem, res.stale), m.env);
    }
  }

  lemma LeaveRefines(s: Settings, y: System, i: Ideal, m: Move, res: Reservation)
    requires Refines(s, y, i) && m.Leave?
    ensures Refines(s, ProbeStep(s, y, m, res), RecordStep(s, i, m, res))
  {
    var tid := m.exit.tid;
    var st, q := StackOf(y.live, tid), StackOf(i.kept, tid);
    if res.Granted? && st != [] && Tracked(s, Last(st)) {
      var it := Item(ReturnEvent(y.depth, m.exit, res.stale), m.env);
      var l := Settled(s, y);
      assert Settled(s, y.(ring := y.ring + [it])) == Feed(s, l, it) by {
        FeedAllSnoc(s, LedgerOf(y.tracer), y.ring, it);
      }
      SameRoom(y.depth, i.kept);
      if q == [] {
        FeedSpuriousReturn(s, l, it, i.kept);
      } else {
        FeedReturn(s, l, it, i.kept);
      }
    }
  }

  lemma {:induction false} RefinementFrom(s: Settings, y0: System, i0: Ideal, acts: seq<Action>)
    requires Refines(s, y0, i0) && FitsFrom(s, i0, acts)
    ensures Refines(s, RunFrom(s, y0, acts), IdealFrom(s, i0, acts))
    decreases |acts|
  {
    if acts != [] {
      var y, i, a := RunFrom(s, y0, Front(acts)), IdealFrom(s, i0, Front(acts)), Last(acts);
      RefinementFrom(s, y0, i0, Front(acts));
      match a
      case Poll =>
        if y.ring != [] {
          ReceiveFeeds(s, y.tracer, y.ring[0]);
        }
      case Command(line) =>
        assert LedgerOf(Step(s, y, a).tracer) == LedgerOf(y.tracer);
      case Act(m, res) =>
        if m.Enter? {
          EnterRefines(s, y, i, m, res);
        } else {
          LeaveRefines(s, y, i, m, res);
        }
    }
  }

  /** The system refines the per-thread stacks: for every run, with any lost records, any
      lag of the consumer and any commands in between. */
  lemma SystemRefinesStacks(s: Settings, acts: seq<Action>)
    requires Fits(s, acts)
    ensures Refines(s, Run(s, acts), IdealRun(s, acts))
  {
    RefinementFrom(s, System(map[], map[], [], Idle(s)), NOTHING, acts);
  }

  // ----- catching up

  function Polls(n: nat): seq<Action> {
    seq(n, _ => Poll)
  }

  lemma {:induction false} PollsReceive(s: Settings, y: System, n: nat)
    requires n <= |y.ring|
    ensures RunFrom(s, y, Polls(n)) == y.(ring := y.ring[n..], tracer := ReceiveAll(s, y.tracer, y.ring[..n]))
    decreases n
  {
    if n > 0 {
      PollsReceive(s, y, n - 1);
      assert Front(Polls(n)) == Polls(n - 1) && Last(Polls(n)) == Poll;
      assert y.ring[..n][..n - 1] == y.ring[..n - 1];
      assert y.ring[n - 1..][1..] == y.ring[n..];
    } else {
      assert y.ring[0..] == y.ring;
    }
  }

  /** The settled ledger is no fiction: it is what the consumer holds once it has polled the
      ring buffer empty. */
  lemma CatchingUp(s: Settings, y: System)
    ensures RunFrom(s, y, Polls(|y.ring|)).ring == []
    ensures LedgerOf(RunFrom(s, y, Polls(|y.ring|)).tracer) == Settled(s, y)
  {
    PollsReceive(s, y, |y.ring|);
    assert y.ring[..|y.ring|] == y.ring;
    ReceiveAllFeeds(s, y.tracer, y.ring);
  }
}
