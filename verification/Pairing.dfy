/** Main results about pairing: lockstep under any loss, exact pairing without loss, bounded
    drift and recovery, and the independence of threads. */
module Pairing {
  import opened Words
  import opened Kernel
  import opened Tracing
  import opened Protocol

  // ----- lockstep

  /** Once the consumer catches up, the open frames of the thread have exactly the depths
      0 .. depth-1 (none, for a thread the consumer does not watch). */
  ghost predicate InLockstep(s: Settings, y: System, tid: u32) {
    forall k: int {:trigger KeyOf(tid, k)} ::
      KeyOf(tid, k) in Settled(s, y).open <==> Observed(s, tid) && 0 <= k < DepthOf(y.depth, tid)
  }

  lemma RefinedIsLockstep(s: Settings, y: System, i: Ideal, tid: u32)
    requires Refines(s, y, i)
    ensures InLockstep(s, y, tid)
  {}

  /** In every reachable state, whatever records were lost and however far the consumer lags,
      the probes' depth and the consumer's frames agree. */
  lemma Lockstep(s: Settings, acts: seq<Action>, tid: u32)
    requires Fits(s, acts)
    ensures InLockstep(s, Run(s, acts), tid)
  {
    SystemRefinesStacks(s, acts);
    RefinedIsLockstep(s, Run(s, acts), IdealRun(s, acts), tid);
  }

  /** The two limits of the depth map are the only threat: a recorded tracked entry keeps its
      thread in lockstep if and only if it finds room. */
  lemma EntryKeepsLockstepIff(s: Settings, y: System, i: Ideal, m: Move, res: Reservation)
    requires Refines(s, y, i) && m.Enter? && res.Granted?
    requires Tracked(s, Activation(m.call, m.env)) && Observed(s, m.call.tid)
    ensures InLockstep(s, ProbeStep(s, y, m, res), m.call.tid) <==> Roomy(s, i, Act(m, res))
  {
    var tid := m.call.tid;
    var y2 := ProbeStep(s, y, m, res);
    if Roomy(s, i, Act(m, res)) {
      EnterRefines(s, y, i, m, res);
      RefinedIsLockstep(s, y2, RecordStep(s, i, m, res), tid);
    } else {
      var tb := KernelTables(s);
      TrackedIffProbe(s, m.call, m.env);
      NoRoom(s, y, i, tb, m.call, SnapshotFor(tb, m.call, m.mem, res.stale), m.env);
    }
  }

  lemma NoRoom(s: Settings, y: System, i: Ideal, tb: Tables, call: Call, snap: Snapshots.Snapshot, env: Env)
    requires Refines(s, y, i) && Observed(s, call.tid)
    requires tb.base == s.site.base && IsTracked(tb, call) && Tracked(s, Activation(call, env))
    requires (call.tid !in i.kept && |i.kept| >= DEPTH_ROOM) || |StackOf(i.kept, call.tid)| >= TWO_31
    ensures !InLockstep(s, RecordEntry(tb, y, call, snap, env), call.tid)
  {
    var tid, y2 := call.tid, RecordEntry(tb, y, call, snap, env);
    var it := Item(EntryEvent(tb, y.depth, call, snap), env);
    FeedAllSnoc(s, LedgerOf(y.tracer), y.ring, it);
    SameRoom(y.depth, i.kept);
    var d := DepthOf(y.depth, tid);
    if tid in i.kept {
      assert d == TWO_31 && DepthOf(y2.depth, tid) == TWO_31 + 1;
      assert Settled(s, y2) == Settled(s, y);
      assert KeyOf(tid, TWO_31) !in Settled(s, y2).open;
    } else {
      assert DepthOf(y2.depth, tid) == 0;
      assert KeyOf(tid, 0) in Settled(s, y2).open;
    }
  }

  // ----- a run with few threads and few calls has room

  function Threads(acts: seq<Action>): set<u32> {
    set a | a in acts && a.Act? :: a.move.Tid()
  }

  lemma StepKeepsSmall(s: Settings, i: Ideal, a: Action, tid: u32)
    ensures var i2 := IdealStep(s, i, a);
            && i2.kept.Keys <= i.kept.Keys + (if a.Act? then {a.move.Tid()} else {})
            && |StackOf(i2.kept, tid)| <= |StackOf(i.kept, tid)| + 1
  {}

  lemma {:induction false} KeptIsSmall(s: Settings, acts: seq<Action>, tid: u32)
    ensures IdealRun(s, acts).kept.Keys <= Threads(acts)
    ensures |StackOf(IdealRun(s, acts).kept, tid)| <= |acts|
    decreases |acts|
  {
    if acts != [] {
      var front, a := Front(acts), Last(acts);
      KeptIsSmall(s, front, tid);
      StepKeepsSmall(s, IdealRun(s, front), a, tid);
      ThreadsSnoc(front, a);
      assert acts == front + [a];
    }
  }

  lemma ThreadsSnoc(front: seq<Action>, a: Action)
    ensures Threads(front + [a]) == Threads(front) + if a.Act? then {a.move.Tid()} else {}
  {
    forall tid | tid in Threads(front)
      ensures tid in Threads(front + [a])
    {
      var x :| x in front && x.Act? && x.move.Tid() == tid;
      assert x in front + [a];
    }
    assert a in front + [a];
  }

  lemma SubsetSize<T>(a: set<T>, b: set<T>)
    requires a <= b
    ensures |a| <= |b|
  {
    if a != b {
      assert b == a + (b - a);
    }
  }

  lemma KeptSize<V>(m: map<u32, V>, tid: u32)
    requires tid !in m
    ensures |m.Keys + {tid}| == |m| + 1
  {
    assert |m.Keys| == |m|;
  }

  /** At most 4096 threads and 2^31 moves always fit. */
  lemma {:induction false} SmallRunsFit(s: Settings, acts: seq<Action>)
    requires |Threads(acts)| <= 4096 && |acts| <= 0x8000_0000
    ensures Fits(s, acts)
    decreases |acts|
  {
    if acts != [] {
      var front, a := Front(acts), Last(acts);
      assert acts == front + [a];
      ThreadsSnoc(front, a);
      SubsetSize(Threads(front), Threads(acts));
      SmallRunsFit(s, front);
      var i := IdealRun(s, front);
      if a.Act? {
        KeptIsSmall(s, front, a.move.Tid());
      }
      if a.Act? && a.move.Tid() !in i.kept {
        KeptSize(i.kept, a.move.Tid());
        SubsetSize(i.kept.Keys + {a.move.Tid()}, Threads(acts));
      }
    }
  }

  // ----- what happens on one thread

  function TrackedFrames(s: Settings, xs: seq<Activation>): seq<Frame> {
    if xs == [] then []
    else TrackedFrames(s, Front(xs)) + if Tracked(s, Last(xs)) then [FrameFor(s, Last(xs))] else []
  }

  function LiveFrom(live: Stacks<Activation>, acts: seq<Action>): Stacks<Activation> {
    if acts == [] then live
    else
      var before := LiveFrom(live, Front(acts));
      if Last(acts).Act? then TargetStep(before, Last(acts).move) else before
  }

  lemma {:induction false} LiveIs(s: Settings, i: Ideal, acts: seq<Action>)
    ensures IdealFrom(s, i, acts).live == LiveFrom(i.live, acts)
    decreases |acts|
  {
    if acts != [] {
      LiveIs(s, i, Front(acts));
    }
  }

  predicate LosslessFor(acts: seq<Action>, tid: u32) {
    forall a | a in acts :: a.Act? && a.move.Tid() == tid ==> a.res.Granted?
  }

  predicate Lossless(acts: seq<Action>) {
    forall a | a in acts :: a.Act? ==> a.res.Granted?
  }

  /** The thread's kept frames are `junk` and the tracked calls above its b-th live one. */
  predicate OnTopOf(s: Settings, i: Ideal, tid: u32, junk: seq<Frame>, b: nat) {
    var st := StackOf(i.live, tid);
    b <= |st| && StackOf(i.kept, tid) == junk + TrackedFrames(s, st[b..])
  }

  /** The match that a return of the innermost call, `Last(st)`, deserves. */
  function TrueMatch(s: Settings, st: seq<Activation>, exit: Exit, env: Env, b: nat, shift: nat): Pair
    requires b < |st| && Tracked(s, Last(st))
  {
    MatchOf(FrameFor(s, Last(st)), exit, shift + |TrackedFrames(s, Front(st)[b..])|, env)
  }

  lemma EnterOnTop(s: Settings, i: Ideal, m: Move, res: Reservation, junk: seq<Frame>, b: nat)
    requires OnTopOf(s, i, m.Tid(), junk, b) && Roomy(s, i, Act(m, res)) && res.Granted? && m.Enter?
    ensures OnTopOf(s, IdealStep(s, i, Act(m, res)), m.Tid(), junk, b)
    ensures IdealStep(s, i, Act(m, res)).pairs == i.pairs
  {
    var st, x := StackOf(i.live, m.Tid()), Activation(m.call, m.env);
    assert (st + [x])[b..] == st[b..] + [x];
    assert Front(st[b..] + [x]) == st[b..] && Last(st[b..] + [x]) == x;
  }

  /** The frames of a stack of calls, with the innermost one set apart. */
  lemma TrackedSplit(s: Settings, st: seq<Activation>, b: nat)
    requires b < |st|
    ensures TrackedFrames(s, st[b..])
         == TrackedFrames(s, Front(st)[b..]) + if Tracked(s, Last(st)) then [FrameFor(s, Last(st))] else []
  {
    assert Front(st[b..]) == Front(st)[b..] && Last(st[b..]) == Last(st);
  }

  lemma LeaveOnTop(s: Settings, i: Ideal, m: Move, res: Reservation, junk: seq<Frame>, b: nat)
    requires OnTopOf(s, i, m.Tid(), junk, b) && res.Granted? && m.Leave? && |StackOf(i.live, m.Tid())| > b
    ensures OnTopOf(s, IdealStep(s, i, Act(m, res)), m.Tid(), junk, b)
    ensures var st := StackOf(i.live, m.Tid());
            IdealStep(s, i, Act(m, res)).pairs
            == if Tracked(s, Last(st)) && Observed(s, m.Tid())
               then i.pairs + [TrueMatch(s, st, m.exit, m.env, b, |junk|)] else i.pairs
  {
    var tid := m.Tid();
    var st, q := StackOf(i.live, tid), StackOf(i.kept, tid);
    var below := junk + TrackedFrames(s, Front(st)[b..]);
    TrackedSplit(s, st, b);
    if Tracked(s, Last(st)) {
      assert q == below + [FrameFor(s, Last(st))];
      assert Front(q) == below && Last(q) == FrameFor(s, Last(st)) && tid in i.kept;
    } else {
      assert q == below;
    }
  }

  /** A recorded move of the thread keeps the kept frames on top of `junk`, and a return takes
      the frame of the very call that returns. */
  lemma MoveOnTop(s: Settings, i: Ideal, m: Move, res: Reservation, junk: seq<Frame>, b: nat)
    requires OnTopOf(s, i, m.Tid(), junk, b) && Roomy(s, i, Act(m, res)) && res.Granted?
    requires m.Leave? ==> |StackOf(i.live, m.Tid())| > b
    ensures OnTopOf(s, IdealStep(s, i, Act(m, res)), m.Tid(), junk, b)
    ensures var st := StackOf(i.live, m.Tid());
            IdealStep(s, i, Act(m, res)).pairs
            == if m.Leave? && Tracked(s, Last(st)) && Observed(s, m.Tid())
               then i.pairs + [TrueMatch(s, st, m.exit, m.env, b, |junk|)] else i.pairs
  {
    if m.Enter? {
      EnterOnTop(s, i, m, res, junk, b);
    } else {
      LeaveOnTop(s, i, m, res, junk, b);
    }
  }

  lemma OtherMove(s: Settings, i: Ideal, a: Action, tid: u32)
    requires a.Act? ==> a.move.Tid() != tid
    ensures var i2 := IdealStep(s, i, a);
            StackOf(i2.live, tid) == StackOf(i.live, tid) && StackOf(i2.kept, tid) == StackOf(i.kept, tid)
    ensures MatchesOn(IdealStep(s, i, a).pairs, tid) == MatchesOn(i.pairs, tid)
  {}

  function MatchesOn(pairs: seq<Pair>, tid: u32): seq<Pair> {
    if pairs == [] then []
    else MatchesOn(Front(pairs), tid) + if Last(pairs).tid == tid then [Last(pairs)] else []
  }

  // ----- recovery

  /** The thread never returns below its b-th live call. */
  predicate StaysAbove(live: Stacks<Activation>, acts: seq<Action>, tid: u32, b: nat) {
    && |StackOf(LiveFrom(live, acts), tid)| >= b
    && (acts != [] ==>
          && StaysAbove(live, Front(acts), tid, b)
          && (Last(acts).Act? && Last(acts).move.Leave? && Last(acts).move.Tid() == tid ==>
                |StackOf(LiveFrom(live, Front(acts)), tid)| > b))
  }

  /** The matches a segment deserves on one thread, depths counted from `shift`. */
  function TrueMatchesOn(s: Settings, live: Stacks<Activation>, acts: seq<Action>, tid: u32, b: nat, shift: nat): seq<Pair> {
    if acts == [] then []
    else
      TrueMatchesOn(s, live, Front(acts), tid, b, shift)
      + StepMatch(s, StackOf(LiveFrom(live, Front(acts)), tid), Last(acts), tid, b, shift)
  }

  /** The match that one move deserves on the thread, whose live calls are `st`. */
  function StepMatch(s: Settings, st: seq<Activation>, a: Action, tid: u32, b: nat, shift: nat): seq<Pair> {
    if a.Act? && a.move.Leave? && a.move.Tid() == tid && |st| > b && Tracked(s, Last(st)) && Observed(s, tid)
    then [TrueMatch(s, st, a.move.exit, a.move.env, b, shift)] else []
  }

  lemma Regroup(x: seq<Pair>, y: seq<Pair>, z: seq<Pair>)
    ensures (x + y) + z == x + (y + z)
  {}

  /** From any state, however its frames drifted from the true calls: while a thread loses no
      record and stays above where it was, its calls pair exactly, on top of whatever frames
      were left behind. Other threads may lose what they like. */
  lemma {:induction false} Recovery(s: Settings, i0: Ideal, acts: seq<Action>, tid: u32)
    requires FitsFrom(s, i0, acts) && LosslessFor(acts, tid)
    requires StaysAbove(i0.live, acts, tid, |StackOf(i0.live, tid)|)
    ensures var i, b, junk := IdealFrom(s, i0, acts), |StackOf(i0.live, tid)|, StackOf(i0.kept, tid);
            && OnTopOf(s, i, tid, junk, b)
            && MatchesOn(i.pairs, tid) == MatchesOn(i0.pairs, tid) + TrueMatchesOn(s, i0.live, acts, tid, b, |junk|)
    decreases |acts|
  {
    if acts != [] {
      var i, a := IdealFrom(s, i0, Front(acts)), Last(acts);
      assert LosslessFor(Front(acts), tid) && a in acts;
      var b, junk := |StackOf(i0.live, tid)|, StackOf(i0.kept, tid);
      Recovery(s, i0, Front(acts), tid);
      LiveIs(s, i0, Front(acts));
      RecoveryStep(s, i, a, tid, junk, b);
      Regroup(MatchesOn(i0.pairs, tid), TrueMatchesOn(s, i0.live, Front(acts), tid, b, |junk|),
              StepMatch(s, StackOf(i.live, tid), a, tid, b, |junk|));
    } else {
      assert StackOf(i0.kept, tid) + [] == StackOf(i0.kept, tid);
    }
  }

  lemma RecoveryStep(s: Settings, i: Ideal, a: Action, tid: u32, junk: seq<Frame>, b: nat)
    requires OnTopOf(s, i, tid, junk, b) && Roomy(s, i, a)
    requires a.Act? && a.move.Tid() == tid ==> a.res.Granted? && (a.move.Leave? ==> |StackOf(i.live, tid)| > b)
    ensures OnTopOf(s, IdealStep(s, i, a), tid, junk, b)
    ensures var st := StackOf(i.live, tid);
            MatchesOn(IdealStep(s, i, a).pairs, tid) == MatchesOn(i.pairs, tid) + StepMatch(s, st, a, tid, b, |junk|)
  {
    if a.Act? && a.move.Tid() == tid {
      MoveOnTop(s, i, a.move, a.res, junk, b);
      MatchesSnoc(i.pairs, IdealStep(s, i, a).pairs, tid);
    } else {
      OtherMove(s, i, a, tid);
    }
  }

  lemma MatchesSnoc(before: seq<Pair>, after: seq<Pair>, tid: u32)
    requires after == before || (after != [] && after == before + [Last(after)])
    ensures MatchesOn(after, tid)
         == MatchesOn(before, tid) + if after != before && Last(after).tid == tid then [Last(after)] else []
  {
    if after != before {
      assert Front(after) == before;
    }
  }

  /** A balanced loss-free segment leaves depth and frames of its thread as it found them. */
  lemma BalancedSegmentRestores(s: Settings, y0: System, i0: Ideal, acts: seq<Action>, tid: u32)
    requires Refines(s, y0, i0) && FitsFrom(s, i0, acts) && LosslessFor(acts, tid)
    requires StaysAbove(y0.live, acts, tid, |StackOf(y0.live, tid)|)
    requires |StackOf(LiveFrom(y0.live, acts), tid)| == |StackOf(y0.live, tid)|
    ensures var y := RunFrom(s, y0, acts);
            && DepthOf(y.depth, tid) == DepthOf(y0.depth, tid)
            && (forall k: int {:trigger KeyOf(tid, k)} ::
                  && (KeyOf(tid, k) in Settled(s, y).open <==> KeyOf(tid, k) in Settled(s, y0).open)
                  && (KeyOf(tid, k) in Settled(s, y0).open ==>
                        Settled(s, y).open[KeyOf(tid, k)] == Settled(s, y0).open[KeyOf(tid, k)]))
            && MatchesOn(Settled(s, y).pairs, tid)
               == MatchesOn(Settled(s, y0).pairs, tid)
                  + TrueMatchesOn(s, y0.live, acts, tid, |StackOf(y0.live, tid)|, DepthOf(y0.depth, tid))
  {
    RefinementFrom(s, y0, i0, acts);
    Recovery(s, i0, acts, tid);
    LiveIs(s, i0, acts);
    var st := StackOf(LiveFrom(y0.live, acts), tid);
    assert st[|st|..] == [];
    assert StackOf(i0.kept, tid) + [] == StackOf(i0.kept, tid);
  }

  // ----- pairing without loss

  /** The matches a whole run deserves, over all threads, in the order of the returns. */
  function TrueMatches(s: Settings, acts: seq<Action>): seq<Pair> {
    if acts == [] then []
    else
      var a := Last(acts);
      TrueMatches(s, Front(acts))
      + if !a.Act? then []
        else StepMatch(s, StackOf(LiveFrom(map[], Front(acts)), a.move.Tid()), a, a.move.Tid(), 0, 0)
  }

  lemma {:induction false} IdealPairing(s: Settings, acts: seq<Action>)
    requires Fits(s, acts) && Lossless(acts)
    ensures forall tid: u32 :: OnTopOf(s, IdealRun(s, acts), tid, [], 0)
    ensures IdealRun(s, acts).pairs == TrueMatches(s, acts)
    decreases |acts|
  {
    if acts != [] {
      var i, a := IdealRun(s, Front(acts)), Last(acts);
      assert Lossless(Front(acts)) && a in acts;
      IdealPairing(s, Front(acts));
      LiveIs(s, NOTHING, Front(acts));
      forall tid: u32
        ensures OnTopOf(s, IdealStep(s, i, a), tid, [], 0)
      {
        assert OnTopOf(s, i, tid, [], 0);
        if a.Act? && a.move.Tid() == tid && (a.move.Enter? || StackOf(i.live, tid) != []) {
          MoveOnTop(s, i, a.move, a.res, [], 0);
        } else if a.Act? && a.move.Tid() == tid {
          assert IdealStep(s, i, a) == i;
        } else {
          OtherMove(s, i, a, tid);
        }
      }
      if a.Act? && (a.move.Enter? || StackOf(i.live, a.move.Tid()) != []) {
        assert OnTopOf(s, i, a.move.Tid(), [], 0);
        MoveOnTop(s, i, a.move, a.res, [], 0);
      }
    }
  }

  /** Without lost records, for every interleaving, every tracked subset, every lag and any
      commands: each tracked return is matched with the frame of its own call, stamped with
      the number of tracked calls below it, and nothing else is matched. The open frames are
      exactly the active tracked calls of the watched threads. */
  lemma PairingIsExact(s: Settings, acts: seq<Action>)
    requires Fits(s, acts) && Lossless(acts)
    ensures Settled(s, Run(s, acts)).pairs == TrueMatches(s, acts)
    ensures forall tid: u32 ::
      DepthOf(Run(s, acts).depth, tid) == |TrackedFrames(s, StackOf(Run(s, acts).live, tid))|
    ensures forall tid: u32, k: int {:trigger KeyOf(tid, k)} ::
      var open, calls := Settled(s, Run(s, acts)).open, TrackedFrames(s, StackOf(Run(s, acts).live, tid));
      && (KeyOf(tid, k) in open <==> Observed(s, tid) && 0 <= k < |calls|)
      && (KeyOf(tid, k) in open ==> open[KeyOf(tid, k)] == calls[k])
  {
    SystemRefinesStacks(s, acts);
    IdealPairing(s, acts);
    forall tid: u32
      ensures StackOf(IdealRun(s, acts).kept, tid) == TrackedFrames(s, StackOf(Run(s, acts).live, tid))
    {
      assert OnTopOf(s, IdealRun(s, acts), tid, [], 0);
      WholeStack(s, IdealRun(s, acts), tid);
    }
  }

  lemma WholeStack(s: Settings, i: Ideal, tid: u32)
    requires OnTopOf(s, i, tid, [], 0)
    ensures StackOf(i.kept, tid) == TrackedFrames(s, StackOf(i.live, tid))
  {
    var st := StackOf(i.live, tid);
    assert st[0..] == st;
    assert [] + TrackedFrames(s, st) == TrackedFrames(s, st);
  }

  // ----- drift

  function DroppedEntries(s: Settings, acts: seq<Action>, tid: u32): nat {
    if acts == [] then 0
    else
      var a := Last(acts);
      DroppedEntries(s, Front(acts), tid)
      + if a.Act? && a.move.Enter? && a.move.Tid() == tid && a.res.Full?
           && Tracked(s, Activation(a.move.call, a.move.env)) then 1 else 0
  }

  function DroppedReturns(s: Settings, acts: seq<Action>, tid: u32): nat {
    if acts == [] then 0
    else
      var a, st := Last(acts), StackOf(LiveFrom(map[], Front(acts)), tid);
      DroppedReturns(s, Front(acts), tid)
      + if a.Act? && a.move.Leave? && a.move.Tid() == tid && a.res.Full?
           && st != [] && Tracked(s, Last(st)) then 1 else 0
  }

  lemma {:induction false} IdealDrift(s: Settings, acts: seq<Action>, tid: u32)
    requires Fits(s, acts)
    ensures var kept, active := |StackOf(IdealRun(s, acts).kept, tid)|, |TrackedFrames(s, StackOf(LiveFrom(map[], acts), tid))|;
            && active - DroppedEntries(s, acts, tid) <= kept <= active + DroppedReturns(s, acts, tid)
            && (DroppedEntries(s, acts, tid) == 0 ==> kept == active + DroppedReturns(s, acts, tid))
    decreases |acts|
  {
    if acts != [] {
      var a := Last(acts);
      IdealDrift(s, Front(acts), tid);
      LiveIs(s, NOTHING, Front(acts));
      var i := IdealRun(s, Front(acts));
      if a.Act? && a.move.Tid() == tid {
        var st := StackOf(i.live, tid);
        if a.move.Enter? {
          assert Front(st + [Activation(a.move.call, a.move.env)]) == st;
        }
      } else {
        OtherMove(s, i, a, tid);
      }
    }
  }

  /** How far the depth can stray from the true number of active tracked calls: one down for
      every lost entry, one up for every lost return. Lost returns alone add up exactly; lost
      entries alone never leave a quiet thread at a positive depth. */
  lemma DriftIsBounded(s: Settings, acts: seq<Action>, tid: u32)
    requires Fits(s, acts)
    ensures var y := Run(s, acts);
            var depth: int, active := DepthOf(y.depth, tid), |TrackedFrames(s, StackOf(y.live, tid))|;
            && active - DroppedEntries(s, acts, tid) <= depth <= active + DroppedReturns(s, acts, tid)
            && (DroppedEntries(s, acts, tid) == 0 ==> depth == active + DroppedReturns(s, acts, tid))
            && (DroppedReturns(s, acts, tid) == 0 && active == 0 ==> depth == 0)
  {
    SystemRefinesStacks(s, acts);
    IdealDrift(s, acts, tid);
    LiveIs(s, NOTHING, acts);
  }

  // ----- threads do not interfere

  /** The moves of one thread, alone. */
  function Own(acts: seq<Action>, tid: u32): seq<Action> {
    if acts == [] then []
    else Own(Front(acts), tid) + if Last(acts).Act? && Last(acts).move.Tid() == tid then [Last(acts)] else []
  }

  /** `own` has seen this thread only, and the same of it as `all`. */
  predicate SameOn(all: Ideal, own: Ideal, tid: u32) {
    && StackOf(own.live, tid) == StackOf(all.live, tid)
    && StackOf(own.kept, tid) == StackOf(all.kept, tid)
    && own.pairs == MatchesOn(all.pairs, tid)
    && own.kept.Keys <= {tid}
  }

  lemma {:induction false} OwnMovesSuffice(s: Settings, acts: seq<Action>, tid: u32)
    requires Fits(s, acts)
    ensures Fits(s, Own(acts, tid)) && SameOn(IdealRun(s, acts), IdealRun(s, Own(acts, tid)), tid)
    decreases |acts|
  {
    if acts != [] {
      var a := Last(acts);
      OwnMovesSuffice(s, Front(acts), tid);
      var all, own := IdealRun(s, Front(acts)), IdealRun(s, Own(Front(acts), tid));
      if a.Act? && a.move.Tid() == tid {
        assert Front(Own(acts, tid)) == Own(Front(acts), tid) && Last(Own(acts, tid)) == a;
        SubsetSize(own.kept.Keys, {tid});
        assert |own.kept| == |own.kept.Keys|;
        if a.move.Enter? {
          OwnEnter(s, all, own, a.move, a.res);
        } else {
          OwnLeave(s, all, own, a.move, a.res);
        }
      } else {
        assert Own(acts, tid) == Own(Front(acts), tid);
        OtherMove(s, all, a, tid);
      }
    }
  }

  lemma OwnEnter(s: Settings, all: Ideal, own: Ideal, m: Move, res: Reservation)
    requires m.Enter? && Roomy(s, all, Act(m, res)) && SameOn(all, own, m.Tid()) && |own.kept| <= 1
    ensures Roomy(s, own, Act(m, res))
    ensures SameOn(IdealStep(s, all, Act(m, res)), IdealStep(s, own, Act(m, res)), m.Tid())
  {}

  lemma OwnLeave(s: Settings, all: Ideal, own: Ideal, m: Move, res: Reservation)
    requires m.Leave? && SameOn(all, own, m.Tid()) && |own.kept| <= 1
    ensures SameOn(IdealStep(s, all, Act(m, res)), IdealStep(s, own, Act(m, res)), m.Tid())
  {
    var i2 := IdealStep(s, all, Act(m, res));
    if i2.pairs != all.pairs {
      assert Front(i2.pairs) == all.pairs;
    }
  }

  /** What the tracer makes of one thread is what it would make of that thread's own moves:
      same depth, same open frames, same matches. */
  lemma ThreadsAreIndependent(s: Settings, acts: seq<Action>, tid: u32)
    requires Fits(s, acts)
    ensures var all, own := Run(s, acts), Run(s, Own(acts, tid));
            && DepthOf(own.depth, tid) == DepthOf(all.depth, tid)
            && (forall k: int {:trigger KeyOf(tid, k)} ::
                  && (KeyOf(tid, k) in Settled(s, own).open <==> KeyOf(tid, k) in Settled(s, all).open)
                  && (KeyOf(tid, k) in Settled(s, all).open ==>
                        Settled(s, own).open[KeyOf(tid, k)] == Settled(s, all).open[KeyOf(tid, k)]))
            && Settled(s, own).pairs == MatchesOn(Settled(s, all).pairs, tid)
  {
    OwnMovesSuffice(s, acts, tid);
    SystemRefinesStacks(s, acts);
    SystemRefinesStacks(s, Own(acts, tid));
  }
}
