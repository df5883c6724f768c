/** Main result about durations: they never wrap, and nested calls share out their parent's
    time. Lost records do not change that. */
module Durations {
  import opened Words
  import opened Kernel
  import opened Tracing
  import opened Protocol
  import opened Pairing

  function TsOf(m: Move): u64 {
    if m.Enter? then m.call.ts else m.exit.ts
  }

  /** Time of the thread's latest move. */
  function Clock(acts: seq<Action>, tid: u32): u64 {
    if acts == [] then 0
    else if Last(acts).Act? && Last(acts).move.Tid() == tid then TsOf(Last(acts).move)
    else Clock(Front(acts), tid)
  }

  /** The clock never runs backwards on one thread. */
  predicate Clocked(acts: seq<Action>) {
    acts == [] ||
    (Clocked(Front(acts)) &&
     (Last(acts).Act? ==> Clock(Front(acts), Last(acts).move.Tid()) <= TsOf(Last(acts).move)))
  }

  function Duration(p: Pair): nat {
    if p.call.ts <= p.ts then p.ts - p.call.ts else 0
  }

  /** Time spent in the matched calls one level below depth `d` on the thread, looking back
      from the end until a match at depth `d` or less: the direct children of the call that
      is open at depth `d`. */
  function ChildTime(pairs: seq<Pair>, tid: u32, d: int): nat {
    if pairs == [] then 0
    else
      var p := Last(pairs);
      if p.tid != tid then ChildTime(Front(pairs), tid, d)
      else if p.depth <= d then 0
      else (if p.depth == d + 1 then Duration(p) else 0) + ChildTime(Front(pairs), tid, d)
  }

  /** A match that closes at the end of `before` took at least as long as its children. */
  predicate Covers(before: seq<Pair>, p: Pair) {
    p.call.ts <= p.ts && ChildTime(before, p.tid, p.depth) <= p.ts - p.call.ts
  }

  predicate AllCover(pairs: seq<Pair>) {
    forall j | 0 <= j < |pairs| :: Covers(pairs[..j], pairs[j])
  }

  /** Frame `k` started, and its closed children fit, before the next frame or `now`. */
  predicate LevelTimed(q: seq<Frame>, pairs: seq<Pair>, tid: u32, now: int, k: nat)
    requires k < |q|
  {
    q[k].ts + ChildTime(pairs, tid, k) <= if k + 1 < |q| then q[k + 1].ts else now
  }

  ghost predicate Timed(i: Ideal, tid: u32, now: int) {
    var q := StackOf(i.kept, tid);
    && (forall k | 0 <= k < |q| :: LevelTimed(q, i.pairs, tid, now, k))
    && (forall k: int {:trigger ChildTime(i.pairs, tid, k)} :: k >= |q| ==> ChildTime(i.pairs, tid, k) == 0)
  }

  lemma LaterTimed(i: Ideal, tid: u32, now: int, later: int)
    requires Timed(i, tid, now) && now <= later
    ensures Timed(i, tid, later)
  {
    var q := StackOf(i.kept, tid);
    forall k | 0 <= k < |q|
      ensures LevelTimed(q, i.pairs, tid, later, k)
    {
      assert LevelTimed(q, i.pairs, tid, now, k);
    }
  }

  lemma PushTimed(s: Settings, i: Ideal, x: Activation, now: int)
    requires Timed(i, x.call.tid, now) && now <= x.call.ts
    ensures Timed(Recorded(s, i, x), x.call.tid, x.call.ts)
  {
    var tid, i2 := x.call.tid, Recorded(s, i, x);
    var q, q2 := StackOf(i.kept, tid), StackOf(i2.kept, tid);
    forall k | 0 <= k < |q2|
      ensures LevelTimed(q2, i2.pairs, tid, x.call.ts, k)
    {
      if k < |q| {
        assert LevelTimed(q, i.pairs, tid, now, k);
      }
    }
  }

  lemma ChildTimeSnoc(pairs: seq<Pair>, p: Pair, tid: u32, d: int)
    ensures ChildTime(pairs + [p], tid, d)
         == if p.tid != tid then ChildTime(pairs, tid, d)
            else if p.depth <= d then 0
            else (if p.depth == d + 1 then Duration(p) else 0) + ChildTime(pairs, tid, d)
  {
    assert Front(pairs + [p]) == pairs;
  }

  lemma PopTimed(s: Settings, i: Ideal, m: Move, res: Reservation, now: int)
    requires Timed(i, m.Tid(), now) && m.Leave? && now <= m.exit.ts && Observed(s, m.Tid())
    ensures Timed(RecordStep(s, i, m, res), m.exit.tid, m.exit.ts)
    ensures var i2 := RecordStep(s, i, m, res);
            i2.pairs == i.pairs || (i2.pairs == i.pairs + [Last(i2.pairs)] && Covers(i.pairs, Last(i2.pairs)))
  {
    var tid := m.exit.tid;
    var i2, q := RecordStep(s, i, m, res), StackOf(i.kept, tid);
    var q2 := StackOf(i2.kept, tid);
    forall k: int
      ensures k >= |q2| ==> ChildTime(i2.pairs, tid, k) == 0
      ensures 0 <= k < |q2| ==> LevelTimed(q2, i2.pairs, tid, m.exit.ts, k)
    {
      if q != [] {
        assert LevelTimed(q, i.pairs, tid, now, |q| - 1);
      }
      if 0 <= k < |q2| {
        assert LevelTimed(q, i.pairs, tid, now, k);
      }
      if i2.pairs != i.pairs {
        ChildTimeSnoc(i.pairs, MatchOf(Last(q), m.exit, |q| - 1, m.env), tid, k);
      }
    }
    if i2.pairs != i.pairs {
      assert LevelTimed(q, i.pairs, tid, now, |q| - 1);
      assert i2.pairs == i.pairs + [MatchOf(Last(q), m.exit, |q| - 1, m.env)];
    }
  }

  lemma OtherTimed(s: Settings, i: Ideal, a: Action, tid: u32, now: int)
    requires Timed(i, tid, now) && (a.Act? ==> a.move.Tid() != tid)
    ensures Timed(IdealStep(s, i, a), tid, now)
  {
    var i2 := IdealStep(s, i, a);
    var q := StackOf(i.kept, tid);
    OtherMove(s, i, a, tid);
    forall k: int
      ensures ChildTime(i2.pairs, tid, k) == ChildTime(i.pairs, tid, k)
      ensures 0 <= k < |q| ==> LevelTimed(q, i2.pairs, tid, now, k)
    {
      if i2.pairs != i.pairs {
        ChildTimeSnoc(i.pairs, Last(i2.pairs), tid, k);
        assert i2.pairs == i.pairs + [Last(i2.pairs)];
      }
      if 0 <= k < |q| {
        assert LevelTimed(q, i.pairs, tid, now, k);
      }
    }
  }

  lemma CoverSnoc(pairs: seq<Pair>, p: Pair)
    requires AllCover(pairs) && Covers(pairs, p)
    ensures AllCover(pairs + [p])
  {
    var all := pairs + [p];
    forall j | 0 <= j < |all|
      ensures Covers(all[..j], all[j])
    {
      assert all[..j] == pairs[..j];
      if j < |pairs| {
        assert Covers(pairs[..j], pairs[j]);
      } else {
        assert pairs[..j] == pairs;
      }
    }
  }

  lemma {:induction false} IdealDurations(s: Settings, acts: seq<Action>)
    requires Clocked(acts)
    ensures AllCover(IdealRun(s, acts).pairs)
    ensures forall tid: u32 :: Observed(s, tid) ==> Timed(IdealRun(s, acts), tid, Clock(acts, tid))
    decreases |acts|
  {
    if acts != [] {
      var i, a := IdealRun(s, Front(acts)), Last(acts);
      IdealDurations(s, Front(acts));
      forall tid: u32 | Observed(s, tid)
        ensures Timed(IdealStep(s, i, a), tid, Clock(acts, tid))
      {
        var now := Clock(Front(acts), tid);
        assert Timed(i, tid, now);
        if a.Act? && a.move.Tid() == tid {
          MoveTimed(s, i, a, now);
        } else {
          OtherTimed(s, i, a, tid, now);
        }
      }
      if a.Act? && Observed(s, a.move.Tid()) {
        assert Timed(i, a.move.Tid(), Clock(Front(acts), a.move.Tid()));
        MoveTimed(s, i, a, Clock(Front(acts), a.move.Tid()));
        var i2 := IdealStep(s, i, a);
        if i2.pairs != i.pairs {
          CoverSnoc(i.pairs, Last(i2.pairs));
        }
      }
    }
  }

  lemma MoveTimed(s: Settings, i: Ideal, a: Action, now: int)
    requires a.Act? && Timed(i, a.move.Tid(), now) && now <= TsOf(a.move) && Observed(s, a.move.Tid())
    ensures var i2 := IdealStep(s, i, a);
            && Timed(i2, a.move.Tid(), TsOf(a.move))
            && (i2.pairs == i.pairs || (i2.pairs == i.pairs + [Last(i2.pairs)] && Covers(i.pairs, Last(i2.pairs))))
  {
    LaterTimed(i, a.move.Tid(), now, TsOf(a.move));
    if a.move.Enter? {
      PushTimed(s, i, Activation(a.move.call, a.move.env), now);
    } else {
      PopTimed(s, i, a.move, a.res, now);
    }
  }

  lemma SubtractionIsExact(a: u64, b: u64)
    requires b <= a
    ensures Sub64(a, b) as int == a as int - b as int
  {}

  /** With a clock that never runs backwards on a thread, whatever records are lost: no match
      returns before its call, so the 64-bit subtraction of its times is exact, and its
      direct tracked children take together at most its own time. */
  lemma DurationsNest(s: Settings, acts: seq<Action>, pairs: seq<Pair>, j: nat)
    requires Fits(s, acts) && Clocked(acts)
    requires pairs == Settled(s, Run(s, acts)).pairs && j < |pairs|
    ensures Sub64(pairs[j].ts, pairs[j].call.ts) as int == pairs[j].ts as int - pairs[j].call.ts as int
    ensures ChildTime(pairs[..j], pairs[j].tid, pairs[j].depth) <= pairs[j].ts - pairs[j].call.ts
  {
    assert pairs == IdealRun(s, acts).pairs by {
      SystemRefinesStacks(s, acts);
    }
    IdealDurations(s, acts);
    assert Covers(pairs[..j], pairs[j]);
    SubtractionIsExact(pairs[j].ts, pairs[j].call.ts);
  }

  // ----- the target's own call tree

  /** Of the calls `st` the innermost is tracked, and its innermost tracked caller is `st[level]`. */
  predicate ChildOf(s: Settings, st: seq<Activation>, level: nat) {
    level + 1 < |st| && Tracked(s, Last(st)) && forall i | level < i < |st| - 1 :: !Tracked(s, st[i])
  }

  function Elapsed(from: u64, to: u64): nat {
    if from <= to then to - from else 0
  }

  /** Time spent so far in the tracked calls whose innermost tracked caller is the call that
      now stands at `level` of the thread's true stack. */
  function TimeInChildren(s: Settings, acts: seq<Action>, tid: u32, level: nat): nat {
    if acts == [] then 0
    else
      var before, a := TimeInChildren(s, Front(acts), tid, level), Last(acts);
      var st := StackOf(LiveFrom(map[], Front(acts)), tid);
      if !a.Act? || a.move.Tid() != tid then before
      else if a.move.Enter? then if |st| <= level then 0 else before
      else if |st| <= level + 1 then 0
      else before + if ChildOf(s, st, level) then Elapsed(Last(st).call.ts, a.move.exit.ts) else 0
  }

  lemma {:induction false} FramesSplit(s: Settings, st: seq<Activation>, level: nat)
    requires level < |st| && Tracked(s, st[level])
    ensures |TrackedFrames(s, st)| > |TrackedFrames(s, st[..level])|
    ensures |TrackedFrames(s, st)| == |TrackedFrames(s, st[..level])| + 1 <==> forall i | level < i < |st| :: !Tracked(s, st[i])
    decreases |st|
  {
    var front := Front(st);
    if level < |front| {
      FramesSplit(s, front, level);
      assert front[..level] == st[..level];
    } else {
      assert front == st[..level];
    }
  }

  /** Depths tell children from deeper calls. */
  lemma ChildByDepth(s: Settings, st: seq<Activation>, level: nat)
    requires level + 1 < |st| && Tracked(s, st[level]) && Tracked(s, Last(st))
    ensures |TrackedFrames(s, Front(st))| > |TrackedFrames(s, st[..level])|
    ensures |TrackedFrames(s, Front(st))| == |TrackedFrames(s, st[..level])| + 1 <==> ChildOf(s, st, level)
  {
    FramesSplit(s, Front(st), level);
    assert Front(st)[..level] == st[..level];
  }

  /** The matches that one action adds, on any thread. */
  function NewMatches(s: Settings, acts: seq<Action>): (ps: seq<Pair>)
    requires acts != []
    ensures TrueMatches(s, acts) == TrueMatches(s, Front(acts)) + ps && |ps| <= 1
  {
    TrueMatches(s, acts)[|TrueMatches(s, Front(acts))|..]
  }

  lemma ChildTimeStep(s: Settings, acts: seq<Action>, tid: u32, d: int)
    requires acts != []
    ensures var a, st := Last(acts), StackOf(LiveFrom(map[], Front(acts)), tid);
            var before := ChildTime(TrueMatches(s, Front(acts)), tid, d);
            ChildTime(TrueMatches(s, acts), tid, d)
            == if a.Act? && a.move.Leave? && a.move.Tid() == tid && st != [] && Tracked(s, Last(st)) && Observed(s, tid) then
                 var depth := |TrackedFrames(s, Front(st))|;
                 if depth <= d then 0
                 else (if depth == d + 1 then Elapsed(Last(st).call.ts, a.move.exit.ts) else 0) + before
               else before
  {
    var front, ps := TrueMatches(s, Front(acts)), NewMatches(s, acts);
    var st := StackOf(LiveFrom(map[], Front(acts)), tid);
    if ps != [] {
      assert ps == [ps[0]];
      ChildTimeSnoc(front, ps[0], tid, d);
      if st != [] {
        assert Front(st)[0..] == Front(st);
      }
    } else {
      assert front + ps == front;
    }
  }

  /** Nothing is booked on a depth that no active tracked call has. */
  lemma {:induction false} NoChildrenAbove(s: Settings, acts: seq<Action>, tid: u32, d: nat)
    requires Observed(s, tid) && d >= |TrackedFrames(s, StackOf(LiveFrom(map[], acts), tid))|
    ensures ChildTime(TrueMatches(s, acts), tid, d) == 0
    decreases |acts|
  {
    if acts != [] {
      var a, st := Last(acts), StackOf(LiveFrom(map[], Front(acts)), tid);
      ChildTimeStep(s, acts, tid, d);
      if a.Act? && a.move.Tid() == tid && a.move.Enter? {
        assert Front(st + [Activation(a.move.call, a.move.env)]) == st;
      }
      if !(a.Act? && a.move.Leave? && a.move.Tid() == tid && st != [] && Tracked(s, Last(st))) {
        NoChildrenAbove(s, Front(acts), tid, d);
      }
    }
  }

  /** What is booked as children of an active tracked call, by depths in the list of matches,
      is the time of the target's own calls below it that have no tracked caller between. */
  lemma {:induction false} ChildTimeIsTrue(s: Settings, acts: seq<Action>, tid: u32, level: nat)
    requires Observed(s, tid) && level < |StackOf(LiveFrom(map[], acts), tid)|
    requires Tracked(s, StackOf(LiveFrom(map[], acts), tid)[level])
    ensures ChildTime(TrueMatches(s, acts), tid, |TrackedFrames(s, StackOf(LiveFrom(map[], acts), tid)[..level])|)
         == TimeInChildren(s, acts, tid, level)
    decreases |acts|
  {
    if acts != [] {
      var a, st, st2 := Last(acts), StackOf(LiveFrom(map[], Front(acts)), tid), StackOf(LiveFrom(map[], acts), tid);
      var d := |TrackedFrames(s, st2[..level])|;
      ChildTimeStep(s, acts, tid, d);
      if a.Act? && a.move.Tid() == tid && a.move.Enter? && level == |st| {
        assert st2[..level] == st;
        NoChildrenAbove(s, Front(acts), tid, d);
      } else {
        assert st[..level] == st2[..level] && st[level] == st2[level];
        ChildTimeIsTrue(s, Front(acts), tid, level);
        if a.Act? && a.move.Tid() == tid && a.move.Leave? && Tracked(s, Last(st)) {
          ChildByDepth(s, st, level);
        }
      }
    }
  }

  /** Without loss the printed times are those of the target's call tree: a tracked call
      takes at least as long as all its tracked children together. */
  lemma ChildrenFit(s: Settings, acts: seq<Action>, tid: u32)
    requires acts != [] && Fits(s, acts) && Lossless(acts) && Clocked(acts) && Observed(s, tid)
    requires Last(acts).Act? && Last(acts).move.Leave? && Last(acts).move.exit.tid == tid
    requires var st := StackOf(LiveFrom(map[], Front(acts)), tid); st != [] && Tracked(s, Last(st))
    ensures var st := StackOf(LiveFrom(map[], Front(acts)), tid);
            TimeInChildren(s, Front(acts), tid, |st| - 1) <= Last(acts).move.exit.ts as int - Last(st).call.ts as int
  {
    var st, pairs := StackOf(LiveFrom(map[], Front(acts)), tid), TrueMatches(s, acts);
    var j := |TrueMatches(s, Front(acts))|;
    PairingIsExact(s, acts);
    assert pairs[..j] == TrueMatches(s, Front(acts));
    assert Front(st)[0..] == Front(st) == st[..|st| - 1];
    ChildTimeIsTrue(s, Front(acts), tid, |st| - 1);
    DurationsNest(s, acts, pairs, j);
  }
}
