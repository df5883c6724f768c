/** Main result about whole calls: from the entry a target makes to its own return, the
    consumer keeps the call's frame and mark, and its lines answer each other. */
module Answers {
  import opened Words
  import opened Schema
  import opened Filtering
  import opened Kernel
  import opened Tracing
  import opened Protocol
  import opened Pairing
  import opened Lag
  import opened Display
  import opened Durations

  /** The thread's true calls after the first `k` actions. */
  function StackAt(acts: seq<Action>, k: nat, tid: u32): seq<Activation>
    requires k <= |acts|
  {
    StackOf(LiveFrom(map[], acts[..k]), tid)
  }

  /** The call that action `p` makes on the thread has not returned before action `q`. */
  predicate StaysActive(acts: seq<Action>, p: nat, q: nat, tid: u32) {
    && p < q < |acts| && acts[p].Act? && acts[p].move.Enter? && acts[p].move.call.tid == tid
    && forall k | p < k <= q :: |StackAt(acts, k, tid)| > |StackAt(acts, p, tid)|
  }

  /** Action `q` is the return of the very call that action `p` makes. */
  predicate OwnReturn(acts: seq<Action>, p: nat, q: nat, tid: u32) {
    && StaysActive(acts, p, q, tid) && |StackAt(acts, q, tid)| == |StackAt(acts, p, tid)| + 1
    && acts[q].Act? && acts[q].move.Leave? && acts[q].move.exit.tid == tid
  }

  /** The thread loses no record from action `p` to action `q`. */
  predicate LosslessBetween(acts: seq<Action>, p: nat, q: nat, tid: u32)
    requires q < |acts|
  {
    forall k | p <= k <= q :: acts[k].Act? && acts[k].move.Tid() == tid ==> acts[k].res.Granted?
  }

  predicate Lasts(acts: seq<Action>, p: nat, q: nat, tid: u32) {
    StaysActive(acts, p, q, tid) && LosslessBetween(acts, p, q, tid)
  }

  function Made(m: Move): Activation
    requires m.Enter?
  {
    Activation(m.call, m.env)
  }

  lemma StackAtStep(acts: seq<Action>, k: nat, tid: u32)
    requires k < |acts|
    ensures StackAt(acts, k + 1, tid)
         == if acts[k].Act? && acts[k].move.Tid() == tid then
              if acts[k].move.Enter? then StackAt(acts, k, tid) + [Made(acts[k].move)]
              else if StackAt(acts, k, tid) == [] then [] else Front(StackAt(acts, k, tid))
            else StackAt(acts, k, tid)
  {
    assert Front(acts[..k + 1]) == acts[..k];
  }

  /** Until it returns, the call keeps its place on its thread's stack. */
  lemma {:induction false} CallStays(acts: seq<Action>, p: nat, q: nat, k: nat, tid: u32)
    requires StaysActive(acts, p, q, tid) && p < k <= q
    ensures StackAt(acts, k, tid)[|StackAt(acts, p, tid)|] == Made(acts[p].move)
    decreases k
  {
    StackAtStep(acts, k - 1, tid);
    if k > p + 1 {
      CallStays(acts, p, q, k - 1, tid);
    }
  }

  lemma IdealAt(s: Settings, acts: seq<Action>, k: nat)
    requires k < |acts| && Fits(s, acts)
    ensures Fits(s, acts[..k]) && Roomy(s, IdealRun(s, acts[..k]), acts[k])
    ensures IdealRun(s, acts[..k + 1]) == IdealStep(s, IdealRun(s, acts[..k]), acts[k])
  {
    FitsPrefix(s, acts, k);
    FitsPrefix(s, acts, k + 1);
    assert Front(acts[..k + 1]) == acts[..k];
  }

  lemma NothingAbove(s: Settings, i: Ideal, tid: u32)
    ensures OnTopOf(s, i, tid, StackOf(i.kept, tid), |StackOf(i.live, tid)|)
  {
    var st, junk := StackOf(i.live, tid), StackOf(i.kept, tid);
    assert st[|st|..] == [] && junk + [] == junk;
  }

  lemma StillOnTop(s: Settings, i: Ideal, a: Action, i2: Ideal, tid: u32, junk: seq<Frame>, b: nat)
    requires OnTopOf(s, i, tid, junk, b) && Roomy(s, i, a) && i2 == IdealStep(s, i, a)
    requires b > 0 && |StackOf(i2.live, tid)| >= b
    requires a.Act? && a.move.Tid() == tid ==> a.res.Granted?
    ensures OnTopOf(s, i2, tid, junk, b)
  {
    if a.Act? {
      assert i2.live == TargetStep(i.live, a.move);
    }
    RecoveryStep(s, i, a, tid, junk, b);
  }

  /** After `k` actions the frames that were open right after action `p` are still open. */
  predicate StillOpen(s: Settings, acts: seq<Action>, p: nat, k: nat, tid: u32)
    requires p < |acts| && k <= |acts|
  {
    OnTopOf(s, IdealRun(s, acts[..k]), tid, StackOf(IdealRun(s, acts[..p + 1]).kept, tid), |StackAt(acts, p, tid)| + 1)
  }

  lemma OpenAtFirst(s: Settings, acts: seq<Action>, p: nat)
    requires p < |acts| && acts[p].Act? && acts[p].move.Enter?
    ensures StillOpen(s, acts, p, p + 1, acts[p].move.call.tid)
  {
    var tid := acts[p].move.call.tid;
    LiveAt(s, acts, p + 1, tid);
    StackAtStep(acts, p, tid);
    NothingAbove(s, IdealRun(s, acts[..p + 1]), tid);
  }

  lemma OpenNext(s: Settings, acts: seq<Action>, p: nat, k: nat, tid: u32)
    requires Fits(s, acts) && p < k < |acts| && StillOpen(s, acts, p, k, tid)
    requires acts[k].Act? && acts[k].move.Tid() == tid ==> acts[k].res.Granted?
    requires |StackAt(acts, k + 1, tid)| > |StackAt(acts, p, tid)|
    ensures StillOpen(s, acts, p, k + 1, tid)
  {
    var i, b := IdealRun(s, acts[..k]), |StackAt(acts, p, tid)| + 1;
    var junk := StackOf(IdealRun(s, acts[..p + 1]).kept, tid);
    var i2 := IdealRun(s, acts[..k + 1]);
    assert i2 == IdealStep(s, i, acts[k]) && Roomy(s, i, acts[k]) by {
      IdealAt(s, acts, k);
    }
    assert |StackOf(i2.live, tid)| >= b by {
      LiveAt(s, acts, k + 1, tid);
    }
    assert OnTopOf(s, i2, tid, junk, b) by {
      StillOnTop(s, i, acts[k], i2, tid, junk, b);
    }
  }

  lemma OpenUntil(s: Settings, acts: seq<Action>, p: nat, q: nat, k: nat, tid: u32)
    requires Fits(s, acts) && Lasts(acts, p, q, tid) && p < k < q && StillOpen(s, acts, p, k, tid)
    ensures StillOpen(s, acts, p, k + 1, tid)
  {
    var a := acts[k];
    assert a.Act? && a.move.Tid() == tid ==> a.res.Granted?;
    assert |StackAt(acts, k + 1, tid)| > |StackAt(acts, p, tid)|;
    OpenNext(s, acts, p, k, tid);
  }

  /** Until the call returns, the thread's frames stay on top of those open right after it. */
  lemma {:induction false} FramesStay(s: Settings, acts: seq<Action>, p: nat, q: nat, k: nat, tid: u32)
    requires Fits(s, acts) && Lasts(acts, p, q, tid) && p < k <= q
    ensures StillOpen(s, acts, p, k, tid)
    decreases k
  {
    if k == p + 1 {
      OpenAtFirst(s, acts, p);
    } else {
      var n := k - 1;
      assert StillOpen(s, acts, p, n, tid) by {
        FramesStay(s, acts, p, q, n, tid);
      }
      OpenUntil(s, acts, p, q, n, tid);
    }
  }

  lemma LiveAt(s: Settings, acts: seq<Action>, k: nat, tid: u32)
    requires k <= |acts|
    ensures StackOf(IdealRun(s, acts[..k]).live, tid) == StackAt(acts, k, tid)
  {
    LiveIs(s, NOTHING, acts[..k]);
  }

  // ----- no record in between is at the call's depth

  /** How many frames the thread has, in the probes' view, after `k` actions. */
  function Level(s: Settings, acts: seq<Action>, k: nat, tid: u32): nat
    requires k <= |acts|
  {
    |StackOf(IdealRun(s, acts[..k]).kept, tid)|
  }

  lemma DepthIsLevel(s: Settings, acts: seq<Action>, k: nat, tid: u32)
    requires k <= |acts| && Fits(s, acts)
    ensures DepthOf(Run(s, acts[..k]).depth, tid) == Level(s, acts, k, tid) <= TWO_31
    ensures StackOf(Run(s, acts[..k]).live, tid) == StackAt(acts, k, tid)
  {
    FitsPrefix(s, acts, k);
    SystemRefinesStacks(s, acts[..k]);
    LiveAt(s, acts, k, tid);
  }

  /** The entry of a tracked call is stamped with the level it finds, and raises it. */
  lemma EntryLevel(s: Settings, acts: seq<Action>, p: nat, it: Item)
    requires Fits(s, acts) && p < |acts| && NewRecords(s, Run(s, acts[..p]), acts[p]) == [it]
    requires acts[p].Act? && acts[p].move.Enter? && Tracked(s, Made(acts[p].move))
    ensures EntryRecord(s, Run(s, acts[..p]), acts[p].move, it)
    ensures it.e.depth == Level(s, acts, p, it.e.tid)
    ensures Level(s, acts, p + 1, it.e.tid) == Level(s, acts, p, it.e.tid) + 1
  {
    NewRecordIs(s, Run(s, acts[..p]), acts[p], it);
    DepthIsLevel(s, acts, p, it.e.tid);
    IdealAt(s, acts, p);
  }

  /** A tracked return is stamped with the level it leaves. */
  lemma ReturnLevel(s: Settings, acts: seq<Action>, k: nat, it: Item)
    requires Fits(s, acts) && k < |acts| && NewRecords(s, Run(s, acts[..k]), acts[k]) == [it]
    requires acts[k].Act? && acts[k].move.Leave?
    ensures ReturnRecord(s, Run(s, acts[..k]), acts[k].move, it)
    ensures StackAt(acts, k, it.e.tid) != [] && Tracked(s, Last(StackAt(acts, k, it.e.tid)))
    ensures Level(s, acts, k, it.e.tid) > 0 ==> it.e.depth == Level(s, acts, k, it.e.tid) - 1
  {
    NewRecordIs(s, Run(s, acts[..k]), acts[k], it);
    DepthIsLevel(s, acts, k, it.e.tid);
  }

  lemma LevelAbove(s: Settings, acts: seq<Action>, p: nat, k: nat, tid: u32)
    requires p < k <= |acts| && StillOpen(s, acts, p, k, tid)
    ensures Level(s, acts, k, tid) >= Level(s, acts, p + 1, tid)
    ensures |StackAt(acts, k, tid)| > |StackAt(acts, p, tid)|
    ensures var st := StackAt(acts, k, tid);
            |st| == |StackAt(acts, p, tid)| + 1 ==> Level(s, acts, k, tid) == Level(s, acts, p + 1, tid)
    ensures var st := StackAt(acts, k, tid);
            |st| > |StackAt(acts, p, tid)| + 1 && Tracked(s, Last(st)) ==>
              Level(s, acts, k, tid) > Level(s, acts, p + 1, tid)
  {
    var st, b := StackAt(acts, k, tid), |StackAt(acts, p, tid)| + 1;
    LiveAt(s, acts, k, tid);
    if |st| > b {
      TrackedSplit(s, st, b);
    } else {
      assert st[b..] == [];
    }
  }

  lemma InnerRecord(s: Settings, acts: seq<Action>, p: nat, k: nat, tid: u32, it: Item)
    requires Fits(s, acts) && p < k < |acts| && StillOpen(s, acts, p, k, tid)
    requires |StackAt(acts, k + 1, tid)| > |StackAt(acts, p, tid)|
    requires NewRecords(s, Run(s, acts[..k]), acts[k]) == [it] && it.e.tid == tid
    ensures it.e.depth == -1 || it.e.depth >= Level(s, acts, p + 1, tid)
  {
    NewRecordIs(s, Run(s, acts[..k]), acts[k], it);
    LevelAbove(s, acts, p, k, tid);
    if acts[k].move.Leave? {
      ReturnLevel(s, acts, k, it);
      StackAtStep(acts, k, tid);
    } else if Tracked(s, Made(acts[k].move)) {
      EntryLevel(s, acts, k, it);
    }
  }

  // ----- so the consumer keeps frame and mark

  predicate Keeps(c: Consumer, c2: Consumer, key: Key) {
    && (key in c2.frames <==> key in c.frames) && (key in c.frames ==> c2.frames[key] == c.frames[key])
    && (key in c2.shown <==> key in c.shown)
  }

  lemma MarkKeeps(s: Settings, c: Consumer, other: Key, text: string, key: Key)
    requires other != key
    ensures Keeps(c, Emit(s, MarkShown(c, other), text), key)
  {}

  lemma ShowEntryKeeps(s: Settings, c: Consumer, it: Item, slot: int, key: Key)
    requires KeyOf(it.e.tid, it.e.depth) != key
    ensures Keeps(c, ShowEntry(s, c, it, slot), key)
  {
    var nm, other := SlotName(s.site.schema, slot), KeyOf(it.e.tid, it.e.depth);
    var ix := CallIndex(nm);
    if ix.Some? {
      var call := DescribeCall(s, it.e, nm, ix.value, c.caches, it.env.target).0;
      MarkKeeps(s, Rename(c, other, call), other, Indent(it.e.depth) + "-> " + call + Tag(s, it), key);
    } else {
      var text := GenericText(s, it.e, slot, c.caches, it.env.target);
      MarkKeeps(s, c, other, Indent(it.e.depth) + "-> " + text, key);
    }
  }

  lemma OtherRecordKeeps(s: Settings, c: Consumer, it: Item, key: Key)
    requires KeyOf(it.e.tid, it.e.depth) != key
    ensures Keeps(c, Receive(s, c, it), key)
  {
    if Observed(s, it.e.tid) && it.e.kind.Entry? && Sub64(it.e.ip, s.site.base) in s.site.offsets {
      var slot := s.site.offsets[Sub64(it.e.ip, s.site.base)];
      ShowEntryKeeps(s, Store(s, c, it, slot), it, slot, key);
    }
  }

  lemma {:induction false} KeepsChain(cs: seq<Consumer>, a: nat, b: nat, key: Key)
    requires a <= b < |cs| && forall n | a <= n < b :: Keeps(cs[n], cs[n + 1], key)
    ensures Keeps(cs[a], cs[b], key)
    decreases b
  {
    if a < b {
      KeepsChain(cs, a, b - 1, key);
      assert Keeps(cs[b - 1], cs[b - 1 + 1], key);
    }
  }

  /** The consumer after the records of each first part of the run. */
  function Hearing(s: Settings, acts: seq<Action>): (cs: seq<Consumer>)
    ensures |cs| == |acts| + 1
  {
    seq(|acts| + 1, k requires 0 <= k <= |acts| => Heard(s, acts[..k]))
  }

  lemma HearingAt(s: Settings, acts: seq<Action>, k: nat)
    requires k <= |acts|
    ensures Hearing(s, acts)[k] == Heard(s, acts[..k])
  {}

  lemma KeptNext(s: Settings, acts: seq<Action>, p: nat, q: nat, k: nat, tid: u32, d: nat)
    requires Fits(s, acts) && Lasts(acts, p, q, tid) && p < k < q && Level(s, acts, p + 1, tid) == d + 1
    ensures Keeps(Heard(s, acts[..k]), Heard(s, acts[..k + 1]), KeyOf(tid, d))
  {
    var its := NewRecords(s, Run(s, acts[..k]), acts[k]);
    FramesStay(s, acts, p, q, k, tid);
    LevelAbove(s, acts, p, k, tid);
    HeardStep(s, acts, k);
    if its != [] {
      RecordKeeps(s, acts, p, k, tid, d, its[0]);
    }
  }

  lemma HearingKeeps(s: Settings, acts: seq<Action>, k: nat, key: Key)
    requires k < |acts| && Keeps(Heard(s, acts[..k]), Heard(s, acts[..k + 1]), key)
    ensures Keeps(Hearing(s, acts)[k], Hearing(s, acts)[k + 1], key)
  {
    HearingAt(s, acts, k);
    HearingAt(s, acts, k + 1);
  }

  lemma HearingKept(s: Settings, acts: seq<Action>, p: nat, q: nat, k: nat, tid: u32, d: nat)
    requires Fits(s, acts) && Lasts(acts, p, q, tid) && p < k < q && Level(s, acts, p + 1, tid) == d + 1
    ensures Keeps(Hearing(s, acts)[k], Hearing(s, acts)[k + 1], KeyOf(tid, d))
  {
    KeptNext(s, acts, p, q, k, tid, d);
    HearingKeeps(s, acts, k, KeyOf(tid, d));
  }

  /** From its entry on, until it returns, the call's frame and mark stay as they are. */
  lemma CallKept(s: Settings, acts: seq<Action>, p: nat, q: nat, tid: u32, d: nat)
    requires Fits(s, acts) && Lasts(acts, p, q, tid) && Level(s, acts, p + 1, tid) == d + 1
    ensures Keeps(Hearing(s, acts)[p + 1], Hearing(s, acts)[q], KeyOf(tid, d))
  {
    var cs := Hearing(s, acts);
    forall k | p + 1 <= k < q
      ensures Keeps(cs[k], cs[k + 1], KeyOf(tid, d))
    {
      HearingKept(s, acts, p, q, k, tid, d);
    }
    KeepsChain(cs, p + 1, q, KeyOf(tid, d));
  }

  lemma RecordKeeps(s: Settings, acts: seq<Action>, p: nat, k: nat, tid: u32, d: nat, it: Item)
    requires Fits(s, acts) && p < k < |acts| && StillOpen(s, acts, p, k, tid)
    requires |StackAt(acts, k + 1, tid)| > |StackAt(acts, p, tid)| && Level(s, acts, p + 1, tid) == d + 1
    requires NewRecords(s, Run(s, acts[..k]), acts[k]) == [it]
    ensures Keeps(Heard(s, acts[..k]), Receive(s, Heard(s, acts[..k]), it), KeyOf(tid, d))
  {
    if it.e.tid == tid {
      InnerRecord(s, acts, p, k, tid, it);
    }
    KeysDiffer(it.e.tid, it.e.depth, tid, d);
    OtherRecordKeeps(s, Heard(s, acts[..k]), it, KeyOf(tid, d));
  }

  // ----- whole calls

  lemma EntryIsRecorded(s: Settings, y: System, a: Action) returns (it: Item)
    requires a.Act? && a.move.Enter? && a.res.Granted? && Tracked(s, Made(a.move))
    ensures NewRecords(s, y, a) == [it]
  {
    it := Item(EntryEvent(KernelTables(s), y.depth, a.move.call,
                          SnapshotFor(KernelTables(s), a.move.call, a.move.mem, a.res.stale)), a.move.env);
    ActAppends(s, y, a);
    RecordEntryAppends(KernelTables(s), y, a.move.call,
                       SnapshotFor(KernelTables(s), a.move.call, a.move.mem, a.res.stale), a.move.env);
  }

  lemma RecordEntryAppends(tb: Tables, y: System, call: Call, snap: Snapshots.Snapshot, env: Env)
    ensures RecordEntry(tb, y, call, snap, env).ring == y.ring + [Item(EntryEvent(tb, y.depth, call, snap), env)]
  {}

  lemma ReturnIsRecorded(s: Settings, y: System, a: Action) returns (it: Item)
    requires a.Act? && a.move.Leave? && a.res.Granted?
    requires StackOf(y.live, a.move.exit.tid) != [] && Tracked(s, Last(StackOf(y.live, a.move.exit.tid)))
    ensures NewRecords(s, y, a) == [it]
  {
    it := Item(ReturnEvent(y.depth, a.move.exit, a.res.stale), a.move.env);
    ActAppends(s, y, a);
  }

  /** The two records of a call, and the depth they share. */
  lemma CallRecords(s: Settings, acts: seq<Action>, p: nat, q: nat, tid: u32) returns (it: Item, ret: Item)
    requires Fits(s, acts) && OwnReturn(acts, p, q, tid) && LosslessBetween(acts, p, q, tid)
    requires Tracked(s, Made(acts[p].move))
    ensures NewRecords(s, Run(s, acts[..p]), acts[p]) == [it] && EntryRecord(s, Run(s, acts[..p]), acts[p].move, it)
    ensures NewRecords(s, Run(s, acts[..q]), acts[q]) == [ret] && ReturnRecord(s, Run(s, acts[..q]), acts[q].move, ret)
    ensures it.e.depth == ret.e.depth == Level(s, acts, p, tid) && Level(s, acts, p + 1, tid) == it.e.depth + 1
  {
    it := EntryIsRecorded(s, Run(s, acts[..p]), acts[p]);
    EntryLevel(s, acts, p, it);
    CallStays(acts, p, q, q, tid);
    DepthIsLevel(s, acts, q, tid);
    ret := ReturnIsRecorded(s, Run(s, acts[..q]), acts[q]);
    ReturnLevel(s, acts, q, ret);
    FramesStay(s, acts, p, q, q, tid);
    LevelAbove(s, acts, p, q, tid);
  }

  lemma {:induction false} FilterStays(s: Settings, c: Consumer, items: seq<Item>)
    ensures ReceiveAll(s, c, items).filter == c.filter
  {
    if items != [] {
      FilterStays(s, c, Front(items));
      ReceiveFeeds(s, ReceiveAll(s, c, Front(items)), Last(items));
    }
  }

  /** The consumer before and after the two records. */
  lemma CallHeard(s: Settings, acts: seq<Action>, p: nat, q: nat, it: Item, ret: Item)
    requires p < |acts| && q < |acts|
    requires NewRecords(s, Run(s, acts[..p]), acts[p]) == [it] && NewRecords(s, Run(s, acts[..q]), acts[q]) == [ret]
    ensures Heard(s, acts[..p + 1]) == Receive(s, Heard(s, acts[..p]), it)
    ensures Heard(s, acts[..q + 1]) == Receive(s, Heard(s, acts[..q]), ret)
    ensures Heard(s, acts[..p]).filter == s.start && Heard(s, acts[..q]).filter == s.start
  {
    HeardStep(s, acts, p);
    HeardStep(s, acts, q);
    FilterStays(s, Idle(s), Records(s, acts[..p]));
    FilterStays(s, Idle(s), Records(s, acts[..q]));
  }

  /** A call that returns, on a thread that loses no record in between, whatever is lost
      elsewhere, at whatever depth, with any calls inside: its return takes the very frame its
      entry left, marked exactly if that printed a line; and then the return prints the one
      line that answers it if and only if the expressions accept the split of its text. */
  lemma CallIsAnswered(s: Settings, acts: seq<Action>, p: nat, q: nat, tid: u32) returns (it: Item, ret: Item)
    requires Fits(s, acts) && OwnReturn(acts, p, q, tid) && LosslessBetween(acts, p, q, tid)
    requires Tracked(s, Made(acts[p].move)) && Observed(s, tid)
    ensures NewRecords(s, Run(s, acts[..p]), acts[p]) == [it] && EntryRecord(s, Run(s, acts[..p]), acts[p].move, it)
    ensures NewRecords(s, Run(s, acts[..q]), acts[q]) == [ret] && ReturnRecord(s, Run(s, acts[..q]), acts[q].move, ret)
    ensures var c, c2, slot := Heard(s, acts[..p]), Heard(s, acts[..q]), SlotOf(s, Made(acts[p].move));
            && Heard(s, acts[..p + 1]) == Receive(s, c, it) && Heard(s, acts[..q + 1]) == Receive(s, c2, ret)
            && Completes(s, c, it, slot, c2, ret)
            && (KeyOf(tid, it.e.depth) in c2.shown <==> Printed(c, Heard(s, acts[..p + 1])))
            && (Printed(c, Heard(s, acts[..p + 1])) ==>
                  Heard(s, acts[..q + 1])
                  == if SplitAccepted(s, s.start, EntryText(s, c, it, slot)) then Answered(s, c2, ret) else Taken(s, c2, ret))
  {
    it, ret := CallRecords(s, acts, p, q, tid);
    CallHeard(s, acts, p, q, it, ret);
    CallKept(s, acts, p, q, tid, it.e.depth);
    HearingAt(s, acts, p + 1);
    HearingAt(s, acts, q);
    KeptIsAnswered(s, Heard(s, acts[..p]), it, SlotOf(s, Made(acts[p].move)), Heard(s, acts[..q]), ret);
  }

  lemma KeptIsAnswered(s: Settings, c: Consumer, it: Item, slot: int, c2: Consumer, ret: Item)
    requires EntryOf(s, it, slot) && Stores(s, it, slot) && c.filter == s.start && c2.filter == s.start
    requires ret.e.kind.Return? && ret.e.tid == it.e.tid && ret.e.depth == it.e.depth
    requires Keeps(Receive(s, c, it), c2, KeyOf(it.e.tid, it.e.depth))
    ensures Completes(s, c, it, slot, c2, ret)
    ensures KeyOf(it.e.tid, it.e.depth) in c2.shown <==> Printed(c, Receive(s, c, it))
    ensures Printed(c, Receive(s, c, it)) ==>
              Receive(s, c2, ret)
              == if SplitAccepted(s, s.start, EntryText(s, c, it, slot)) then Answered(s, c2, ret) else Taken(s, c2, ret)
  {
    StoredEntry(s, c, it, slot);
    if EntryWanted(s, c, it, slot) {
      PassedReturn(s, c2, ret);
    }
  }

  // ----- and what the two lines say

  /** A thread's clock after any later action is at or past that of the move. */
  lemma {:induction false} ClockPasses(acts: seq<Action>, p: nat, k: nat, tid: u32)
    requires Clocked(acts) && p < k <= |acts| && acts[p].Act? && acts[p].move.Tid() == tid
    ensures Clocked(acts[..k]) && TsOf(acts[p].move) <= Clock(acts[..k], tid)
    decreases |acts|, k
  {
    if k < |acts| {
      assert Front(acts)[..k] == acts[..k];
      ClockPasses(Front(acts), p, k, tid);
    } else {
      assert acts[..k] == acts;
      if k > p + 1 {
        ClockPasses(Front(acts), p, k - 1, tid);
        assert Front(acts)[..k - 1] == Front(acts);
      }
    }
  }

  lemma LaterMove(acts: seq<Action>, p: nat, q: nat, tid: u32)
    requires Clocked(acts) && p < q < |acts| && acts[p].Act? && acts[p].move.Tid() == tid
    requires acts[q].Act? && acts[q].move.Tid() == tid
    ensures TsOf(acts[p].move) <= TsOf(acts[q].move)
  {
    ClockPasses(acts, p, q, tid);
    ClockPasses(acts, q, q + 1, tid);
    ClockedPrefix(acts, q + 1);
    assert Front(acts[..q + 1]) == acts[..q];
  }

  lemma {:induction false} ClockedPrefix(acts: seq<Action>, k: nat)
    requires Clocked(acts) && k <= |acts|
    ensures Clocked(acts[..k])
    decreases |acts|
  {
    if k < |acts| {
      assert Front(acts)[..k] == acts[..k];
      ClockedPrefix(Front(acts), k);
    } else {
      assert acts[..k] == acts;
    }
  }

  /** The return `c2` to `c3` prints, if anything, the line that answers `call`. */
  predicate AnswersWith(s: Settings, c2: Consumer, c3: Consumer, depth: int, slot: int, call: string, m: Move, nanos: u64)
    requires m.Leave?
  {
    var value := s.host.ret(SlotRet(s.site.schema, slot), m.exit.rc, c3.caches, m.env.target);
    Printed(c2, c3) ==> Says(s, c2, c3, AnswerLine(s, depth, call, value, nanos))
  }

  lemma CompletedSays(s: Settings, c: Consumer, it: Item, slot: int, c2: Consumer, ret: Item, m: Move)
    requires Completes(s, c, it, slot, c2, ret) && it.e.ts <= ret.e.ts
    requires m.Leave? && ret.e.rc == m.exit.rc && ret.env == m.env
    ensures AnswersWith(s, c2, Receive(s, c2, ret), it.e.depth, slot, EntryText(s, c, it, slot), m, ret.e.ts - it.e.ts)
  {
    var text, fr, c3 := EntryText(s, c, it, slot), FrameLeft(s, c, it, slot), Receive(s, c2, ret);
    assert Printed(c2, c3) ==> fr.call == text by {
      ReturnOutcome(s, c2, ret);
    }
    AnswerSays(s, c2, ret, slot, it.e.ts, fr.call);
  }

  /** A call's entry `it` takes the consumer from `c` to `c1`, its return from `c2` to `c3`. */
  lemma LinesOf(s: Settings, c: Consumer, c1: Consumer, it: Item, slot: int, c2: Consumer, c3: Consumer, ret: Item,
                from: u64, m: Move)
    requires EntryOf(s, it, slot) && Stores(s, it, slot) && c.filter == s.start && c2.filter == s.start
    requires ret.e.kind.Return? && ret.e.tid == it.e.tid && ret.e.depth == it.e.depth
    requires Keeps(c1, c2, KeyOf(it.e.tid, it.e.depth)) && c1 == Receive(s, c, it) && c3 == Receive(s, c2, ret)
    requires m.Leave? && ret.e.rc == m.exit.rc && ret.e.ts == m.exit.ts && ret.env == m.env
    requires it.e.ts == from <= m.exit.ts
    ensures EntrySaid(s, c, c1, it, slot, EntryText(s, c, it, slot), EntryWanted(s, c, it, slot))
    ensures AnswersWith(s, c2, c3, it.e.depth, slot, EntryText(s, c, it, slot), m, m.exit.ts - from)
  {
    EntrySays(s, c, it, slot);
    assert Completes(s, c, it, slot, c2, ret) by {
      KeptIsAnswered(s, c, it, slot, c2, ret);
    }
    CompletedSays(s, c, it, slot, c2, ret, m);
  }

  /** The two lines of such a call, letter by letter, from the target's own moves: where they
      are printed, the entry line shows the call's text, and the return line that same text,
      the value that the return left in its register, and exactly the time between the two. */
  lemma CallLines(s: Settings, acts: seq<Action>, p: nat, q: nat, tid: u32) returns (it: Item, ret: Item)
    requires Fits(s, acts) && OwnReturn(acts, p, q, tid) && LosslessBetween(acts, p, q, tid) && Clocked(acts)
    requires Tracked(s, Made(acts[p].move)) && Observed(s, tid)
    ensures NewRecords(s, Run(s, acts[..p]), acts[p]) == [it] && NewRecords(s, Run(s, acts[..q]), acts[q]) == [ret]
    ensures EntryRecord(s, Run(s, acts[..p]), acts[p].move, it)
    ensures acts[p].move.call.ts <= acts[q].move.exit.ts
    ensures var c, c2, slot := Heard(s, acts[..p]), Heard(s, acts[..q]), SlotOf(s, Made(acts[p].move));
            var text := EntryText(s, c, it, slot);
            && EntrySaid(s, c, Heard(s, acts[..p + 1]), it, slot, text, EntryWanted(s, c, it, slot))
            && AnswersWith(s, c2, Heard(s, acts[..q + 1]), it.e.depth, slot, text, acts[q].move,
                           acts[q].move.exit.ts - acts[p].move.call.ts)
  {
    var from, m, slot := acts[p].move.call.ts, acts[q].move, SlotOf(s, Made(acts[p].move));
    var c, c1, c2, c3 := Heard(s, acts[..p]), Heard(s, acts[..p + 1]), Heard(s, acts[..q]), Heard(s, acts[..q + 1]);
    LaterMove(acts, p, q, tid);
    it, ret := CallRecords(s, acts, p, q, tid);
    assert c1 == Receive(s, c, it) && c3 == Receive(s, c2, ret) && c.filter == s.start && c2.filter == s.start by {
      CallHeard(s, acts, p, q, it, ret);
    }
    assert Keeps(c1, c2, KeyOf(it.e.tid, it.e.depth)) by {
      CallKept(s, acts, p, q, tid, it.e.depth);
      HearingAt(s, acts, p + 1);
      HearingAt(s, acts, q);
    }
    LinesOf(s, c, c1, it, slot, c2, c3, ret, from, m);
  }
}
