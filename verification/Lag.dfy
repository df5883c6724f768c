/** The consumer may lag, but it never sees anything other than an earlier point of the run:
    which records a run produces, how many the consumer has handled, and what its state is
    then. */
module Lag {
  import opened Words
  import opened Kernel
  import opened Tracing
  import opened Protocol
  import opened Pairing

  const BLANK: Ledger := Ledger(map[], [])

  lemma ProbeAppends(s: Settings, y: System, m: Move, res: Reservation)
    ensures y.ring <= ProbeStep(s, y, m, res).ring
    ensures |ProbeStep(s, y, m, res).ring| <= |y.ring| + 1
    ensures ProbeStep(s, y, m, res).tracer == y.tracer
  {}

  /** The record, if any, that an action adds to the ring buffer. */
  function NewRecords(s: Settings, y: System, a: Action): (its: seq<Item>)
    ensures |its| <= 1
  {
    if a.Act? then
      ProbeAppends(s, y, a.move, a.res);
      ProbeStep(s, y, a.move, a.res).ring[|y.ring|..]
    else []
  }

  /** All records that a run produces, handled or not. */
  function Records(s: Settings, acts: seq<Action>): seq<Item> {
    if acts == [] then []
    else Records(s, Front(acts)) + NewRecords(s, Run(s, Front(acts)), Last(acts))
  }

  lemma RecordsStep(s: Settings, acts: seq<Action>, m: nat)
    requires m < |acts|
    ensures Records(s, acts[..m + 1]) == Records(s, acts[..m]) + NewRecords(s, Run(s, acts[..m]), acts[m])
  {
    assert Front(acts[..m + 1]) == acts[..m];
  }

  lemma {:induction false} RecordsGrow(s: Settings, acts: seq<Action>, m: nat)
    requires m <= |acts|
    ensures Records(s, acts[..m]) <= Records(s, acts)
    decreases |acts|
  {
    if m < |acts| {
      RecordsGrow(s, Front(acts), m);
      assert Front(acts)[..m] == acts[..m];
    } else {
      assert acts[..m] == acts;
    }
  }

  lemma ReceiveAllSnoc(s: Settings, c: Consumer, items: seq<Item>, it: Item)
    ensures ReceiveAll(s, c, items + [it]) == Receive(s, ReceiveAll(s, c, items), it)
  {
    assert (items + [it])[..|items|] == items;
  }

  /** `done` is what consumer `c` has handled so far; `plain` when no command came. */
  ghost predicate HasHandled(s: Settings, c: Consumer, done: seq<Item>, plain: bool) {
    && LedgerOf(c) == FeedAll(s, BLANK, done)
    && (plain ==> c == ReceiveAll(s, Idle(s), done))
  }

  lemma HandleOne(s: Settings, c: Consumer, done: seq<Item>, it: Item, plain: bool)
    requires HasHandled(s, c, done, plain)
    ensures HasHandled(s, Receive(s, c, it), done + [it], plain)
  {
    ReceiveLedger(s, c, it);
    FeedAllSnoc(s, BLANK, done, it);
    ReceiveAllSnoc(s, Idle(s), done, it);
  }

  lemma ActAppends(s: Settings, y: System, a: Action)
    requires a.Act?
    ensures Step(s, y, a).ring == y.ring + NewRecords(s, y, a) && Step(s, y, a).tracer == y.tracer
  {
    ProbeAppends(s, y, a.move, a.res);
  }

  lemma HandlePoll(s: Settings, y: System, done: seq<Item>, plain: bool)
    requires HasHandled(s, y.tracer, done, plain) && y.ring != []
    ensures HasHandled(s, Step(s, y, Poll).tracer, done + [y.ring[0]], plain)
    ensures done + y.ring == done + [y.ring[0]] + Step(s, y, Poll).ring
  {
    var it := y.ring[0];
    var c := Receive(s, y.tracer, it);
    HandleOne(s, y.tracer, done, it, plain);
    assert Step(s, y, Poll).tracer == c && Step(s, y, Poll).ring == y.ring[1..];
  }

  lemma HandleCommand(s: Settings, y: System, line: string)
    ensures Step(s, y, Command(line)).ring == y.ring
    ensures LedgerOf(Step(s, y, Command(line)).tracer) == LedgerOf(y.tracer)
  {}

  lemma HandleStep(s: Settings, y: System, a: Action, done: seq<Item>, plain: bool) returns (more: seq<Item>)
    requires HasHandled(s, y.tracer, done, plain)
    ensures done + y.ring + NewRecords(s, y, a) == more + Step(s, y, a).ring
    ensures HasHandled(s, Step(s, y, a).tracer, more, plain && !a.Command?)
  {
    more := done;
    match a
    case Poll =>
      if y.ring != [] {
        HandlePoll(s, y, done, plain);
        more := done + [y.ring[0]];
      } else {
        assert Step(s, y, a) == y;
      }
    case Command(line) =>
      HandleCommand(s, y, line);
    case Act(m, res) =>
      ActAppends(s, y, a);
      assert done + y.ring + NewRecords(s, y, a) == done + (y.ring + NewRecords(s, y, a));
  }

  lemma NoCommandsSnoc(acts: seq<Action>)
    requires acts != []
    ensures NoCommands(acts) <==> NoCommands(Front(acts)) && !Last(acts).Command?
  {
    assert acts == Front(acts) + [Last(acts)];
  }

  /** Everything produced is what the consumer has handled, in order, and then the ring. */
  lemma {:induction false} HandledThenRing(s: Settings, acts: seq<Action>) returns (done: seq<Item>)
    ensures Records(s, acts) == done + Run(s, acts).ring
    ensures HasHandled(s, Run(s, acts).tracer, done, NoCommands(acts))
    decreases |acts|
  {
    if acts == [] {
      done := [];
    } else {
      done := HandledThenRing(s, Front(acts));
      done := HandleStep(s, Run(s, Front(acts)), Last(acts), done, NoCommands(Front(acts)));
      NoCommandsSnoc(acts);
    }
  }

  lemma {:induction false} FeedAllAppend(s: Settings, l: Ledger, a: seq<Item>, b: seq<Item>)
    ensures FeedAll(s, l, a + b) == FeedAll(s, FeedAll(s, l, a), b)
    decreases |a|
  {
    if a == [] {
      assert a + b == b;
    } else {
      assert (a + b)[1..] == a[1..] + b;
      FeedAllAppend(s, Feed(s, l, a[0]), a[1..], b);
    }
  }

  lemma SettledIsAllRecords(s: Settings, acts: seq<Action>)
    ensures Settled(s, Run(s, acts)) == FeedAll(s, BLANK, Records(s, acts))
  {
    var done := HandledThenRing(s, acts);
    FeedAllAppend(s, BLANK, done, Run(s, acts).ring);
  }

  /** A count that starts at 0 and grows by at most one at a time. */
  predicate Creeps(f: seq<nat>) {
    |f| > 0 && f[0] == 0 && forall i | 0 <= i < |f| - 1 :: f[i] <= f[i + 1] <= f[i] + 1
  }

  /** It passes every number up to its end: the last point where it is `n`. */
  lemma {:induction false} LastAt(f: seq<nat>, n: nat) returns (m: nat)
    requires Creeps(f) && n <= f[|f| - 1]
    ensures m < |f| && f[m] == n
    ensures if n == f[|f| - 1] then m == |f| - 1 else m + 1 < |f| && f[m + 1] == n + 1
    decreases |f|
  {
    m := |f| - 1;
    if n < f[m] {
      m := LastAt(f[..m], n);
    }
  }

  /** How many records each first part of the run produced. */
  function Produced(s: Settings, acts: seq<Action>): seq<nat> {
    seq(|acts| + 1, i requires 0 <= i <= |acts| => |Records(s, acts[..i])|)
  }

  lemma ProducedAt(s: Settings, acts: seq<Action>, i: nat)
    requires i <= |acts|
    ensures |Produced(s, acts)| == |acts| + 1 && Produced(s, acts)[i] == |Records(s, acts[..i])|
  {}

  lemma ProducedCreeps(s: Settings, acts: seq<Action>)
    ensures Creeps(Produced(s, acts))
  {
    var f := Produced(s, acts);
    forall i | 0 <= i < |acts|
      ensures f[i] <= f[i + 1] <= f[i] + 1
    {
      RecordsStep(s, acts, i);
      assert f[i] == |Records(s, acts[..i])| && f[i + 1] == |Records(s, acts[..i + 1])|;
    }
  }

  /** The last point of the run at which exactly `n` records had been produced. */
  lemma CutAt(s: Settings, acts: seq<Action>, n: nat) returns (m: nat)
    requires n <= |Records(s, acts)|
    ensures m <= |acts| && |Records(s, acts[..m])| == n
    ensures n < |Records(s, acts)| ==> m < |acts| && |Records(s, acts[..m + 1])| == n + 1
    ensures n == |Records(s, acts)| ==> m == |acts|
  {
    var f, k := Produced(s, acts), |acts|;
    ProducedCreeps(s, acts);
    ProducedAt(s, acts, k);
    assert acts[..k] == acts;
    m := LastAt(f, n);
    ProducedAt(s, acts, m);
    if m < k {
      ProducedAt(s, acts, m + 1);
    }
  }

  /** The consumer that handled every record of the run, undisturbed by commands. */
  function Heard(s: Settings, acts: seq<Action>): Consumer {
    ReceiveAll(s, Idle(s), Records(s, acts))
  }

  lemma HeardStep(s: Settings, acts: seq<Action>, m: nat)
    requires m < |acts|
    ensures var its := NewRecords(s, Run(s, acts[..m]), acts[m]);
            Heard(s, acts[..m + 1])
            == if its == [] then Heard(s, acts[..m]) else Receive(s, Heard(s, acts[..m]), its[0])
  {
    var its, all := NewRecords(s, Run(s, acts[..m]), acts[m]), Records(s, acts[..m]);
    RecordsStep(s, acts, m);
    if its == [] {
      assert all + its == all;
    } else {
      assert its == [its[0]];
      ReceiveAllSnoc(s, Idle(s), all, its[0]);
    }
  }

  /** In every reachable state the consumer stands at an earlier point of the run: what it
      has not handled is exactly what the run produced since, the next record is that of the
      action at that point, and its frames and matches are the settled ones of that point.
      With nothing left to handle, that point is the end. */
  lemma LagPoint(s: Settings, acts: seq<Action>) returns (m: nat)
    ensures m <= |acts| && Records(s, acts) == Records(s, acts[..m]) + Run(s, acts).ring
    ensures LedgerOf(Run(s, acts).tracer) == Settled(s, Run(s, acts[..m]))
    ensures NoCommands(acts) ==> Run(s, acts).tracer == Heard(s, acts[..m])
    ensures Run(s, acts).ring != [] ==>
      m < |acts| && NewRecords(s, Run(s, acts[..m]), acts[m]) == [Run(s, acts).ring[0]]
    ensures Run(s, acts).ring == [] ==> m == |acts|
  {
    var done := HandledThenRing(s, acts);
    var ring := Run(s, acts).ring;
    m := CutAt(s, acts, |done|);
    RecordsGrow(s, acts, m);
    assert Records(s, acts[..m]) == done;
    SettledIsAllRecords(s, acts[..m]);
    if ring != [] {
      RecordsGrow(s, acts, m + 1);
      RecordsStep(s, acts, m);
      assert Records(s, acts)[|done|] == ring[0];
    }
  }

  lemma {:induction false} FitsPrefix(s: Settings, acts: seq<Action>, m: nat)
    requires m <= |acts| && Fits(s, acts)
    ensures Fits(s, acts[..m])
    decreases |acts|
  {
    if m < |acts| {
      assert Front(acts)[..m] == acts[..m];
      FitsPrefix(s, Front(acts), m);
    } else {
      assert acts[..m] == acts;
    }
  }

  // ----- a frame is never overwritten

  /** A record that stores a frame. */
  predicate StoresFrame(s: Settings, it: Item) {
    var off := Sub64(it.e.ip, s.site.base);
    && Observed(s, it.e.tid) && it.e.kind.Entry?
    && off in s.site.offsets && Stores(s, it, s.site.offsets[off])
  }

  /** `it` is the record of a probed call that entry `m` makes. */
  predicate EntryRecord(s: Settings, y: System, m: Move, it: Item) {
    && m.Enter? && it.e.kind.Entry? && it.env == m.env
    && it.e.tid == m.call.tid && it.e.ip == m.call.ip && it.e.ts == m.call.ts && it.e.a == m.call.x
    && it.e.caller == m.call.lr
    && Probed(s, Activation(m.call, m.env))
    && it.e.depth == if Tracked(s, Activation(m.call, m.env)) then AsS32(DepthOf(y.depth, m.call.tid)) else -1
  }

  /** `it` is the record of the return `m` of the innermost call, which is tracked. */
  predicate ReturnRecord(s: Settings, y: System, m: Move, it: Item) {
    && m.Leave? && it.e.kind.Return? && it.env == m.env
    && it.e.tid == m.exit.tid && it.e.rc == m.exit.rc && it.e.ts == m.exit.ts
    && StackOf(y.live, m.exit.tid) != [] && Tracked(s, Last(StackOf(y.live, m.exit.tid)))
    && it.e.depth == AsS32(Popped(DepthOf(y.depth, m.exit.tid)))
  }

  lemma EventIs(s: Settings, tb: Tables, y: System, call: Call, snap: Snapshots.Snapshot, env: Env)
    requires tb.base == s.site.base && (IsTracked(tb, call) <==> Tracked(s, Activation(call, env)))
    requires Probed(s, Activation(call, env))
    ensures EntryRecord(s, y, Enter(call, map[], env), Item(EntryEvent(tb, y.depth, call, snap), env))
  {}

  /** Every record belongs to the move that made it. */
  lemma NewRecordIs(s: Settings, y: System, a: Action, it: Item)
    requires NewRecords(s, y, a) == [it]
    ensures a.Act? && a.res.Granted? && (EntryRecord(s, y, a.move, it) || ReturnRecord(s, y, a.move, it))
    ensures a.move.Enter? ==> it.e.snap == SnapshotFor(KernelTables(s), a.move.call, a.move.mem, a.res.stale)
  {
    var m := a.move;
    ProbeAppends(s, y, m, a.res);
    assert ProbeStep(s, y, m, a.res).ring == y.ring + [it];
    if m.Enter? {
      var tb := KernelTables(s);
      var snap := SnapshotFor(tb, m.call, m.mem, a.res.stale);
      TrackedIffProbe(s, m.call, m.env);
      EventIs(s, tb, y, m.call, snap, m.env);
      assert it == Item(EntryEvent(tb, y.depth, m.call, snap), m.env);
    }
  }

  /** Under any loss and any lag: an entry that stores a frame never finds its place taken, so
      no open frame, and no mark on one, is ever overwritten. */
  lemma EntryFindsNoFrame(s: Settings, acts: seq<Action>, it: Item)
    requires Fits(s, acts) && Run(s, acts).ring != [] && it == Run(s, acts).ring[0] && StoresFrame(s, it)
    ensures KeyOf(it.e.tid, it.e.depth) !in Run(s, acts).tracer.frames
  {
    var m := LagPoint(s, acts);
    var y, i := Run(s, acts[..m]), IdealRun(s, acts[..m]);
    FitsPrefix(s, acts, m);
    SystemRefinesStacks(s, acts[..m]);
    NewRecordIs(s, y, acts[m], it);
    RefinedIsLockstep(s, y, i, it.e.tid);
    assert KeyOf(it.e.tid, it.e.depth) !in Settled(s, y).open;
  }
}
