/** The kernel-side probes: the entry probe on every slot, the return probe on the tracked
    ones, and the per-thread depth they keep between them. */
module Kernel {
  import opened Words
  import opened Snapshots

  datatype Kind = Entry | Return

  /** Registers and clock at a call, as the entry probe sees them. */
  datatype Call = Call(tid: u32, ip: u64, lr: u64, x: ArgRegs, ts: u64)

  /** Registers and clock at a return. */
  datatype Exit = Exit(tid: u32, ip: u64, rc: u64, ts: u64)

  datatype Event = Event(kind: Kind, tid: u32, ip: u64, rc: u64, ts: u64, depth: int, caller: u64,
                         a: ArgRegs, snap: Snapshot)

  /** The maps that the consumer fills before it attaches the probes, keyed by file offset. */
  datatype Tables = Tables(base: u64, hasret: set<u64>, argkind: map<u64, nat>, argidx: map<u64, nat>)

  /** The answer of the ring buffer: no room, or a record with its old content. */
  datatype Reservation = Full | Granted(stale: Stale)

  /** The depth map holds at most this many threads. */
  const DEPTH_ROOM: nat := 4096

  function DepthOf(depth: map<u32, u32>, tid: u32): u32 {
    if tid in depth then depth[tid] else 0
  }

  /** An update of a hash map with limited room; a failed update is ignored. */
  function Put<V>(m: map<u32, V>, tid: u32, v: V): map<u32, V> {
    if tid in m || |m| < DEPTH_ROOM then m[tid := v] else m
  }

  function SnapshotFor(tb: Tables, call: Call, mem: Memory, stale: Stale): Snapshot {
    var off := Sub64(call.ip, tb.base);
    if off in tb.argkind && off in tb.argidx && tb.argkind[off] != 0 && tb.argidx[off] < NARGS
    then Captured(stale, call.x, mem, tb.argkind[off], tb.argidx[off])
    else Uncaptured(stale)
  }

  predicate IsTracked(tb: Tables, call: Call) {
    Sub64(call.ip, tb.base) in tb.hasret
  }

  function EntryEvent(tb: Tables, depth: map<u32, u32>, call: Call, snap: Snapshot): Event {
    Event(Entry, call.tid, call.ip, 0, call.ts,
          if IsTracked(tb, call) then AsS32(DepthOf(depth, call.tid)) else -1, call.lr, call.x, snap)
  }

  function DepthAfterEntry(tb: Tables, depth: map<u32, u32>, call: Call): map<u32, u32> {
    if IsTracked(tb, call) then Put(depth, call.tid, (DepthOf(depth, call.tid) as int + 1) % TWO_32) else depth
  }

  function Popped(d: u32): u32 {
    if d > 0 then d - 1 else 0
  }

  function ReturnEvent(depth: map<u32, u32>, exit: Exit, stale: Stale): Event {
    Event(Return, exit.tid, exit.ip, exit.rc, exit.ts, AsS32(Popped(DepthOf(depth, exit.tid))),
          0, [0, 0, 0, 0, 0], Uncaptured(stale))
  }

  function DepthAfterReturn(depth: map<u32, u32>, tid: u32): map<u32, u32> {
    Put(depth, tid, Popped(DepthOf(depth, tid)))
  }

  class Probes {
    var depth: map<u32, u32>
    var ring: seq<Event>

    constructor ()
      ensures depth == map[] && ring == []
    {
      depth, ring := map[], [];
    }

    method UpAll(tb: Tables, call: Call, mem: Memory, res: Reservation)
      modifies this
      ensures res.Full? ==> depth == old(depth) && ring == old(ring)
      ensures res.Granted? ==> depth == DepthAfterEntry(tb, old(depth), call)
      ensures res.Granted? ==> ring == old(ring) + [EntryEvent(tb, old(depth), call, SnapshotFor(tb, call, mem, res.stale))]
    {
      if res.Full? {
        return;
      }
      var rec := new Record.Reserve(res.stale);
      var stamp := -1;
      var off := Sub64(call.ip, tb.base);
      if off in tb.hasret {
        var d: u32 := 0;
        if call.tid in depth {
          d := depth[call.tid];
        }
        var nd: u32 := (d as int + 1) % TWO_32;
        Update(call.tid, nd);
        stamp := AsS32(d);
      }
      if off in tb.argkind && off in tb.argidx {
        if tb.argkind[off] != 0 && tb.argidx[off] < NARGS {
          rec.Capture(call.x, mem, tb.argkind[off], tb.argidx[off]);
        }
      }
      ring := ring + [Event(Entry, call.tid, call.ip, 0, call.ts, stamp, call.lr, call.x, rec.Value())];
    }

    method UpRet(exit: Exit, res: Reservation)
      modifies this
      ensures res.Full? ==> depth == old(depth) && ring == old(ring)
      ensures res.Granted? ==> depth == DepthAfterReturn(old(depth), exit.tid)
      ensures res.Granted? ==> ring == old(ring) + [ReturnEvent(old(depth), exit, res.stale)]
    {
      if res.Full? {
        return;
      }
      var rec := new Record.Reserve(res.stale);
      var d: u32 := 0;
      if exit.tid in depth {
        d := depth[exit.tid];
      }
      var nd: u32 := if d > 0 then d - 1 else 0;
      Update(exit.tid, nd);
      ring := ring + [Event(Return, exit.tid, exit.ip, exit.rc, exit.ts, AsS32(nd), 0, [0, 0, 0, 0, 0], rec.Value())];
    }

    method Update(tid: u32, v: u32)
      modifies `depth
      ensures depth == Put(old(depth), tid, v)
    {
      if tid in depth || |depth| < DEPTH_ROOM {
        depth := depth[tid := v];
      }
    }
  }
}
