/** The argument snapshot that the kernel side takes at a call, and the three decoders that
    read it later. Memory is a partial map from an address to the 8-byte word there. */
module Snapshots {
  import opened Words

  const NARGS: nat := 5
  const NCAP: nat := 16

  type Memory = map<u64, u64>
  type ArgRegs = s: seq<u64> | |s| == 5 witness [0, 0, 0, 0, 0]
  type Window = s: seq<u64> | |s| == 16 witness [0, 0, 0, 0, 0, 0, 0, 0, 0, 0, 0, 0, 0, 0, 0, 0]

  /** What a ring-buffer slot held before: reserving does not clear it. */
  datatype Stale = Stale(cap: Window, cap2: Window)

  datatype Snapshot = Snapshot(argkind: nat, ncap: nat, cap: Window, cap2: Window,
                               vgr: u64, vgoff: int, vstk: u64)

  /** A failed read leaves the zero the caller put there. */
  function Peek(mem: Memory, addr: u64): u64 {
    if addr in mem then mem[addr] else 0
  }

  function PeekWindow(mem: Memory, start: u64): Window {
    seq(16, i requires 0 <= i < 16 => Peek(mem, Wrap64(start + 8 * i)))
  }

  /** The four words of a va_list: one read of 32 bytes, all or nothing. */
  function VaWords(mem: Memory, p: u64): (st: seq<u64>)
    ensures |st| == 4
  {
    var addr := i => Wrap64(p + 8 * i);
    if addr(0) in mem && addr(1) in mem && addr(2) in mem && addr(3) in mem
    then [mem[addr(0)], mem[addr(1)], mem[addr(2)], mem[addr(3)]]
    else [0, 0, 0, 0]
  }

  function Uncaptured(stale: Stale): Snapshot {
    Snapshot(0, 0, stale.cap, stale.cap2, 0, 0, 0)
  }

  function Captured(stale: Stale, a: ArgRegs, mem: Memory, k: nat, ix: nat): Snapshot
    requires ix < NARGS
  {
    if k == 1 then Snapshot(k, NCAP, PeekWindow(mem, a[ix]), stale.cap2, 0, 0, 0)
    else if k == 2 then
      var st := VaWords(mem, a[ix]);
      Snapshot(k, NCAP, PeekWindow(mem, Sub64(st[1], 128)), PeekWindow(mem, st[0]),
               st[1], Truncate32(st[3]), st[0])
    else if k == 3 then
      Snapshot(k, NARGS - ix, stale.cap[0 := a[ix]][1 := if ix + 1 < NARGS then a[ix + 1] else 0],
               stale.cap2, 0, 0, 0)
    else Snapshot(k, NCAP, stale.cap, stale.cap2, 0, 0, 0)
  }

  /** A record in the ring buffer while the probe fills it in. */
  class Record {
    var argkind: nat
    var ncap: nat
    const cap: array<u64>
    const cap2: array<u64>
    var vgr: u64
    var vgoff: int
    var vstk: u64

    ghost predicate Valid() {
      cap.Length == NCAP && cap2.Length == NCAP && cap != cap2
    }

    function Value(): Snapshot
      requires Valid()
      reads this, cap, cap2
    {
      Snapshot(argkind, ncap, cap[..], cap2[..], vgr, vgoff, vstk)
    }

    /** The fields that the entry probe clears; the two windows keep their old content. */
    constructor Reserve(stale: Stale)
      ensures Valid() && fresh(cap) && fresh(cap2)
      ensures Value() == Uncaptured(stale)
    {
      argkind, ncap, vgr, vgoff, vstk := 0, 0, 0, 0, 0;
      cap := new u64[16](i requires 0 <= i < 16 => stale.cap[i]);
      cap2 := new u64[16](i requires 0 <= i < 16 => stale.cap2[i]);
      new;
      assert cap[..] == stale.cap && cap2[..] == stale.cap2;
    }

    method Capture(a: ArgRegs, mem: Memory, k: nat, ix: nat)
      requires Valid() && ix < NARGS
      requires vgr == 0 && vgoff == 0 && vstk == 0
      modifies this, cap, cap2
      ensures Value() == Captured(Stale(old(cap[..]), old(cap2[..])), a, mem, k, ix)
    {
      var p := a[ix];
      argkind := k;
      ncap := NCAP;
      if k == 1 {
        CopyWindow(mem, p, cap);
      } else if k == 2 {
        var st := VaWords(mem, p);
        vstk := st[0];
        vgr := st[1];
        vgoff := Truncate32(st[3]);
        CopyWindow(mem, Sub64(st[1], 128), cap);
        CopyWindow(mem, st[0], cap2);
      } else if k == 3 {
        ncap := NARGS - ix;
        cap[0] := a[ix];
        cap[1] := if ix + 1 < NARGS then a[ix + 1] else 0;
        assert cap[..] == old(cap[..])[0 := a[ix]][1 := cap[1]];
      }
    }
  }

  method CopyWindow(mem: Memory, start: u64, window: array<u64>)
    requires window.Length == NCAP
    modifies window
    ensures window[..] == PeekWindow(mem, start)
  {
    for i := 0 to NCAP
      invariant forall j | 0 <= j < i :: window[j] == Peek(mem, Wrap64(start + 8 * j))
    {
      window[i] := Peek(mem, Wrap64(start + 8 * i));
    }
  }

  // ----- decoding

  /** The parameter types whose values travel in vector registers. */
  predicate IsFp(t: string) {
    t == "F" || t == "D"
  }

  function WordsA(sn: Snapshot, params: seq<string>): seq<Option<u64>> {
    seq(|params|, i requires 0 <= i < |params| => if i < NCAP then Some(sn.cap[i]) else None)
  }

  function SaveIndex(sn: Snapshot, gr: int): int {
    TruncDiv(AsS64(Wrap64(AsS64(sn.vgr) + gr - AsS64(Sub64(sn.vgr, 128)))), 8)
  }

  function WordAt(window: Window, idx: int): u64 {
    if 0 <= idx < NCAP then window[idx] else 0
  }

  /** One parameter of the va_list decoder: its word, and the two cursors after it. */
  function NextV(sn: Snapshot, fp: bool, gr: int, stack: u64): (Option<u64>, int, u64) {
    if fp then (None, gr, stack)
    else if sn.vgr != 0 && gr < 0 then (Some(WordAt(sn.cap, SaveIndex(sn, gr))), gr + 8, stack)
    else (Some(WordAt(sn.cap2, Sub64(stack, sn.vstk) / 8)), gr, Add64(stack, 8))
  }

  function WordsV(sn: Snapshot, params: seq<string>, gr: int, stack: u64): (ws: seq<Option<u64>>)
    ensures |ws| == |params|
  {
    if params == [] then []
    else
      var (w, gr', stack') := NextV(sn, IsFp(params[0]), gr, stack);
      [w] + WordsV(sn, params[1..], gr', stack')
  }

  function WordsDirect(sn: Snapshot, params: seq<string>): seq<Option<u64>> {
    seq(|params|, i requires 0 <= i < |params| => if i < sn.ncap && i < 2 then Some(sn.cap[i]) else None)
  }

  /** Which decoder the consumer picks, by the same suffixes that chose the snapshot kind. */
  function DecodedWords(kind: nat, sn: Snapshot, params: seq<string>): (ws: seq<Option<u64>>)
    ensures |ws| == |params|
  {
    if kind == 1 then WordsA(sn, params)
    else if kind == 2 then WordsV(sn, params, sn.vgoff, sn.vstk)
    else WordsDirect(sn, params)
  }

  /** Values are printed by type; a parameter without a known word prints as "?". */
  function Render(show: (string, u64) -> string, params: seq<string>, ws: seq<Option<u64>>): (out: seq<string>)
    requires |ws| == |params|
    ensures |out| == |params|
  {
    seq(|params|, i requires 0 <= i < |params| =>
      if ws[i].Some? then show(params[i], ws[i].value) else "?")
  }

  method DecodeA(sn: Snapshot, params: seq<string>, show: (string, u64) -> string) returns (out: seq<string>)
    ensures out == Render(show, params, WordsA(sn, params))
  {
    out := [];
    for i := 0 to |params|
      invariant |out| == i
      invariant forall j | 0 <= j < i :: out[j] == Render(show, params, WordsA(sn, params))[j]
    {
      if i >= NCAP {
        out := out + ["?"];
        continue;
      }
      out := out + [show(params[i], sn.cap[i])];
    }
  }

  method DecodeV(sn: Snapshot, params: seq<string>, show: (string, u64) -> string) returns (out: seq<string>)
    ensures out == Render(show, params, WordsV(sn, params, sn.vgoff, sn.vstk))
  {
    out := [];
    var gr, stack := sn.vgoff, sn.vstk;
    ghost var ws := WordsV(sn, params, sn.vgoff, sn.vstk);
    for i := 0 to |params|
      invariant |out| == i
      invariant ws[i..] == WordsV(sn, params[i..], gr, stack)
      invariant forall j | 0 <= j < i :: out[j] == Render(show, params, ws)[j]
    {
      var t := params[i];
      assert params[i..][0] == t && params[i..][1..] == params[i + 1..];
      assert ws[i] == ws[i..][0] && ws[i + 1..] == ws[i..][1..];
      if t == "F" || t == "D" {
        out := out + ["?"];
        continue;
      }
      var val: u64 := 0;
      if sn.vgr != 0 && gr < 0 {
        var idx := SaveIndex(sn, gr);
        if idx >= 0 && idx < NCAP {
          val := sn.cap[idx];
        }
        gr := gr + 8;
      } else {
        var idx := Sub64(stack, sn.vstk) / 8;
        if idx >= 0 && idx < NCAP {
          val := sn.cap2[idx];
        }
        stack := Add64(stack, 8);
      }
      out := out + [show(t, val)];
    }
  }

  method DecodeDirect(sn: Snapshot, params: seq<string>, show: (string, u64) -> string) returns (out: seq<string>)
    ensures out == Render(show, params, WordsDirect(sn, params))
  {
    out := [];
    for i := 0 to |params|
      invariant |out| == i
      invariant forall j | 0 <= j < i :: out[j] == Render(show, params, WordsDirect(sn, params))[j]
    {
      if i >= sn.ncap || i >= 2 {
        out := out + ["?"];
        continue;
      }
      out := out + [show(params[i], sn.cap[i])];
    }
  }

  /** Snapshot definedness: when the snapshot kind and the decoder agree, nothing a decoder
      reads is left over from an earlier use of the record. */
  lemma DecodersReadOnlyCaptured(s1: Stale, s2: Stale, a: ArgRegs, mem: Memory, k: nat, ix: nat, params: seq<string>)
    requires 1 <= k <= 3 && ix < NARGS
    ensures DecodedWords(k, Captured(s1, a, mem, k, ix), params) == DecodedWords(k, Captured(s2, a, mem, k, ix), params)
  {
    if k == 2 {
      var c1, c2 := Captured(s1, a, mem, k, ix), Captured(s2, a, mem, k, ix);
      assert c1 == c2;
    }
  }
}
