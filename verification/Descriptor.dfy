/** Method descriptors (sections 4.3.2 and 4.3.3 of the Java Virtual Machine Specification)
    and the tracer's parser of their parameter part. */
module Descriptor {
  import opened Text

  // ----- the grammar

  datatype FieldType =
    | Base(letter: char)
    | Object(name: string)
    | Array(elem: FieldType)
  {
    predicate WellFormed() {
      match this
      case Base(c) => c in "BCDFIJSZ"
      case Object(n) => ';' !in n
      case Array(e) => e.WellFormed()
    }

    function Show(): (s: string)
      ensures |s| >= 1
    {
      match this
      case Base(c) => [c]
      case Object(n) => "L" + n + ";"
      case Array(e) => "[" + e.Show()
    }
  }

  function ShowAll(ts: seq<FieldType>): seq<string> {
    seq(|ts|, i requires 0 <= i < |ts| => ts[i].Show())
  }

  function MethodDescriptor(params: seq<FieldType>, ret: string): string {
    "(" + Flatten(ShowAll(params)) + ")" + ret
  }

  // ----- what the parser computes

  /** First index at or after `i` that holds `c`, or the length. */
  function SkipTo(s: string, i: nat, c: char): (j: nat)
    requires i <= |s|
    ensures i <= j <= |s|
    decreases |s| - i
  {
    if i == |s| || s[i] == c then i else SkipTo(s, i + 1, c)
  }

  function SkipBrackets(s: string, i: nat): (j: nat)
    requires i <= |s|
    ensures i <= j <= |s|
    decreases |s| - i
  {
    if i == |s| || s[i] != '[' then i else SkipBrackets(s, i + 1)
  }

  /** Where the parameter that starts at `i` ends; |s| + 1 when it is cut off. */
  function PieceEnd(s: string, i: nat): (j: nat)
    requires i < |s|
    ensures i < j <= |s| + 1
  {
    if s[i] == 'L' then SkipTo(s, i, ';') + 1
    else if s[i] == '[' then
      var k := SkipBrackets(s, i + 1);
      if k < |s| && s[k] == 'L' then SkipTo(s, k, ';') + 1 else k + 1
    else i + 1
  }

  function PiecesFrom(s: string, i: nat): seq<string>
    requires i <= |s| + 1
    decreases |s| + 1 - i
  {
    if i >= |s| || s[i] == ')' then []
    else
      var j := PieceEnd(s, i);
      (if j <= |s| then [s[i..j]] else []) + PiecesFrom(s, j)
  }

  function Pieces(sig: string): seq<string> {
    if |sig| == 0 || sig[0] != '(' then [] else PiecesFrom(sig, 1)
  }

  /** The switch of the parser: moves past the parameter that starts at `start`. */
  method PassPiece(sig: string, start: nat) returns (i: nat)
    requires start < |sig|
    ensures i == PieceEnd(sig, start)
  {
    i := start;
    if sig[i] == 'L' {
      while i < |sig| && sig[i] != ';'
        invariant start <= i <= |sig|
        invariant SkipTo(sig, i, ';') == SkipTo(sig, start, ';')
      {
        i := i + 1;
      }
      i := i + 1;
    } else if sig[i] == '[' {
      i := i + 1;
      while i < |sig| && sig[i] == '['
        invariant start + 1 <= i <= |sig|
        invariant SkipBrackets(sig, i) == SkipBrackets(sig, start + 1)
      {
        i := i + 1;
      }
      if i < |sig| && sig[i] == 'L' {
        ghost var k := i;
        while i < |sig| && sig[i] != ';'
          invariant k <= i <= |sig|
          invariant SkipTo(sig, i, ';') == SkipTo(sig, k, ';')
        {
          i := i + 1;
        }
        i := i + 1;
      } else {
        i := i + 1;
      }
    } else {
      i := i + 1;
    }
  }

  method ParseParams(sig: string) returns (out: seq<string>)
    ensures out == Pieces(sig)
  {
    out := [];
    if |sig| == 0 || sig[0] != '(' {
      return;
    }
    var i := 1;
    while i < |sig| && sig[i] != ')'
      invariant 1 <= i <= |sig| + 1
      invariant out + PiecesFrom(sig, i) == Pieces(sig)
      decreases |sig| + 1 - i
    {
      var start := i;
      i := PassPiece(sig, start);
      if start < i && i <= |sig| {
        assert out + PiecesFrom(sig, start) == out + [sig[start..i]] + PiecesFrom(sig, i);
        out := out + [sig[start..i]];
      }
    }
  }

  // ----- round trip

  lemma {:induction false} SkipToFinds(s: string, i: nat, name: string, c: char)
    requires i + |name| < |s| && s[i..i + |name|] == name && s[i + |name|] == c && c !in name
    ensures SkipTo(s, i, c) == i + |name|
    decreases |name|
  {
    if name != "" {
      assert s[i] == name[0];
      assert s[i + 1..i + 1 + |name[1..]|] == name[1..];
      SkipToFinds(s, i + 1, name[1..], c);
    }
  }

  /** A well-formed descriptor at position `i` is exactly one piece. */
  lemma {:induction false} PieceIsDescriptor(s: string, i: nat, t: FieldType)
    requires t.WellFormed() && i + |t.Show()| <= |s| && s[i..i + |t.Show()|] == t.Show()
    ensures s[i] != ')' && PieceEnd(s, i) == i + |t.Show()|
    decreases t
  {
    assert s[i] == t.Show()[0];
    match t
    case Base(c) =>
    case Object(n) =>
      ObjectEnd(s, i, n);
    case Array(e) =>
      assert s[i + 1..i + 1 + |e.Show()|] == e.Show() by {
        assert t.Show()[1..] == e.Show();
      }
      assert s[i + 1] == e.Show()[0];
      PieceIsDescriptor(s, i + 1, e);
  }

  lemma ObjectEnd(s: string, i: nat, name: string)
    requires ';' !in name
    requires i + |name| + 2 <= |s| && s[i..i + |name| + 2] == "L" + name + ";"
    ensures SkipTo(s, i, ';') == i + |name| + 1
  {
    var u := "L" + name;
    var shown := u + ";";
    assert s[i..i + |u|] == shown[..|u|] == u;
    assert s[i + |u|] == shown[|u|] == ';';
    SkipToFinds(s, i, u, ';');
  }

  lemma ShowAllCons(ts: seq<FieldType>)
    requires ts != []
    ensures ShowAll(ts) == [ts[0].Show()] + ShowAll(ts[1..])
    ensures Flatten(ShowAll(ts)) == ts[0].Show() + Flatten(ShowAll(ts[1..]))
  {
    assert ShowAll(ts)[1..] == ShowAll(ts[1..]);
  }

  lemma {:induction false} PiecesAreDescriptors(s: string, i: nat, ts: seq<FieldType>)
    requires forall t | t in ts :: t.WellFormed()
    requires i + |Flatten(ShowAll(ts))| < |s|
    requires s[i..i + |Flatten(ShowAll(ts))|] == Flatten(ShowAll(ts))
    requires s[i + |Flatten(ShowAll(ts))|] == ')'
    ensures PiecesFrom(s, i) == ShowAll(ts)
    decreases |ts|
  {
    if ts != [] {
      var head, rest := ts[0].Show(), Flatten(ShowAll(ts[1..]));
      ShowAllCons(ts);
      assert s[i..i + |head|] == (head + rest)[..|head|] == head;
      assert s[i + |head|..i + |head| + |rest|] == (head + rest)[|head|..] == rest;
      PieceIsDescriptor(s, i, ts[0]);
      PiecesAreDescriptors(s, i + |head|, ts[1..]);
    }
  }

  /** Parsing a method descriptor gives back exactly its parameter descriptors. */
  lemma ParseRoundTrip(params: seq<FieldType>, ret: string)
    requires forall t | t in params :: t.WellFormed()
    ensures Pieces(MethodDescriptor(params, ret)) == ShowAll(params)
  {
    var s, mid := MethodDescriptor(params, ret), Flatten(ShowAll(params));
    assert s[1..1 + |mid|] == mid;
    PiecesAreDescriptors(s, 1, params);
  }

  // ----- arbitrary text

  /** On any text the pieces are non-empty and, put together, are the text from `i` on up
      to where the parser stopped: nothing is skipped between two pieces. */
  lemma {:induction false} PiecesAreContiguous(s: string, i: nat)
    requires i <= |s| + 1
    ensures forall p | p in PiecesFrom(s, i) :: p != "" && p[0] != ')'
    ensures i <= |s| ==> Flatten(PiecesFrom(s, i)) <= s[i..]
    ensures i > |s| ==> PiecesFrom(s, i) == []
    decreases |s| + 1 - i
  {
    if i < |s| && s[i] != ')' {
      var j := PieceEnd(s, i);
      PiecesAreContiguous(s, j);
      if j <= |s| {
        assert PiecesFrom(s, i)[1..] == PiecesFrom(s, j);
        assert s[i..] == s[i..j] + s[j..];
      }
    }
  }

  /** What the parser leaves unread: it stops at the first ')' that no piece covers, or at
      the end of the text, or drops one last descriptor that the text cuts off. */
  lemma {:induction false} StopsAtEnd(s: string, i: nat)
    requires i <= |s|
    ensures var n := i + |Flatten(PiecesFrom(s, i))|;
            n == |s| || (n < |s| && s[n] == ')') || (n < |s| && PieceEnd(s, n) == |s| + 1)
    decreases |s| - i
  {
    if i < |s| && s[i] != ')' {
      var j := PieceEnd(s, i);
      if j <= |s| {
        assert PiecesFrom(s, i)[1..] == PiecesFrom(s, j);
        StopsAtEnd(s, j);
      } else {
        assert PiecesFrom(s, j) == [];
      }
    }
  }

  /** The whole parser on any text: the pieces are everything after '(' up to position `n`,
      in order; there the text ends, or stands a ')', or the text cuts one descriptor off. */
  lemma ParseIsPrefix(sig: string)
    ensures forall p | p in Pieces(sig) :: p != "" && p[0] != ')'
    ensures |sig| == 0 || sig[0] != '(' ==> Pieces(sig) == []
    ensures |sig| > 0 && sig[0] == '(' ==>
              var n := 1 + |Flatten(Pieces(sig))|;
              && n <= |sig| && sig[1..n] == Flatten(Pieces(sig))
              && (n == |sig| || sig[n] == ')' || PieceEnd(sig, n) == |sig| + 1)
  {
    if |sig| > 0 && sig[0] == '(' {
      PiecesAreContiguous(sig, 1);
      StopsAtEnd(sig, 1);
    }
  }
}
