/** The few string operations the tracer relies on, over byte strings. */
module Text {
  predicate HasPrefix(s: string, p: string) {
    p <= s
  }

  predicate HasSuffix(s: string, p: string) {
    |p| <= |s| && s[|s| - |p|..] == p
  }

  predicate FoundAt(s: string, sub: string, i: nat) {
    i + |sub| <= |s| && s[i..i + |sub|] == sub
  }

  predicate Contains(s: string, sub: string) {
    exists i | 0 <= i <= |s| :: FoundAt(s, sub, i)
  }

  /** Index of the first `c`, or -1. */
  function IndexOf(s: string, c: char): (i: int)
    ensures -1 <= i < |s|
    ensures i >= 0 ==> s[i] == c && c !in s[..i]
    ensures i < 0 ==> c !in s
  {
    if s == [] then -1
    else if s[0] == c then 0
    else
      var j := IndexOf(s[1..], c);
      assert s == [s[0]] + s[1..];
      if j < 0 then -1 else assert s[..j + 1] == [s[0]] + s[1..][..j]; j + 1
  }

  /** Index of the last `c`, or -1. */
  function LastIndexOf(s: string, c: char): (i: int)
    ensures -1 <= i < |s|
    ensures i >= 0 ==> s[i] == c && c !in s[i + 1..]
    ensures i < 0 ==> c !in s
  {
    if s == [] then -1
    else if s[|s| - 1] == c then |s| - 1
    else
      var n := |s| - 1;
      var j := LastIndexOf(s[..n], c);
      assert s == s[..n] + [s[n]];
      if j < 0 then -1 else assert s[j + 1..] == s[..n][j + 1..] + [s[n]]; j
  }

  lemma IndexOfIs(s: string, c: char, k: nat)
    requires k < |s| && s[k] == c && c !in s[..k]
    ensures IndexOf(s, c) == k
  {
    var i := IndexOf(s, c);
    assert forall m | 0 <= m < k :: s[m] == s[..k][m];
    assert forall m | 0 <= m < i :: s[m] == s[..i][m];
  }

  lemma LastIndexOfIs(s: string, c: char, k: nat)
    requires k < |s| && s[k] == c
    ensures LastIndexOf(s, c) == k <==> c !in s[k + 1..]
    ensures LastIndexOf(s, c) >= k
  {
    var i := LastIndexOf(s, c);
    assert forall m | k < m < |s| :: s[m] == s[k + 1..][m - k - 1];
    assert forall m | i < m < |s| :: s[m] == s[i + 1..][m - i - 1];
  }

  function Join(parts: seq<string>, sep: string): string {
    if |parts| == 0 then ""
    else if |parts| == 1 then parts[0]
    else Join(parts[..|parts| - 1], sep) + sep + parts[|parts| - 1]
  }

  /** Joining from the front gives the same text. */
  lemma {:induction false} JoinCons(part: string, rest: seq<string>, sep: string)
    requires rest != []
    ensures Join([part] + rest, sep) == part + sep + Join(rest, sep)
  {
    var n := |rest| - 1;
    var all := [part] + rest;
    assert all[..n + 1] == [part] + rest[..n] && all[n + 1] == rest[n];
    if n > 0 {
      JoinCons(part, rest[..n], sep);
      assert part + sep + Join(rest[..n], sep) + sep + rest[n] == part + sep + (Join(rest[..n], sep) + sep + rest[n]);
    } else {
      assert rest[..0] == [];
    }
  }

  function Flatten(parts: seq<string>): string {
    if parts == [] then "" else parts[0] + Flatten(parts[1..])
  }

  /** One text occurs in another if and only if that is it with something before and behind. */
  lemma ContainsIff(s: string, sub: string)
    ensures Contains(s, sub) <==> exists before: string, behind: string :: s == before + sub + behind
  {
    if Contains(s, sub) {
      var i :| 0 <= i <= |s| && FoundAt(s, sub, i);
      assert s == s[..i] + sub + s[i + |sub|..];
    }
    if before: string, behind: string :| s == before + sub + behind {
      assert FoundAt(s, sub, |before|);
    }
  }

  lemma ContainsMonotone(s: string, t: string, sub: string)
    requires Contains(s, sub)
    ensures Contains(s + t, sub)
  {
    var i :| 0 <= i <= |s| && FoundAt(s, sub, i);
    assert (s + t)[i..i + |sub|] == s[i..i + |sub|];
    assert FoundAt(s + t, sub, i);
  }

  // ----- numerals

  function Digit(d: nat): char
    requires d < 16
  {
    if d < 10 then ('0' as int + d) as char else ('a' as int + d - 10) as char
  }

  /** `n` in the given base, most significant digit first, as %d and %x print it. */
  function Numeral(n: nat, base: nat): (s: string)
    requires 2 <= base <= 16
    ensures |s| >= 1
    decreases n
  {
    if n < base then [Digit(n)]
    else
      QuotientShrinks(n, base);
      Numeral(n / base, base) + [Digit(n % base)]
  }

  lemma QuotientShrinks(n: nat, base: nat)
    requires 2 <= base <= n
    ensures n / base < n
  {
    var q := n / base;
    assert q * base <= n;
    assert q * base >= q * 2;
  }

  function Dec(n: int): string {
    if n < 0 then "-" + Numeral(-n, 10) else Numeral(n, 10)
  }

  function Hex(n: nat): string {
    "0x" + Numeral(n, 16)
  }
}
