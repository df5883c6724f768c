/** The offset file: the table dump written as decimal slot keys and 0x-prefixed offsets, and
    read back. The JSON syntax around the pairs of texts stays uninterpreted. */
module OffsetFile {
  import opened Words
  import opened Text
  import opened Filtering

  // ----- reading numbers

  function DigitValue(c: char): nat {
    if '0' <= c <= '9' then c as int - '0' as int
    else if 'a' <= c <= 'z' then c as int - 'a' as int + 10
    else if 'A' <= c <= 'Z' then c as int - 'A' as int + 10
    else 99
  }

  function ParseDigits(s: string, base: nat): Option<nat> {
    if s == "" then None
    else
      var d := DigitValue(s[|s| - 1]);
      if d >= base then None
      else if |s| == 1 then Some(d)
      else
        var high := ParseDigits(s[..|s| - 1], base);
        if high.None? then None else Some(high.value * base + d)
  }

  /** strconv.Atoi. */
  function ParseInt(s: string): Option<int> {
    var neg := s != "" && s[0] == '-';
    var digits := if s != "" && (s[0] == '-' || s[0] == '+') then s[1..] else s;
    var n := ParseDigits(digits, 10);
    if n.None? then None
    else
      var v: int := if neg then 0 - (n.value as int) else n.value;
      if -TWO_63 <= v < TWO_63 then Some(v) else None
  }

  /** strconv.ParseUint with base 0: the prefix chooses the base. */
  function ParseOffset(s: string): Option<u64> {
    var n :=
      if s == "0" then Some(0)
      else if |s| >= 3 && s[0] == '0' && s[1] in "xX" then ParseDigits(s[2..], 16)
      else if |s| >= 3 && s[0] == '0' && s[1] in "bB" then ParseDigits(s[2..], 2)
      else if |s| >= 3 && s[0] == '0' && s[1] in "oO" then ParseDigits(s[2..], 8)
      else if s != "" && s[0] == '0' then ParseDigits(s[1..], 8)
      else ParseDigits(s, 10);
    if n.Some? && n.value < TWO_64 then Some(n.value) else None
  }

  lemma DigitRoundTrip(d: nat)
    requires d < 16
    ensures DigitValue(Digit(d)) == d
  {}

  lemma Divides(n: nat, base: nat)
    requires base > 0
    ensures n == n / base * base + n % base && n % base < base
  {}

  lemma ParseSnoc(high: string, c: char, base: nat, h: nat)
    requires high != "" && ParseDigits(high, base) == Some(h) && DigitValue(c) < base
    ensures ParseDigits(high + [c], base) == Some(h * base + DigitValue(c))
  {
    var s := high + [c];
    assert s[..|s| - 1] == high;
  }

  lemma {:induction false} NumeralRoundTrip(n: nat, base: nat)
    requires 2 <= base <= 16
    ensures ParseDigits(Numeral(n, base), base) == Some(n)
    ensures forall c | c in Numeral(n, base) :: DigitValue(c) < base
    decreases n
  {
    Divides(n, base);
    if n < base {
      DigitRoundTrip(n);
    } else {
      QuotientShrinks(n, base);
      NumeralRoundTrip(n / base, base);
      DigitRoundTrip(n % base);
      ParseSnoc(Numeral(n / base, base), Digit(n % base), base, n / base);
    }
  }

  lemma DecRoundTrip(i: nat)
    requires i < TWO_63
    ensures ParseInt(Dec(i)) == Some(i)
  {
    NumeralRoundTrip(i, 10);
    var s := Dec(i);
    assert s[0] in s && DigitValue(s[0]) < 10;
  }

  lemma DecInjective(i: nat, j: nat)
    requires i < TWO_63 && j < TWO_63 && i != j
    ensures Dec(i) != Dec(j)
  {
    DecRoundTrip(i);
    DecRoundTrip(j);
  }

  lemma NoSpaceNoTrim(s: string)
    requires s != "" && !IsSpace(s[0]) && !IsSpace(s[|s| - 1])
    ensures Trim(s) == s
  {}

  lemma HexRoundTrip(v: u64)
    ensures Trim(Hex(v)) == Hex(v) && ParseOffset(Hex(v)) == Some(v)
  {
    NumeralRoundTrip(v, 16);
    var s := Hex(v);
    assert s[2..] == Numeral(v, 16);
    var last := s[|s| - 1];
    assert last in s[2..] && DigitValue(last) < 16;
    NoSpaceNoTrim(s);
  }

  lemma {:induction false} NoLeadingZero(n: nat, base: nat)
    requires 2 <= base <= 16 && n > 0
    ensures Numeral(n, base)[0] != '0'
    decreases n
  {
    Divides(n, base);
    if n >= base {
      QuotientShrinks(n, base);
      assert n / base > 0;
      NoLeadingZero(n / base, base);
    }
  }

  lemma PrefixedForm(p: string, v: u64, base: nat)
    requires 2 <= base <= 16
    ensures var s := p + Numeral(v, base);
            |s| > |p| && s[..|p|] == p && ParseDigits(s[|p|..], base) == Some(v) && DigitValue(s[|p|]) < base
  {
    var s := p + Numeral(v, base);
    NumeralRoundTrip(v, base);
    assert s[|p|..] == Numeral(v, base) && s[|p|] in Numeral(v, base);
  }

  /** Hexadecimal, octal and binary offsets are told apart by their prefix. */
  lemma PrefixChoosesBase(v: u64, p: string, base: nat)
    requires |p| == 2 && p[0] == '0'
    requires (p[1] in "xX" && base == 16) || (p[1] in "oO" && base == 8) || (p[1] in "bB" && base == 2)
    ensures ParseOffset(p + Numeral(v, base)) == Some(v)
  {
    var s := p + Numeral(v, base);
    PrefixedForm(p, v, base);
    assert s[0] == '0' && s[1] == p[1];
  }

  /** Octal digits may also stand behind a plain 0. */
  lemma PlainOctal(v: u64)
    ensures ParseOffset("0" + Numeral(v, 8)) == Some(v)
  {
    var s := "0" + Numeral(v, 8);
    PrefixedForm("0", v, 8);
    assert forall c | c in "xXbBoO" :: DigitValue(c) >= 8;
    assert s[0] == '0' && s[1] !in "xXbBoO" && |s| > 1;
  }

  /** Without a prefix an offset is decimal. */
  lemma DecimalOffset(v: u64)
    ensures ParseOffset(Numeral(v, 10)) == Some(v)
  {
    var s := Numeral(v, 10);
    NumeralRoundTrip(v, 10);
    if v > 0 {
      NoLeadingZero(v, 10);
    }
  }

  // ----- writing

  /** A dump of the table: where it was found and its slots. */
  datatype Dump = Dump(slots: seq<u64>, base: u64, lo: u64, hi: u64) {
    predicate InCode(i: nat)
      requires i < |slots|
    {
      lo <= slots[i] < hi
    }
  }

  function Field(d: Dump, i: nat): (string, string)
    requires i < |d.slots|
  {
    (Dec(i), Hex(Sub64(d.slots[i], d.base)))
  }

  /** The fields of the first `n` slots: those inside the executable segment, in order. */
  function FieldsOf(d: Dump, n: nat): seq<(string, string)>
    requires n <= |d.slots|
  {
    if n == 0 then [] else FieldsOf(d, n - 1) + if d.InCode(n - 1) then [Field(d, n - 1)] else []
  }

  /** Writes the file, unless fewer than half of the slots are in the executable segment. */
  method WriteFields(d: Dump) returns (res: Option<seq<(string, string)>>)
    ensures res == if 2 * |FieldsOf(d, |d.slots|)| < |d.slots| then None else Some(FieldsOf(d, |d.slots|))
  {
    var inside := 0;
    for i := 0 to |d.slots|
      invariant inside == |FieldsOf(d, i)|
    {
      if d.slots[i] >= d.lo && d.slots[i] < d.hi {
        inside := inside + 1;
      }
    }
    if 2 * inside < |d.slots| {
      return None;
    }
    var fields := [];
    for i := 0 to |d.slots|
      invariant fields == FieldsOf(d, i)
    {
      if d.slots[i] >= d.lo && d.slots[i] < d.hi {
        fields := fields + [Field(d, i)];
      }
    }
    return Some(fields);
  }

  /** The object that the reader's JSON library makes of a list of fields. */
  function Decoded(fields: seq<(string, string)>): map<string, string> {
    if fields == [] then map[]
    else Decoded(fields[..|fields| - 1])[fields[|fields| - 1].0 := fields[|fields| - 1].1]
  }

  lemma DecodedSnoc(fields: seq<(string, string)>, f: (string, string))
    ensures Decoded(fields + [f]) == Decoded(fields)[f.0 := f.1]
  {
    assert (fields + [f])[..|fields|] == fields;
  }

  /** One more slot adds its own field, or none, and leaves the others. */
  lemma FieldsStep(d: Dump, n: nat)
    requires 0 < n <= |d.slots|
    ensures var before, f := Decoded(FieldsOf(d, n - 1)), Field(d, n - 1);
            Decoded(FieldsOf(d, n)) == if d.InCode(n - 1) then before[f.0 := f.1] else before
  {
    var before := FieldsOf(d, n - 1);
    if d.InCode(n - 1) {
      DecodedSnoc(before, Field(d, n - 1));
    } else {
      assert before + [] == before;
    }
  }

  lemma OtherKeyStays(m: map<string, string>, f: (string, string), k: string)
    requires k in m && k != f.0
    ensures k in m[f.0 := f.1] && m[f.0 := f.1][k] == m[k]
  {}

  lemma {:induction false} FieldIsDecoded(d: Dump, n: nat, i: nat)
    requires i < n <= |d.slots| < TWO_63 && d.InCode(i)
    ensures Dec(i) in Decoded(FieldsOf(d, n)) && Decoded(FieldsOf(d, n))[Dec(i)] == Field(d, i).1
    decreases n
  {
    var before, k, f := Decoded(FieldsOf(d, n - 1)), Dec(i), Field(d, n - 1);
    FieldsStep(d, n);
    if i < n - 1 {
      DecInjective(i, n - 1);
      FieldIsDecoded(d, n - 1, i);
      OtherKeyStays(before, f, k);
    }
  }

  lemma {:induction false} DecodedIsField(d: Dump, n: nat, k: string) returns (i: nat)
    requires n <= |d.slots| && k in Decoded(FieldsOf(d, n))
    ensures i < n && d.InCode(i) && k == Dec(i)
    decreases n
  {
    FieldsStep(d, n);
    if d.InCode(n - 1) && k == Dec(n - 1) {
      i := n - 1;
    } else {
      i := DecodedIsField(d, n - 1, k);
    }
  }

  // ----- reading

  /** What one pair of the file stands for, if anything: slot in the schema, offset. */
  function Reading(key: string, text: string, rows: nat): Option<(u64, int)> {
    var slot, off := ParseInt(key), ParseOffset(Trim(text));
    if slot.Some? && 0 <= slot.value < rows && off.Some? then Some((off.value, slot.value)) else None
  }

  /** Each pair that stands for something is in the map, unless another pair with the same
      offset is; nothing else is. */
  ghost predicate ReadAs(fields: map<string, string>, rows: nat, out: map<u64, int>) {
    && (forall k | k in fields :: Reading(k, fields[k], rows).Some? ==> Reading(k, fields[k], rows).value.0 in out)
    && (forall off | off in out :: exists k :: k in fields && Reading(k, fields[k], rows) == Some((off, out[off])))
  }

  /** Reads the pairs in whatever order the map is visited. */
  method OffsetsFromFields(fields: map<string, string>, rows: nat) returns (out: map<u64, int>)
    ensures ReadAs(fields, rows, out)
  {
    out := map[];
    var todo := fields.Keys;
    while todo != {}
      invariant todo <= fields.Keys
      invariant forall k | k in fields.Keys - todo ::
        Reading(k, fields[k], rows).Some? ==> Reading(k, fields[k], rows).value.0 in out
      invariant forall off | off in out :: exists k :: k in fields && Reading(k, fields[k], rows) == Some((off, out[off]))
    {
      var k :| k in todo;
      todo := todo - {k};
      var slot := ParseInt(k);
      if slot.None? || slot.value < 0 || slot.value >= rows {
        continue;
      }
      var off := ParseOffset(Trim(fields[k]));
      if off.None? {
        continue;
      }
      assert Reading(k, fields[k], rows) == Some((off.value, slot.value));
      out := out[off.value := slot.value];
    }
  }

  /** No two slots of the dump hold the same address. */
  predicate Distinct(d: Dump) {
    forall i, j | 0 <= i < j < |d.slots| && d.InCode(i) && d.InCode(j) :: d.slots[i] != d.slots[j]
  }

  lemma FieldReads(d: Dump, i: nat, rows: nat)
    requires i < |d.slots| < TWO_63
    ensures Reading(Field(d, i).0, Field(d, i).1, rows) == if i < rows then Some((Sub64(d.slots[i], d.base), i)) else None
  {
    DecRoundTrip(i);
    HexRoundTrip(Sub64(d.slots[i], d.base));
  }

  /** Slot `i` of the dump is kept: in the executable segment and in the schema. */
  predicate Kept(d: Dump, rows: nat, i: nat) {
    i < |d.slots| && i < rows && d.lo <= d.slots[i] < d.hi
  }

  /** Reading a written file back, in any order, gives exactly the inverse of the dump: every
      kept slot by its offset modulo 2^64, and nothing else. */
  lemma FileRoundTrip(d: Dump, rows: nat, out: map<u64, int>)
    requires |d.slots| < TWO_63 && Distinct(d)
    requires ReadAs(Decoded(FieldsOf(d, |d.slots|)), rows, out)
    ensures forall i: nat :: Kept(d, rows, i) ==> Sub64(d.slots[i], d.base) in out && out[Sub64(d.slots[i], d.base)] == i
    ensures forall off | off in out :: out[off] >= 0 && Kept(d, rows, out[off]) && Sub64(d.slots[out[off]], d.base) == off
  {
    var fields := Decoded(FieldsOf(d, |d.slots|));
    forall off | off in out
      ensures out[off] >= 0 && Kept(d, rows, out[off]) && Sub64(d.slots[out[off]], d.base) == off
    {
      var k :| k in fields && Reading(k, fields[k], rows) == Some((off, out[off]));
      var i := DecodedIsField(d, |d.slots|, k);
      FieldIsDecoded(d, |d.slots|, i);
      FieldReads(d, i, rows);
    }
    forall i: nat | Kept(d, rows, i)
      ensures Sub64(d.slots[i], d.base) in out && out[Sub64(d.slots[i], d.base)] == i
    {
      FieldIsDecoded(d, |d.slots|, i);
      FieldReads(d, i, rows);
      var off := Sub64(d.slots[i], d.base);
      assert off in out;
      OffsetsDiffer(d, i, out[off]);
    }
  }

  lemma OffsetsDiffer(d: Dump, i: nat, j: nat)
    requires i < |d.slots| && j < |d.slots| && d.InCode(i) && d.InCode(j) && Distinct(d)
    requires Sub64(d.slots[i], d.base) == Sub64(d.slots[j], d.base)
    ensures i == j
  {
    assert d.slots[i] == d.slots[j];
  }
}
