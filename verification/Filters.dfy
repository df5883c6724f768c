/** The user's filters: which slots and which lines are wanted, and the interactive
    commands that rewrite them while the tracer runs. */
module Filtering {
  import opened Words
  import opened Text
  import opened Schema

  /** Regular expressions stay uninterpreted: `rx(pattern, text)`. */
  type Matcher = (string, string) -> bool

  datatype Filter = Filter(modes: set<string>, only: seq<string>, exclude: seq<string>, grep: string,
                           classRe: Option<string>, methodRe: Option<string>, from: seq<string>)

  predicate AnyIn(name: string, needles: seq<string>) {
    exists i | 0 <= i < |needles| :: Contains(name, needles[i])
  }

  predicate NameWanted(f: Filter, name: string, cat: string) {
    && !AnyIn(name, f.exclude)
    && (if f.only != [] then AnyIn(name, f.only) else "all" in f.modes || cat in f.modes)
  }

  predicate SlotWanted(tb: Table, f: Filter, slot: int) {
    NameWanted(f, SlotName(tb, slot), Category(SlotName(tb, slot)))
  }

  predicate GrepHit(f: Filter, line: string) {
    f.grep == "" || Contains(line, f.grep)
  }

  /** The class and method expressions, where set, accept these texts. */
  predicate Accepts(rx: Matcher, f: Filter, cls: string, meth: string) {
    && (f.classRe.Some? ==> rx(f.classRe.value, cls))
    && (f.methodRe.Some? ==> rx(f.methodRe.value, meth))
  }

  predicate FromHit(f: Filter, caller: string) {
    f.from == [] || AnyIn(caller, f.from)
  }

  predicate LineWanted(rx: Matcher, f: Filter, cls: string, meth: string, line: string, caller: string) {
    GrepHit(f, line) && Accepts(rx, f, cls, meth) && FromHit(f, caller)
  }

  // ----- command text

  predicate IsSpace(c: char) {
    c in " \t\n\r"
  }

  function TrimLeft(s: string): (t: string)
    ensures |t| <= |s|
  {
    if s != [] && IsSpace(s[0]) then TrimLeft(s[1..]) else s
  }

  function TrimRight(s: string): (t: string)
    ensures |t| <= |s|
  {
    if s != [] && IsSpace(s[|s| - 1]) then TrimRight(s[..|s| - 1]) else s
  }

  function Trim(s: string): string {
    TrimRight(TrimLeft(s))
  }

  function FirstWord(s: string): (w: string)
    ensures w <= s
  {
    if s != [] && !IsSpace(s[0]) then [s[0]] + FirstWord(s[1..]) else ""
  }

  /** The trimmed non-empty items of a comma separated list. */
  function SplitList(s: string): seq<string>
    decreases |s|
  {
    var i := IndexOf(s, ',');
    var item := Trim(if i < 0 then s else s[..i]);
    (if item == "" then [] else [item]) + (if i < 0 then [] else SplitList(s[i + 1..]))
  }

  /** A list argument is split at every comma, each item trimmed and empty ones dropped. */
  lemma SplitListAtComma(item: string, rest: string)
    requires ',' !in item
    ensures SplitList(item) == if Trim(item) == "" then [] else [Trim(item)]
    ensures SplitList(item + "," + rest) == SplitList(item) + SplitList(rest)
  {
    var s := item + "," + rest;
    assert s[..|item|] == item && s[|item| + 1..] == rest;
    IndexOfIs(s, ',', |item|);
    assert SplitList(item) + [] == SplitList(item);
  }

  predicate Blank(s: string) {
    forall c | c in s :: IsSpace(c)
  }

  lemma {:induction false} TrimLeftIs(pad: string, core: string)
    requires Blank(pad) && (core == "" || !IsSpace(core[0]))
    ensures TrimLeft(pad + core) == core
    decreases |pad|
  {
    if pad == "" {
      assert pad + core == core;
    } else {
      assert IsSpace(pad[0]) && (pad + core)[1..] == pad[1..] + core;
      TrimLeftIs(pad[1..], core);
    }
  }

  lemma {:induction false} TrimRightIs(core: string, pad: string)
    requires Blank(pad) && (core == "" || !IsSpace(core[|core| - 1]))
    ensures TrimRight(core + pad) == core
    decreases |pad|
  {
    if pad == "" {
      assert core + pad == core;
    } else {
      var n := |pad| - 1;
      assert IsSpace(pad[n]) && (core + pad)[..|core| + n] == core + pad[..n];
      TrimRightIs(core, pad[..n]);
    }
  }

  /** Trimming takes the blanks at both ends and nothing else. */
  lemma TrimIs(before: string, core: string, behind: string)
    requires Blank(before) && Blank(behind)
    requires core == "" || (!IsSpace(core[0]) && !IsSpace(core[|core| - 1]))
    ensures Trim(before + core + behind) == core
  {
    if core == "" {
      var pad := before + behind;
      assert before + core + behind == pad + "";
      TrimLeftIs(pad, "");
    } else {
      assert before + core + behind == before + (core + behind);
      TrimLeftIs(before, core + behind);
      TrimRightIs(core, behind);
    }
  }

  lemma {:induction false} TrimLeftSnoc(s: string, c: char)
    requires IsSpace(c)
    ensures TrimLeft(s + [c]) == if TrimLeft(s) == "" then "" else TrimLeft(s) + [c]
    decreases |s|
  {
    if s == "" {
      assert s + [c] == [c] && [c][1..] == "";
    } else {
      assert (s + [c])[1..] == s[1..] + [c];
      TrimLeftSnoc(s[1..], c);
    }
  }

  lemma TrimSnoc(s: string, c: char)
    requires IsSpace(c)
    ensures Trim(s + [c]) == Trim(s)
  {
    TrimLeftSnoc(s, c);
    var t := TrimLeft(s);
    if t != "" {
      assert (t + [c])[..|t|] == t;
    }
  }

  lemma TrimCons(s: string, c: char)
    requires IsSpace(c)
    ensures Trim([c] + s) == Trim(s)
  {
    assert ([c] + s)[1..] == s;
  }

  lemma SplitListCons(s: string, c: char)
    requires IsSpace(c)
    ensures SplitList([c] + s) == SplitList(s)
  {
    var all, i := [c] + s, IndexOf(s, ',');
    if i >= 0 {
      assert all[..i + 1] == [c] + s[..i] && all[i + 2..] == s[i + 1..] && all[i + 1] == ',';
      assert ',' !in all[..i + 1];
      IndexOfIs(all, ',', i + 1);
      TrimCons(s[..i], c);
    } else {
      assert ',' !in all;
      TrimCons(s, c);
    }
  }

  lemma {:induction false} SplitListSnoc(s: string, c: char)
    requires IsSpace(c)
    ensures SplitList(s + [c]) == SplitList(s)
    decreases |s|
  {
    var all, i := s + [c], IndexOf(s, ',');
    if i >= 0 {
      assert all[..i] == s[..i] && all[i + 1..] == s[i + 1..] + [c];
      IndexOfIs(all, ',', i);
      SplitListSnoc(s[i + 1..], c);
    } else {
      TrimSnoc(s, c);
      assert ',' !in all;
    }
  }

  lemma {:induction false} SplitListTrimLeft(s: string)
    ensures SplitList(TrimLeft(s)) == SplitList(s)
  {
    if s != "" && IsSpace(s[0]) {
      assert s == [s[0]] + s[1..];
      SplitListCons(s[1..], s[0]);
      SplitListTrimLeft(s[1..]);
    }
  }

  lemma {:induction false} SplitListTrimRight(s: string)
    ensures SplitList(TrimRight(s)) == SplitList(s)
  {
    var n := |s| - 1;
    if s != "" && IsSpace(s[n]) {
      assert s == s[..n] + [s[n]];
      SplitListSnoc(s[..n], s[n]);
      SplitListTrimRight(s[..n]);
    }
  }

  /** Blanks around a list do not matter. */
  lemma SplitListTrim(s: string)
    ensures SplitList(Trim(s)) == SplitList(s)
  {
    SplitListTrimLeft(s);
    SplitListTrimRight(TrimLeft(s));
  }

  datatype Verb = Only | Exclude | From | Grep | Mode | Clear | Other

  function VerbOf(word: string): Verb {
    match word
    case "only" => Only
    case "exclude" => Exclude
    case "from" => From
    case "grep" => Grep
    case "mode" => Mode
    case "clear" => Clear
    case _ => Other
  }

  /** The text of a command after its first word. */
  function Argument(line: string): string {
    var cmd := FirstWord(TrimLeft(line));
    Trim(if cmd <= line then line[|cmd|..] else line)
  }

  function CommandEffect(f: Filter, line: string): Filter {
    var arg := Argument(line);
    match VerbOf(FirstWord(TrimLeft(line)))
    case Only => f.(only := SplitList(arg))
    case Exclude => f.(exclude := SplitList(arg))
    case From => f.(from := SplitList(arg))
    case Grep => f.(grep := arg)
    case Mode => f.(modes := set m | m in SplitList(arg))
    case Clear => Filter({"all"}, [], [], "", None, None, [])
    case Other => f
  }

  // ----- what a command line does, read off its text

  const COMMANDS: set<string> := {"only", "exclude", "from", "grep", "mode", "clear"}

  /** The line's first word is `word`; blanks before it do not matter. */
  predicate Opens(line: string, word: string) {
    var t := TrimLeft(line);
    word <= t && (|t| == |word| || IsSpace(t[|word|]))
  }

  /** The text behind the first word; with blanks before that, the whole line. */
  function Behind(line: string, word: string): string {
    if word <= line then line[|word|..] else line
  }

  /** `f2` is what the command `line` makes of `f`. */
  predicate Obeyed(f: Filter, line: string, f2: Filter) {
    && (Opens(line, "only") ==> f2 == f.(only := SplitList(Behind(line, "only"))))
    && (Opens(line, "exclude") ==> f2 == f.(exclude := SplitList(Behind(line, "exclude"))))
    && (Opens(line, "from") ==> f2 == f.(from := SplitList(Behind(line, "from"))))
    && (Opens(line, "grep") ==> f2 == f.(grep := Trim(Behind(line, "grep"))))
    && (Opens(line, "mode") ==> f2 == f.(modes := set m | m in SplitList(Behind(line, "mode"))))
    && (Opens(line, "clear") ==> f2 == Filter({"all"}, [], [], "", None, None, []))
    && ((forall w | w in COMMANDS :: !Opens(line, w)) ==> f2 == f)
  }

  lemma {:induction false} FirstWordIs(word: string, rest: string)
    requires (forall c | c in word :: !IsSpace(c)) && (rest == "" || IsSpace(rest[0]))
    ensures FirstWord(word + rest) == word
    decreases |word|
  {
    if word == "" {
      assert word + rest == rest;
    } else {
      assert (word + rest)[1..] == word[1..] + rest && !IsSpace(word[0]);
      FirstWordIs(word[1..], rest);
    }
  }

  lemma {:induction false} FirstWordEnds(s: string)
    ensures |FirstWord(s)| == |s| || IsSpace(s[|FirstWord(s)|])
  {
    if s != "" && !IsSpace(s[0]) {
      FirstWordEnds(s[1..]);
    }
  }

  lemma OpensIff(line: string, word: string)
    requires forall c | c in word :: !IsSpace(c)
    ensures Opens(line, word) <==> FirstWord(TrimLeft(line)) == word
  {
    var t := TrimLeft(line);
    FirstWordEnds(t);
    if Opens(line, word) {
      assert t == word + t[|word|..];
      FirstWordIs(word, t[|word|..]);
    }
  }

  lemma VerbsAreWords(cmd: string)
    ensures VerbOf(cmd) == if cmd == "only" then Only else if cmd == "exclude" then Exclude
                           else if cmd == "from" then From else if cmd == "grep" then Grep
                           else if cmd == "mode" then Mode else if cmd == "clear" then Clear else Other
  {}

  lemma EffectByVerb(f: Filter, line: string, cmd: string)
    requires cmd == FirstWord(TrimLeft(line))
    ensures CommandEffect(f, line)
         == var behind := Behind(line, cmd);
            match VerbOf(cmd)
            case Only => f.(only := SplitList(behind))
            case Exclude => f.(exclude := SplitList(behind))
            case From => f.(from := SplitList(behind))
            case Grep => f.(grep := Trim(behind))
            case Mode => f.(modes := set m | m in SplitList(behind))
            case Clear => Filter({"all"}, [], [], "", None, None, [])
            case Other => f
  {
    SplitListTrim(Behind(line, cmd));
    assert Argument(line) == Trim(Behind(line, cmd));
  }

  /** Every command line does what its first word says to the text behind it, and nothing
      else; any other first word does nothing. */
  lemma CommandsObeyed(f: Filter, line: string)
    ensures Obeyed(f, line, CommandEffect(f, line))
  {
    var cmd := FirstWord(TrimLeft(line));
    forall w | w in COMMANDS
      ensures Opens(line, w) <==> cmd == w
    {
      OpensIff(line, w);
    }
    EffectByVerb(f, line, cmd);
    VerbsAreWords(cmd);
  }

  lemma OpensAtBlank(word: string, a: string)
    requires word != "" && !IsSpace(word[0])
    ensures Opens(word + " " + a, word) && Behind(word + " " + a, word) == " " + a
    ensures SplitList(" " + a) == SplitList(a)
  {
    var line := word + " " + a;
    assert line == word + (" " + a) && line[|word|..] == " " + a && TrimLeft(line) == line;
    SplitListCons(a, ' ');
  }

  /** The commands as they are typed: word, blank, list or text. */
  lemma CommandsAsTyped(f: Filter, word: string, a: string)
    requires word in COMMANDS
    ensures CommandEffect(f, word + " " + a)
         == if word == "only" then f.(only := SplitList(a))
            else if word == "exclude" then f.(exclude := SplitList(a))
            else if word == "from" then f.(from := SplitList(a))
            else if word == "grep" then f.(grep := Trim(a))
            else if word == "mode" then f.(modes := set m | m in SplitList(a))
            else Filter({"all"}, [], [], "", None, None, [])
  {
    PlainWord(word);
    TypedEffect(f, word, a);
    VerbsAreWords(word);
  }

  lemma PlainWord(word: string)
    requires word in COMMANDS
    ensures word != "" && forall c | c in word :: !IsSpace(c)
  {}

  lemma TypedEffect(f: Filter, word: string, a: string)
    requires word != "" && forall c | c in word :: !IsSpace(c)
    ensures CommandEffect(f, word + " " + a)
         == match VerbOf(word)
            case Only => f.(only := SplitList(a))
            case Exclude => f.(exclude := SplitList(a))
            case From => f.(from := SplitList(a))
            case Grep => f.(grep := Trim(a))
            case Mode => f.(modes := set m | m in SplitList(a))
            case Clear => Filter({"all"}, [], [], "", None, None, [])
            case Other => f
  {
    var line := word + " " + a;
    OpensAtBlank(word, a);
    OpensIff(line, word);
    EffectByVerb(f, line, word);
    TrimCons(a, ' ');
  }

  /** After "only a, b, ..." a slot is wanted if and only if one of the listed texts occurs in
      its name and no excluded one does; after "exclude ...", if and only if none listed does
      and it was wanted without exclusions. */
  lemma OnlyAndExclude(f: Filter, a: string, f2: Filter, tb: Table, slot: int)
    ensures Obeyed(f, "only " + a, f2) && SplitList(a) != [] ==>
              (SlotWanted(tb, f2, slot)
               <==> && (exists o | o in SplitList(a) :: Contains(SlotName(tb, slot), o))
                    && (forall x | x in f.exclude :: !Contains(SlotName(tb, slot), x)))
    ensures Obeyed(f, "exclude " + a, f2) ==>
              (SlotWanted(tb, f2, slot)
               <==> && SlotWanted(tb, f.(exclude := []), slot)
                    && (forall x | x in SplitList(a) :: !Contains(SlotName(tb, slot), x)))
  {
    var name := SlotName(tb, slot);
    assert "only" + " " + a == "only " + a && "exclude" + " " + a == "exclude " + a;
    OpensAtBlank("only", a);
    OpensAtBlank("exclude", a);
    AnyInIff(name, SplitList(a));
    AnyInIff(name, f.exclude);
  }

  lemma AnyInIff(name: string, needles: seq<string>)
    ensures AnyIn(name, needles) <==> exists o | o in needles :: Contains(name, o)
  {}

  class Filters {
    var modes: set<string>
    var only: seq<string>
    var exclude: seq<string>
    var grep: string
    var classRe: Option<string>
    var methodRe: Option<string>
    var from: seq<string>

    constructor (f: Filter)
      ensures Value() == f
    {
      modes, only, exclude, grep := f.modes, f.only, f.exclude, f.grep;
      classRe, methodRe, from := f.classRe, f.methodRe, f.from;
    }

    function Value(): Filter
      reads this
    {
      Filter(modes, only, exclude, grep, classRe, methodRe, from)
    }

    method MatchSlot(tb: Table, slot: int) returns (allow: bool)
      ensures allow == SlotWanted(tb, Value(), slot)
    {
      var name := SlotName(tb, slot);
      allow := NameMatches(name, Category(name));
    }

    method NameMatches(name: string, cat: string) returns (allow: bool)
      ensures allow == NameWanted(Value(), name, cat)
      ensures allow <==> && (forall i | 0 <= i < |exclude| :: !Contains(name, exclude[i]))
                         && (if |only| > 0 then exists i | 0 <= i < |only| :: Contains(name, only[i])
                             else "all" in modes || cat in modes)
    {
      allow := "all" in modes;
      if !allow {
        if cat in modes {
          allow := true;
        }
      }
      if |only| > 0 {
        allow := false;
        for i := 0 to |only|
          invariant !allow
          invariant forall j | 0 <= j < i :: !Contains(name, only[j])
        {
          PrefixIsContained(name, only[i]);
          if HasPrefix(name, only[i]) || Contains(name, only[i]) {
            allow := true;
            break;
          }
        }
        assert allow == AnyIn(name, only);
      }
      ghost var before := allow;
      for i := 0 to |exclude|
        invariant allow == (before && forall j | 0 <= j < i :: !Contains(name, exclude[j]))
      {
        PrefixIsContained(name, exclude[i]);
        if HasPrefix(name, exclude[i]) || Contains(name, exclude[i]) {
          allow := false;
        }
      }
    }

    method MatchLine(rx: Matcher, cls: string, meth: string, line: string, caller: string) returns (ok: bool)
      ensures ok == LineWanted(rx, Value(), cls, meth, line, caller)
      ensures ok <==> && (grep != "" ==> Contains(line, grep))
                      && (classRe.Some? ==> rx(classRe.value, cls)) && (methodRe.Some? ==> rx(methodRe.value, meth))
                      && (|from| > 0 ==> exists i | 0 <= i < |from| :: Contains(caller, from[i]))
    {
      if grep != "" && !Contains(line, grep) {
        return false;
      }
      if classRe.Some? && !rx(classRe.value, cls) {
        return false;
      }
      if methodRe.Some? && !rx(methodRe.value, meth) {
        return false;
      }
      if |from| > 0 {
        ok := false;
        for i := 0 to |from|
          invariant !ok
          invariant forall j | 0 <= j < i :: !Contains(caller, from[j])
        {
          if Contains(caller, from[i]) {
            ok := true;
            break;
          }
        }
        if !ok {
          return false;
        }
      }
      return true;
    }

    method SetModes(ms: seq<string>)
      modifies `modes
      ensures modes == set m | m in ms
    {
      modes := {};
      for i := 0 to |ms|
        modifies `modes
        invariant modes == set m | m in ms[..i]
      {
        modes := modes + {ms[i]};
      }
      assert ms[..|ms|] == ms;
    }

    method ApplyCommand(line: string)
      modifies this
      ensures Value() == CommandEffect(old(Value()), line)
      ensures Obeyed(old(Value()), line, Value())
    {
      ghost var f := Value();
      assert Obeyed(f, line, CommandEffect(f, line)) by {
        CommandsObeyed(f, line);
      }
      var arg := Argument(line);
      match VerbOf(FirstWord(TrimLeft(line))) {
        case Only => only := SplitList(arg);
        case Exclude => exclude := SplitList(arg);
        case From => from := SplitList(arg);
        case Grep => grep := arg;
        case Mode => SetModes(SplitList(arg));
        case Clear =>
          only, exclude, from := [], [], [];
          grep := "";
          classRe, methodRe := None, None;
          modes := {"all"};
        case Other =>
      }
    }
  }

  lemma PrefixIsContained(s: string, p: string)
    ensures HasPrefix(s, p) ==> Contains(s, p)
  {
    if HasPrefix(s, p) {
      assert FoundAt(s, p, 0);
    }
  }

  /** After a "clear" command every slot and every line is wanted, whatever was set before. */
  lemma ClearWantsEverything(tb: Table, rx: Matcher, f: Filter, line: string, slot: int,
                             cls: string, meth: string, text: string, caller: string)
    requires VerbOf(FirstWord(TrimLeft(line))) == Clear
    ensures SlotWanted(tb, CommandEffect(f, line), slot)
    ensures LineWanted(rx, CommandEffect(f, line), cls, meth, text, caller)
  {
    assert CommandEffect(f, line).modes == {"all"};
  }
}
