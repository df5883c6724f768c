/** What the consumer learns while it runs: names of ids, classes and strings, and the
    rules by which a completed call teaches them. */
module Learning {
  import opened Words
  import opened Text
  import opened Schema

  /** The target's memory as the consumer finds it when it handles one event: whether it can
      be read at all, the C strings by address and the 32-bit words by address. */
  datatype Target = Target(attached: bool, text: map<u64, string>, words: map<u64, u32>)

  function CStr(t: Target, addr: u64): string {
    if addr == 0 || !t.attached then ""
    else if addr in t.text then t.text[addr] else ""
  }

  datatype Caches = Caches(idName: map<u64, string>, idClass: map<u64, u64>, classNames: map<u64, string>,
                           nameByClass: map<u64, string>, objClass: map<u64, u64>, jstr: map<u64, string>)

  const EMPTY: Caches := Caches(map[], map[], map[], map[], map[], map[])

  /** The heap object behind a reference, or 0. */
  function ResolveObj(t: Target, v: u64): u64 {
    if !t.attached || v == 0 || v < 0x100000 then 0
    else
      var slot := v - v % 8;
      if slot in t.words then t.words[slot] else 0
  }

  function ClassNameOfRef(c: Caches, t: Target, v: u64): string {
    if v == 0 then "null"
    else
      var obj := ResolveObj(t, v);
      if obj == 0 then
        if v in c.classNames then c.classNames[v] else Hex(v)
      else if obj in c.nameByClass then c.nameByClass[obj]
      else if obj in t.words && t.words[obj] in c.nameByClass then c.nameByClass[t.words[obj]]
      else Hex(obj)
  }

  predicate ValidName(s: string) {
    1 <= |s| <= 200 && forall i | 0 <= i < |s| :: ' ' <= s[i] <= '~'
  }

  predicate ValidSig(s: string) {
    1 <= |s| <= 300 && s[0] in "(L[ZBCSIJFD"
  }

  function Dotted(s: string): string {
    seq(|s|, i requires 0 <= i < |s| => if s[i] == '/' then '.' else s[i])
  }

  /** A completed call, as far as it can teach anything. */
  datatype Lesson = Lesson(slot: int, a1: u64, a2: u64, a3: u64, rc: u64, target: Target)

  datatype Role = GetsId | FindsClass | GetsClass | MakesObject | GetsChars | MakesString | Plain

  function RoleOf(name: string): Role {
    if name in GET_ID then GetsId
    else if name == "FindClass" then FindsClass
    else if name == "GetObjectClass" then GetsClass
    else if name in MAKE_OBJECT then MakesObject
    else if name == "GetStringUTFChars" then GetsChars
    else if name == "NewStringUTF" then MakesString
    else Plain
  }

  /** The slots whose returns are always captured are exactly those that teach something. */
  lemma WatchedIffRole(name: string)
    ensures AlwaysWatch(name) <==> RoleOf(name) != Plain
  {}

  /** Nothing is learned when memory cannot be read or the call returned null. */
  predicate Teaches(tb: Table, l: Lesson) {
    RoleOf(SlotName(tb, l.slot)) != Plain && l.target.attached && l.rc != 0
  }

  function Learn(tb: Table, c: Caches, l: Lesson): Caches {
    if Teaches(tb, l) then LearnAs(RoleOf(SlotName(tb, l.slot)), c, l) else c
  }

  function LearnAs(role: Role, c: Caches, l: Lesson): Caches {
    match role
    case GetsId =>
      var nm, sg := CStr(l.target, l.a2), CStr(l.target, l.a3);
      c.(idName := if ValidName(nm) && ValidSig(sg) then c.idName[l.rc := nm + sg] else c.idName,
         idClass := c.idClass[l.rc := l.a1])
    case FindsClass => LearnClass(c, l)
    case GetsClass => LearnObject(c, ResolveObj(l.target, l.a1), ResolveObj(l.target, l.rc))
    case MakesObject => LearnObject(c, ResolveObj(l.target, l.rc), ResolveObj(l.target, l.a1))
    case GetsChars => c.(jstr := c.jstr[l.a1 := CStr(l.target, l.rc)])
    case MakesString => c.(jstr := c.jstr[l.rc := CStr(l.target, l.a1)])
    case Plain => c
  }

  function LearnClass(c: Caches, l: Lesson): Caches {
    var nm := CStr(l.target, l.a1);
    if !ValidName(nm) then c
    else
      var obj := ResolveObj(l.target, l.rc);
      c.(classNames := c.classNames[l.rc := Dotted(nm)],
         nameByClass := if obj != 0 then c.nameByClass[obj := Dotted(nm)] else c.nameByClass)
  }

  function LearnObject(c: Caches, obj: u64, cls: u64): Caches {
    if obj != 0 && cls != 0 then c.(objClass := c.objClass[obj := cls]) else c
  }

  function LearnAll(tb: Table, c: Caches, ls: seq<Lesson>): Caches {
    if ls == [] then c else Learn(tb, LearnAll(tb, c, ls[..|ls| - 1]), ls[|ls| - 1])
  }

  /** The lessons in a list that can teach something by their slot alone. */
  function Watched(tb: Table, ls: seq<Lesson>): seq<Lesson> {
    if ls == [] then []
    else
      var l := ls[|ls| - 1];
      Watched(tb, ls[..|ls| - 1]) + if AlwaysWatch(SlotName(tb, l.slot)) then [l] else []
  }

  lemma LearnSnoc(tb: Table, c: Caches, ls: seq<Lesson>, l: Lesson)
    ensures LearnAll(tb, c, ls + [l]) == Learn(tb, LearnAll(tb, c, ls), l)
  {
    assert (ls + [l])[..|ls|] == ls;
  }

  /** Calls of any other slot leave no trace in the caches. */
  lemma {:induction false} OnlyWatchedTeach(tb: Table, c: Caches, ls: seq<Lesson>)
    ensures LearnAll(tb, c, Watched(tb, ls)) == LearnAll(tb, c, ls)
  {
    if ls != [] {
      var l, front := ls[|ls| - 1], ls[..|ls| - 1];
      OnlyWatchedTeach(tb, c, front);
      WatchedIffRole(SlotName(tb, l.slot));
      LearnSnoc(tb, c, Watched(tb, front), l);
      assert Watched(tb, front) + [] == Watched(tb, front);
    }
  }

  // ----- what each call teaches, by the name of its slot

  /** Reference `v` leads to the heap object `obj`: the 32-bit word it points to holds it. */
  predicate Refers(t: Target, v: u64, obj: u64) {
    && t.attached && v >= 0x10_0000 && v - v % 8 in t.words
    && t.words[v - v % 8] == obj && obj != 0
  }

  lemma ResolvesIff(t: Target, v: u64, obj: u64)
    requires obj != 0
    ensures ResolveObj(t, v) == obj <==> Refers(t, v, obj)
  {}

  /** Address `addr` holds the C string `text`. */
  predicate Holds(t: Target, addr: u64, text: string) {
    addr != 0 && addr in t.text && t.text[addr] == text
  }

  /** An id lookup that returned an id: it is named by the looked-up name followed by the
      looked-up descriptor, where both are plausible, and it has the class looked into. */
  lemma LookupTeaches(tb: Table, ls: seq<Lesson>, l: Lesson, nm: string, sg: string)
    requires SlotName(tb, l.slot) in {"GetMethodID", "GetStaticMethodID", "GetFieldID", "GetStaticFieldID"}
    requires l.target.attached && l.rc != 0 && Holds(l.target, l.a2, nm) && Holds(l.target, l.a3, sg)
    ensures var c := LearnAll(tb, EMPTY, ls);
            LearnAll(tb, EMPTY, ls + [l])
            == c.(idClass := c.idClass[l.rc := l.a1],
                  idName := if && 1 <= |nm| <= 200 && (forall i | 0 <= i < |nm| :: 0x20 as char <= nm[i] <= 0x7e as char)
                               && 1 <= |sg| <= 300 && sg[0] in {'(', 'L', '[', 'Z', 'B', 'C', 'S', 'I', 'J', 'F', 'D'}
                            then c.idName[l.rc := nm + sg] else c.idName)
  {
    LearnSnoc(tb, EMPTY, ls, l);
    assert forall ch: char :: ch in "(L[ZBCSIJFD" <==> ch in {'(', 'L', '[', 'Z', 'B', 'C', 'S', 'I', 'J', 'F', 'D'};
  }

  /** FindClass: the reference it returned, and the class object behind it if there is one,
      are named by the text looked up with every '/' turned into '.'. */
  lemma FindClassTeaches(tb: Table, ls: seq<Lesson>, l: Lesson, nm: string, dotted: string)
    requires SlotName(tb, l.slot) == "FindClass" && l.target.attached && l.rc != 0 && Holds(l.target, l.a1, nm)
    requires |dotted| == |nm| && forall i | 0 <= i < |nm| :: dotted[i] == if nm[i] == '/' then '.' else nm[i]
    requires ValidName(nm)
    ensures var c, c2 := LearnAll(tb, EMPTY, ls), LearnAll(tb, EMPTY, ls + [l]);
            && c2 == c.(classNames := c.classNames[l.rc := dotted], nameByClass := c2.nameByClass)
            && (forall obj: u64 | Refers(l.target, l.rc, obj) :: c2.nameByClass == c.nameByClass[obj := dotted])
            && ((forall obj: u64 :: !Refers(l.target, l.rc, obj)) ==> c2.nameByClass == c.nameByClass)
  {
    var c, obj := LearnAll(tb, EMPTY, ls), ResolveObj(l.target, l.rc);
    LearnSnoc(tb, EMPTY, ls, l);
    RoleNames(SlotName(tb, l.slot));
    assert Dotted(nm) == dotted;
    assert LearnAll(tb, EMPTY, ls + [l]) == LearnClass(c, l);
    if obj != 0 {
      ResolvesIff(l.target, l.rc, obj);
    }
  }

  /** Objects get the class that GetObjectClass found, or that they were made from. */
  lemma ObjectsTeach(tb: Table, ls: seq<Lesson>, l: Lesson, obj: u64, cls: u64)
    requires l.target.attached && l.rc != 0
    requires var nm := SlotName(tb, l.slot);
             || (nm == "GetObjectClass" && Refers(l.target, l.a1, obj) && Refers(l.target, l.rc, cls))
             || (nm in {"NewObject", "NewObjectV", "NewObjectA", "AllocObject"}
                 && Refers(l.target, l.rc, obj) && Refers(l.target, l.a1, cls))
    ensures var c := LearnAll(tb, EMPTY, ls); LearnAll(tb, EMPTY, ls + [l]) == c.(objClass := c.objClass[obj := cls])
  {
    LearnSnoc(tb, EMPTY, ls, l);
    RoleNames(SlotName(tb, l.slot));
  }

  /** A string gets the characters that were read from it, or that it was made from. */
  lemma StringsTeach(tb: Table, ls: seq<Lesson>, l: Lesson, ref: u64, text: string)
    requires l.target.attached && l.rc != 0
    requires var nm := SlotName(tb, l.slot);
             || (nm == "GetStringUTFChars" && ref == l.a1 && Holds(l.target, l.rc, text))
             || (nm == "NewStringUTF" && ref == l.rc && Holds(l.target, l.a1, text))
    ensures var c := LearnAll(tb, EMPTY, ls); LearnAll(tb, EMPTY, ls + [l]) == c.(jstr := c.jstr[ref := text])
  {
    LearnSnoc(tb, EMPTY, ls, l);
    RoleNames(SlotName(tb, l.slot));
  }

  // ----- provenance

  /** A completed lookup of a method or field that returned `id`. */
  predicate LooksUp(tb: Table, l: Lesson, id: u64) {
    && SlotName(tb, l.slot) in {"GetMethodID", "GetStaticMethodID", "GetFieldID", "GetStaticFieldID"}
    && l.target.attached && l.rc == id && id != 0
  }

  /** A completed FindClass of a plausible name. */
  predicate Finds(tb: Table, l: Lesson) {
    SlotName(tb, l.slot) == "FindClass" && l.target.attached && l.rc != 0 && ValidName(CStr(l.target, l.a1))
  }

  /** Name and descriptor that the latest lookup of `id` with plausible strings asked for. */
  function LatestName(tb: Table, ls: seq<Lesson>, id: u64): Option<string> {
    if ls == [] then None
    else
      var l := ls[|ls| - 1];
      if LooksUp(tb, l, id) && ValidName(CStr(l.target, l.a2)) && ValidSig(CStr(l.target, l.a3))
      then Some(CStr(l.target, l.a2) + CStr(l.target, l.a3))
      else LatestName(tb, ls[..|ls| - 1], id)
  }

  /** The class argument of the latest id lookup that returned `id`, names valid or not. */
  function LatestClass(tb: Table, ls: seq<Lesson>, id: u64): Option<u64> {
    if ls == [] then None
    else
      var l := ls[|ls| - 1];
      if LooksUp(tb, l, id) then Some(l.a1)
      else LatestClass(tb, ls[..|ls| - 1], id)
  }

  function Lookup<V>(m: map<u64, V>, k: u64): Option<V> {
    if k in m then Some(m[k]) else None
  }

  /** A cached name or class comes from the latest lookup that could set it, and from no
      other call; every id with a name has a class. */
  lemma {:induction false} NameProvenance(tb: Table, ls: seq<Lesson>, id: u64)
    ensures var c := LearnAll(tb, EMPTY, ls);
            && Lookup(c.idName, id) == LatestName(tb, ls, id)
            && Lookup(c.idClass, id) == LatestClass(tb, ls, id)
            && (id in c.idName ==> id in c.idClass)
  {
    if ls != [] {
      NameProvenance(tb, ls[..|ls| - 1], id);
    }
  }

  /** The class name taught by the latest FindClass that returned `ref` with a valid name. */
  function LatestClassName(tb: Table, ls: seq<Lesson>, ref: u64): Option<string> {
    if ls == [] then None
    else
      var l := ls[|ls| - 1];
      if Finds(tb, l) && l.rc == ref
      then Some(Dotted(CStr(l.target, l.a1)))
      else LatestClassName(tb, ls[..|ls| - 1], ref)
  }

  /** The same by class object: the latest FindClass whose result referred to `obj`. */
  function LatestObjectName(tb: Table, ls: seq<Lesson>, obj: u64): Option<string> {
    if ls == [] then None
    else
      var l := ls[|ls| - 1];
      if Finds(tb, l) && Refers(l.target, l.rc, obj)
      then Some(Dotted(CStr(l.target, l.a1)))
      else LatestObjectName(tb, ls[..|ls| - 1], obj)
  }

  /** The text a completed string call teaches about `ref`: the characters GetStringUTFChars
      returned for it, or those NewStringUTF made it from. */
  function TextTaught(nm: string, l: Lesson, ref: u64): Option<string> {
    if !l.target.attached || l.rc == 0 then None
    else if nm == "GetStringUTFChars" && l.a1 == ref then Some(CStr(l.target, l.rc))
    else if nm == "NewStringUTF" && l.rc == ref then Some(CStr(l.target, l.a1))
    else None
  }

  function LatestText(tb: Table, ls: seq<Lesson>, ref: u64): Option<string> {
    if ls == [] then None
    else
      var taught := TextTaught(SlotName(tb, ls[|ls| - 1].slot), ls[|ls| - 1], ref);
      if taught.Some? then taught else LatestText(tb, ls[..|ls| - 1], ref)
  }

  /** The class of the latest GetObjectClass of `obj` or construction of it that ended with
      both references readable. */
  function LatestObjClass(tb: Table, ls: seq<Lesson>, obj: u64): Option<u64> {
    if ls == [] then None
    else
      var taught := ClassTaught(SlotName(tb, ls[|ls| - 1].slot), ls[|ls| - 1], obj);
      if taught.Some? then taught else LatestObjClass(tb, ls[..|ls| - 1], obj)
  }

  function ClassTaught(nm: string, l: Lesson, obj: u64): Option<u64> {
    if l.rc == 0 then None
    else if nm == "GetObjectClass" && Refers(l.target, l.a1, obj) then NonNull(ResolveObj(l.target, l.rc))
    else if nm in {"NewObject", "NewObjectV", "NewObjectA", "AllocObject"} && Refers(l.target, l.rc, obj)
    then NonNull(ResolveObj(l.target, l.a1))
    else None
  }

  function NonNull(v: u64): Option<u64> {
    if v == 0 then None else Some(v)
  }

  lemma LearnText(role: Role, nm: string, c: Caches, l: Lesson, ref: u64)
    requires l.target.attached && l.rc != 0
    requires (role.GetsChars? <==> nm == "GetStringUTFChars") && (role.MakesString? <==> nm == "NewStringUTF")
    ensures var taught := TextTaught(nm, l, ref);
            Lookup(LearnAs(role, c, l).jstr, ref) == if taught.Some? then taught else Lookup(c.jstr, ref)
  {}

  lemma LearnObjClass(role: Role, nm: string, c: Caches, l: Lesson, obj: u64)
    requires l.target.attached && l.rc != 0 && (role.GetsClass? <==> nm == "GetObjectClass")
    requires role.MakesObject? <==> nm in {"NewObject", "NewObjectV", "NewObjectA", "AllocObject"}
    ensures var taught := ClassTaught(nm, l, obj);
            Lookup(LearnAs(role, c, l).objClass, obj) == if taught.Some? then taught else Lookup(c.objClass, obj)
  {}

  lemma RoleNames(nm: string)
    ensures RoleOf(nm).FindsClass? <==> nm == "FindClass"
    ensures RoleOf(nm).GetsClass? <==> nm == "GetObjectClass"
    ensures RoleOf(nm).MakesObject? <==> nm in {"NewObject", "NewObjectV", "NewObjectA", "AllocObject"}
    ensures RoleOf(nm).GetsChars? <==> nm == "GetStringUTFChars"
    ensures RoleOf(nm).MakesString? <==> nm == "NewStringUTF"
  {}

  /** Classes of objects come from the latest call that found or made them. */
  lemma {:induction false} ObjectProvenance(tb: Table, ls: seq<Lesson>, obj: u64)
    ensures Lookup(LearnAll(tb, EMPTY, ls).objClass, obj) == LatestObjClass(tb, ls, obj)
  {
    if ls != [] {
      ObjectProvenance(tb, ls[..|ls| - 1], obj);
      var l, c := ls[|ls| - 1], LearnAll(tb, EMPTY, ls[..|ls| - 1]);
      var nm := SlotName(tb, l.slot);
      RoleNames(nm);
      if l.target.attached && l.rc != 0 {
        LearnObjClass(RoleOf(nm), nm, c, l, obj);
      }
    }
  }

  /** Class names, by reference and by object, come from the latest FindClass that taught them. */
  lemma {:induction false} ClassNameProvenance(tb: Table, ls: seq<Lesson>, key: u64)
    ensures var c := LearnAll(tb, EMPTY, ls);
            && Lookup(c.classNames, key) == LatestClassName(tb, ls, key)
            && Lookup(c.nameByClass, key) == LatestObjectName(tb, ls, key)
  {
    if ls != [] {
      ClassNameProvenance(tb, ls[..|ls| - 1], key);
    }
  }

  /** String texts come from the latest call that read or made the string. */
  lemma {:induction false} TextProvenance(tb: Table, ls: seq<Lesson>, ref: u64)
    ensures Lookup(LearnAll(tb, EMPTY, ls).jstr, ref) == LatestText(tb, ls, ref)
  {
    if ls != [] {
      TextProvenance(tb, ls[..|ls| - 1], ref);
      var l, c := ls[|ls| - 1], LearnAll(tb, EMPTY, ls[..|ls| - 1]);
      var nm := SlotName(tb, l.slot);
      RoleNames(nm);
      if l.target.attached && l.rc != 0 {
        LearnText(RoleOf(nm), nm, c, l, ref);
      }
    }
  }
}
