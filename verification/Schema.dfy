/** The JNI schema seen as an arbitrary table: slot index to name, argument types and
    return type, and the classifications of a slot by its name. */
module Schema {
  import opened Words
  import opened Text

  datatype Row = Row(name: string, args: seq<string>, ret: string)

  /** `rows` is the schema table; `names` the longer-lived list of names beside it. */
  datatype Table = Table(rows: seq<Row>, names: seq<string>)

  function SlotName(tb: Table, slot: int): string {
    if 0 <= slot < |tb.rows| then tb.rows[slot].name
    else if 0 <= slot < |tb.names| then tb.names[slot]
    else "slot" + Dec(slot)
  }

  function SlotRet(tb: Table, slot: int): string {
    if 0 <= slot < |tb.rows| then tb.rows[slot].ret else "void"
  }

  function SlotArgs(tb: Table, slot: int): seq<string> {
    if 0 <= slot < |tb.rows| then tb.rows[slot].args else []
  }

  function Category(name: string): string {
    if HasPrefix(name, "Call") && Contains(name, "Method") then "call"
    else if HasPrefix(name, "NewObject") || name == "AllocObject" then "new"
    else if ((HasPrefix(name, "Get") || HasPrefix(name, "Set")) && HasSuffix(name, "Field"))
         || HasSuffix(name, "FieldID") then "field"
    else if name in {"FindClass", "DefineClass", "GetSuperclass", "IsAssignableFrom",
                     "GetObjectClass", "IsInstanceOf"} then "class"
    else if Contains(name, "String") then "string"
    else "other"
  }

  lemma OtherHead(s: string, p: string)
    requires s != "" && p != "" && s[0] != p[0]
    ensures !HasPrefix(s, p) && s != p
  {}

  lemma FieldCategory(head: string, x: string, end: string)
    requires head in {"Get", "Set"} && end in {"Field", "FieldID"}
    requires end == "Field" || head == "Get"
    ensures Category(head + x + end) == "field"
  {
    var s := head + x + end;
    assert s == head + (x + end) && s[|s| - |end|..] == end;
    assert s[..3] == head && s[0] == head[0];
    OtherHead(s, "Call");
    OtherHead(s, "NewObject");
    OtherHead(s, "AllocObject");
  }

  /** The categories of the JNI's families of names: calls and constructions in any variant,
      access to fields and their ids. */
  lemma CategoriesOfFamilies(x: string, y: string)
    ensures Category("Call" + x + "Method" + y) == "call"
    ensures Category("NewObject" + x) == "new"
    ensures Category("Get" + x + "Field") == Category("Set" + x + "Field") == Category("Get" + x + "FieldID") == "field"
  {
    var call, made := "Call" + x + "Method" + y, "NewObject" + x;
    assert call == "Call" + (x + "Method" + y) && FoundAt(call, "Method", |"Call" + x|);
    assert call[..4] == "Call" && made[..9] == "NewObject" && made[0] == 'N';
    OtherHead(made, "Call");
    FieldCategory("Get", x, "Field");
    FieldCategory("Set", x, "Field");
    FieldCategory("Get", x, "FieldID");
  }

  lemma OtherEnd(s: string, p: string)
    requires s != "" && p != "" && s[|s| - 1] != p[|p| - 1]
    ensures !HasSuffix(s, p)
  {}

  /** The class functions, and the rest by whether the name speaks of strings. */
  lemma CategoryOfOther(nm: string)
    requires nm != "" && nm[0] != 'C' && nm[|nm| - 1] !in "dD"
    requires !HasPrefix(nm, "NewObject") && nm != "AllocObject"
    ensures Category(nm)
         == if nm in {"FindClass", "DefineClass", "GetSuperclass", "IsAssignableFrom", "GetObjectClass", "IsInstanceOf"} then "class"
            else if exists before: string, behind: string :: nm == before + "String" + behind then "string"
            else "other"
  {
    OtherHead(nm, "Call");
    assert 'd' in "dD" && 'D' in "dD";
    OtherEnd(nm, "Field");
    OtherEnd(nm, "FieldID");
    ContainsIff(nm, "String");
  }

  /** For a function that calls a method: the index of its jmethodID argument. Any name
      that starts with NewObject qualifies, NewObjectArray included. */
  function CallIndex(name: string): (ix: Option<nat>)
    ensures ix.Some? ==> 2 <= ix.value <= 3
  {
    if HasPrefix(name, "NewObject") then Some(2)
    else if HasPrefix(name, "Call") && Contains(name, "Method") then
      if Contains(name, "Nonvirtual") then Some(3) else Some(2)
    else None
  }

  /** How the kernel side snapshots the arguments of a call function: 1 a jvalue array,
      2 a va_list, 3 the entry registers. */
  function SnapshotKind(name: string): nat {
    if HasSuffix(name, "A") then 1 else if HasSuffix(name, "V") then 2 else 3
  }

  const GET_ID: set<string> := {"GetMethodID", "GetStaticMethodID", "GetFieldID", "GetStaticFieldID"}
  const MAKE_OBJECT: set<string> := {"NewObject", "NewObjectV", "NewObjectA", "AllocObject"}

  /** Slots whose return value is captured whatever the filters say. */
  predicate AlwaysWatch(name: string) {
    || name in GET_ID
    || name in MAKE_OBJECT
    || name in {"FindClass", "GetObjectClass", "GetStringUTFChars", "NewStringUTF"}
  }
}
