/** One schema node against one value: the dialect a prefix file may use, and the check. */
module Schema {
  import opened Values
  import opened TouchedPaths

  datatype Msg =
    | Expected(declared: string)
    | OneOf(members: seq<Tree>)
    | AtLeast(bound: Tree)
    | AtMost(bound: Tree)

  /** `value.get(key)`: nothing for anything but a map. */
  function Lookup(t: Tree, k: string): Option<Tree> {
    Child(Some(t), k)
  }

  function AsStr(t: Option<Tree>): Option<string> {
    if t.Some? && t.value.TStr? then Some(t.value.s) else None
  }

  function AsNumber(t: Option<Tree>): Option<real> {
    if t.Some? && t.value.TNum? then
      Some(match t.value.n case Int(i) => i as real case Float(r) => r)
    else None
  }

  /** `true`/`false`, or the integers `1`/`0`. */
  function AsFlag(t: Tree): Option<bool> {
    match t
    case TBool(b) => Some(b)
    case TNum(Int(1)) => Some(true)
    case TNum(Int(0)) => Some(false)
    case _ => None
  }

  function Flag(schema: Tree, key: string, inherited: bool): bool {
    match Lookup(schema, key)
    case Some(v) => (match AsFlag(v) case Some(b) => b case None => inherited)
    case None => inherited
  }

  predicate TypeMatches(declared: string, value: Tree) {
    if declared == "string" then value.TStr?
    else if declared == "integer" then value.TNum? && value.n.Int?
    else if declared == "number" then value.TNum?
    else if declared == "boolean" then AsFlag(value).Some?
    else if declared == "object" then value.TMap?
    else if declared == "array" then value.TArr?
    else true
  }

  predicate EnumAdmits(declared: Option<string>, member: Tree, value: Tree) {
    if declared == Some("boolean") then
      AsFlag(member).Some? && AsFlag(member) == AsFlag(value)
    else member == value
  }

  /** The first objection to a value, in the order type, enum, lower bound, upper bound. */
  function CheckValue(schema: Tree, value: Tree): Option<Msg> {
    var declared := AsStr(Lookup(schema, "type"));
    var allowed := Lookup(schema, "enum");
    var n := AsNumber(Some(value));
    var min := AsNumber(Lookup(schema, "minimum"));
    var max := AsNumber(Lookup(schema, "maximum"));
    if declared.Some? && !TypeMatches(declared.value, value) then Some(Expected(declared.value))
    else if allowed.Some? && allowed.value.TArr?
            && !(exists i :: 0 <= i < |allowed.value.items| && EnumAdmits(declared, allowed.value.items[i], value))
    then Some(OneOf(allowed.value.items))
    else if n.Some? && min.Some? && n.value < min.value then Some(AtLeast(Lookup(schema, "minimum").value))
    else if n.Some? && max.Some? && n.value > max.value then Some(AtMost(Lookup(schema, "maximum").value))
    else None
  }

  // ---------------------------------------------------------------- the dialect

  const SCHEMA_TYPES := {"string", "integer", "number", "boolean", "object", "array"}

  predicate ValidChar(c: char) {
    'a' <= c <= 'z' || 'A' <= c <= 'Z' || '0' <= c <= '9' || c in {'_', '-', '@', '!'}
  }

  predicate ValidSegment(s: string) {
    s != "" && forall i :: 0 <= i < |s| ==> ValidChar(s[i])
  }

  predicate Bounded(node: Tree, key: string, declared: Option<string>) {
    Lookup(node, key).Some? ==>
      AsNumber(Lookup(node, key)).Some? && (declared.None? || declared.value in {"integer", "number"})
  }

  predicate Scalar(t: Tree) {
    t.TStr? || t.TNum? || t.TBool?
  }

  /** What one schema node may say. */
  predicate NodeOk(node: Tree) {
    var declared := AsStr(Lookup(node, "type"));
    var members := Lookup(node, "enum");
    var min, max := AsNumber(Lookup(node, "minimum")), AsNumber(Lookup(node, "maximum"));
    && node.TMap?
    && (Lookup(node, "type").Some? ==> declared.Some? && declared.value in SCHEMA_TYPES)
    && (forall key :: key in {"description", "format"} && key in node.m ==> node.m[key].TStr?)
    && (forall key :: key in {"hidden", "enforce", "multiline", "optional"} && key in node.m ==>
          AsFlag(node.m[key]).Some?)
    && (members.Some? ==>
          && members.value.TArr? && members.value.items != []
          && (forall i :: 0 <= i < |members.value.items| ==>
                && Scalar(members.value.items[i])
                && (declared.Some? ==> TypeMatches(declared.value, members.value.items[i]))))
    && Bounded(node, "minimum", declared) && Bounded(node, "maximum", declared)
    && (min.Some? && max.Some? ==> min.value <= max.value)
    && (declared.Some? && Lookup(node, "default").Some? ==> TypeMatches(declared.value, Lookup(node, "default").value))
    && (Lookup(node, "items").Some? ==> declared.None? || declared.value == "array")
    && (Lookup(node, "properties").Some? ==>
          && Lookup(node, "properties").value.TMap?
          && (declared.None? || declared.value == "object")
          && (forall k :: k in Lookup(node, "properties").value.m ==> ValidSegment(k)))
  }

  /** `check_schema_dialect` accepts: what every loaded prefix's schema satisfies. */
  predicate DialectOk(node: Tree) {
    && NodeOk(node)
    && ("items" in node.m ==> DialectOk(node.m["items"]))
    && ("properties" in node.m ==>
          forall k :: k in node.m["properties"].m ==> DialectOk(node.m["properties"].m[k]))
  }

  /** A schema of the dialect cannot tell two maps apart: what it says about a map it
      says about every map. */
  lemma MapsLookAlike(schema: Tree, a: Tree, b: Tree)
    requires NodeOk(schema) && a.TMap? && b.TMap?
    ensures CheckValue(schema, a) == CheckValue(schema, b)
  {
    hide ValidSegment;
    var declared := AsStr(Lookup(schema, "type"));
    var allowed := Lookup(schema, "enum");
    if allowed.Some? {
      forall i | 0 <= i < |allowed.value.items|
        ensures !EnumAdmits(declared, allowed.value.items[i], a)
        ensures !EnumAdmits(declared, allowed.value.items[i], b)
      {
        assert Scalar(allowed.value.items[i]);
      }
    }
  }
}
