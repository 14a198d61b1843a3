/** What a schema node demands of a value, constraint by constraint, and that the check
    answers exactly that. */
module Conformance {
  import opened Values
  import opened TouchedPaths
  import opened Schema

  /** The node has this entry. */
  predicate Says(schema: Tree, key: string, entry: Tree) {
    schema.TMap? && key in schema.m && schema.m[key] == entry
  }

  /** The boolean `b`, as such or in the wire's spelling. */
  predicate IsFlag(t: Tree, b: bool) {
    t == TBool(b) || t == TNum(Int(if b then 1 else 0))
  }

  /** Smaller as a number, whichever way the two are written. */
  predicate Below(a: Number, b: Number) {
    match (a, b)
    case (Int(x), Int(y)) => x < y
    case (Int(x), Float(y)) => x as real < y
    case (Float(x), Int(y)) => x < y as real
    case (Float(x), Float(y)) => x < y
  }

  ghost predicate FitsType(schema: Tree, value: Tree) {
    && (Says(schema, "type", TStr("string")) ==> value.TStr?)
    && (Says(schema, "type", TStr("integer")) ==> value.TNum? && value.n.Int?)
    && (Says(schema, "type", TStr("number")) ==> value.TNum?)
    && (Says(schema, "type", TStr("boolean")) ==> IsFlag(value, true) || IsFlag(value, false))
    && (Says(schema, "type", TStr("object")) ==> value.TMap?)
    && (Says(schema, "type", TStr("array")) ==> value.TArr?)
  }

  /** The same value, or, where a boolean is declared, the same flag. */
  predicate SameMember(schema: Tree, member: Tree, value: Tree) {
    if Says(schema, "type", TStr("boolean"))
    then (IsFlag(member, true) && IsFlag(value, true)) || (IsFlag(member, false) && IsFlag(value, false))
    else member == value
  }

  ghost predicate FitsEnum(schema: Tree, value: Tree) {
    forall members :: Says(schema, "enum", TArr(members)) ==>
      exists member :: member in members && SameMember(schema, member, value)
  }

  ghost predicate FitsMinimum(schema: Tree, value: Tree) {
    forall low :: Says(schema, "minimum", TNum(low)) ==> !(value.TNum? && Below(value.n, low))
  }

  ghost predicate FitsMaximum(schema: Tree, value: Tree) {
    forall high :: Says(schema, "maximum", TNum(high)) ==> !(value.TNum? && Below(high, value.n))
  }

  /** Every constraint the node states holds of the value. */
  ghost predicate Conforms(schema: Tree, value: Tree) {
    FitsType(schema, value) && FitsEnum(schema, value) && FitsMinimum(schema, value) && FitsMaximum(schema, value)
  }

  /** The message names a constraint the node states and the value violates, and everything
      asked before it holds. */
  ghost predicate Violates(schema: Tree, value: Tree, msg: Msg) {
    match msg
    case Expected(declared) => Says(schema, "type", TStr(declared)) && !FitsType(schema, value)
    case OneOf(members) =>
      && FitsType(schema, value)
      && Says(schema, "enum", TArr(members)) && !FitsEnum(schema, value)
    case AtLeast(bound) =>
      && FitsType(schema, value) && FitsEnum(schema, value)
      && Says(schema, "minimum", bound) && !FitsMinimum(schema, value)
    case AtMost(bound) =>
      && FitsType(schema, value) && FitsEnum(schema, value) && FitsMinimum(schema, value)
      && Says(schema, "maximum", bound) && !FitsMaximum(schema, value)
  }

  // ---------------------------------------------------------------- the pieces of the check

  /** `as_flag` reads the two spellings of a boolean and nothing else. */
  lemma FlagMeans(t: Tree, b: bool)
    ensures AsFlag(t) == Some(b) <==> IsFlag(t, b)
  {
  }

  /** A node's own flag, or what it inherits when it states none that can be read. */
  lemma FlagStated(schema: Tree, key: string, inherited: bool)
    ensures forall entry: Tree, b: bool :: Says(schema, key, entry) && IsFlag(entry, b) ==> Flag(schema, key, inherited) == b
    ensures (forall entry: Tree, b: bool :: Says(schema, key, entry) ==> !IsFlag(entry, b))
              ==> Flag(schema, key, inherited) == inherited
  {
    if Lookup(schema, key).Some? && AsFlag(Lookup(schema, key).value).Some? {
      assert Says(schema, key, Lookup(schema, key).value)
          && IsFlag(Lookup(schema, key).value, AsFlag(Lookup(schema, key).value).value);
    }
  }

  lemma NumbersCompare(a: Number, b: Number)
    ensures AsNumber(Some(TNum(a))).value < AsNumber(Some(TNum(b))).value <==> Below(a, b)
  {
  }

  lemma TypeFits(schema: Tree, value: Tree)
    ensures var declared := AsStr(Lookup(schema, "type"));
            FitsType(schema, value) <==> declared.None? || TypeMatches(declared.value, value)
  {
    FlagMeans(value, true);
    FlagMeans(value, false);
    var declared := AsStr(Lookup(schema, "type"));
    if declared.Some? {
      assert Says(schema, "type", TStr(declared.value));
    }
  }

  lemma EnumFits(schema: Tree, value: Tree)
    ensures var declared, allowed := AsStr(Lookup(schema, "type")), Lookup(schema, "enum");
            FitsEnum(schema, value) <==>
              allowed.Some? && allowed.value.TArr? ==>
                exists i :: 0 <= i < |allowed.value.items| && EnumAdmits(declared, allowed.value.items[i], value)
  {
    var declared, allowed := AsStr(Lookup(schema, "type")), Lookup(schema, "enum");
    forall member ensures SameMember(schema, member, value) <==> EnumAdmits(declared, member, value) {
      FlagMeans(member, true);
      FlagMeans(member, false);
      FlagMeans(value, true);
      FlagMeans(value, false);
    }
    if allowed.Some? && allowed.value.TArr? {
      assert Says(schema, "enum", TArr(allowed.value.items));
    }
  }

  lemma BoundsFit(schema: Tree, value: Tree)
    ensures var n, min := AsNumber(Some(value)), AsNumber(Lookup(schema, "minimum"));
            FitsMinimum(schema, value) <==> !(n.Some? && min.Some? && n.value < min.value)
    ensures var n, max := AsNumber(Some(value)), AsNumber(Lookup(schema, "maximum"));
            FitsMaximum(schema, value) <==> !(n.Some? && max.Some? && n.value > max.value)
  {
    var low, high := Lookup(schema, "minimum"), Lookup(schema, "maximum");
    if value.TNum? && low.Some? && low.value.TNum? {
      NumbersCompare(value.n, low.value.n);
      assert Says(schema, "minimum", TNum(low.value.n));
    }
    if value.TNum? && high.Some? && high.value.TNum? {
      NumbersCompare(high.value.n, value.n);
      assert Says(schema, "maximum", TNum(high.value.n));
    }
  }

  // ---------------------------------------------------------------- the check

  /** `check_value` objects exactly to values that do not conform, and what it says is the
      first constraint of the node that the value violates. */
  lemma CheckMeans(schema: Tree, value: Tree)
    ensures CheckValue(schema, value).None? <==> Conforms(schema, value)
    ensures forall msg :: CheckValue(schema, value) == Some(msg) <==> Violates(schema, value, msg)
  {
    hide FitsType, FitsEnum, FitsMinimum, FitsMaximum, TypeMatches, EnumAdmits;
    TypeFits(schema, value);
    EnumFits(schema, value);
    BoundsFit(schema, value);
    forall msg ensures CheckValue(schema, value) == Some(msg) <==> Violates(schema, value, msg) {
      ViolationSaid(schema, value, msg);
    }
  }

  lemma ViolationSaid(schema: Tree, value: Tree, msg: Msg)
    ensures CheckValue(schema, value) == Some(msg) <==> Violates(schema, value, msg)
  {
    hide FitsType, FitsEnum, FitsMinimum, FitsMaximum, TypeMatches, EnumAdmits;
    TypeFits(schema, value);
    EnumFits(schema, value);
    BoundsFit(schema, value);
    StatedOrFits(schema, value);
  }

  /** Only what is stated can be violated. */
  lemma StatedOrFits(schema: Tree, value: Tree)
    ensures !FitsType(schema, value) ==> exists d :: Says(schema, "type", TStr(d))
    ensures !FitsEnum(schema, value) ==> exists members :: Says(schema, "enum", TArr(members))
    ensures !FitsMinimum(schema, value) ==> exists low :: Says(schema, "minimum", TNum(low))
    ensures !FitsMaximum(schema, value) ==> exists high :: Says(schema, "maximum", TNum(high))
  {
  }
}
