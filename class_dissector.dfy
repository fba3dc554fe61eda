/**
 * ClassDissector: finds a class's property getters and setters by the names,
 * arities and return types of its public methods, merged per lower-cased
 * property name, and links each setter's parameter type to the Row getter
 * that reads a column of that type.
 *
 * Reflection is modelled by values: a class is its modifiers and the array
 * `getMethods()` returns, a method is its name, parameter types, return type,
 * modifiers and declaring class, and a Row getter is its method name.
 */
module ClassDissection {
  import opened JavaLang

  /** Java types: the primitives and `void`, and classes by fully qualified name. */
  datatype JType =
    | VoidType | BooleanType | ByteType | CharType | ShortType | IntType | LongType | FloatType | DoubleType
    | ClassType(name: string)

  const OBJECT_CLASS: string := "java.lang.Object"

  datatype Method = Method(name: string, paramTypes: seq<JType>, returnType: JType, isPublic: bool, declaringClass: string)

  /** A class: whether it is public, and its methods in the order `getMethods()` lists them. */
  datatype JClass = JClass(name: string, isPublic: bool, methods: seq<Method>)

  /** The accessors found for one property; `None` stands for a field left null. */
  datatype Dissection = Dissection(
    getter: Option<Method>,
    setter: Option<Method>,
    getterType: Option<JType>,
    setterType: Option<JType>,
    rowGetter: Option<string>)

  const EMPTY_DISSECTION: Dissection := Dissection(None, None, None, None, None)

  const GET_PREFIX: string := "get"
  const SET_PREFIX: string := "set"
  const IS_PREFIX: string := "is"

  /** The wrapper class of a primitive type. */
  function Boxed(t: JType): JType {
    match t
    case VoidType => ClassType("java.lang.Void")
    case BooleanType => ClassType("java.lang.Boolean")
    case ByteType => ClassType("java.lang.Byte")
    case CharType => ClassType("java.lang.Character")
    case ShortType => ClassType("java.lang.Short")
    case IntType => ClassType("java.lang.Integer")
    case LongType => ClassType("java.lang.Long")
    case FloatType => ClassType("java.lang.Float")
    case DoubleType => ClassType("java.lang.Double")
    case ClassType(_) => t
  }

  /** `ROW_TYPEMAP` as the constructor fills it: primitive `boolean` gets the getter of `Long`. */
  const ROW_TYPEMAP_AS_WRITTEN: map<JType, string> := map[
    ClassType("java.lang.String") := "getString",
    ClassType("java.lang.Integer") := "getInteger",
    IntType := "getInteger",
    ClassType("java.lang.Short") := "getShort",
    ShortType := "getShort",
    ClassType("java.lang.Long") := "getLong",
    LongType := "getLong",
    ClassType("java.lang.Boolean") := "getBoolean",
    BooleanType := "getLong",
    ClassType("java.lang.Double") := "getDouble",
    DoubleType := "getDouble",
    ClassType("java.lang.Float") := "getFloat",
    FloatType := "getFloat",
    ClassType("java.time.OffsetDateTime") := "getOffsetDateTime",
    ClassType("java.time.OffsetTime") := "getOffsetTime",
    ClassType("io.vertx.core.buffer.Buffer") := "getBuffer",
    ClassType("java.math.BigDecimal") := "getBigDecimal",
    ClassType("java.time.LocalTime") := "getLocalTime",
    ClassType("java.time.LocalDateTime") := "getLocalDateTime",
    ClassType("java.time.LocalDate") := "getLocalDate",
    ClassType("java.time.temporal.Temporal") := "getTemporal",
    ClassType("java.util.UUID") := "getUUID",
    ClassType(OBJECT_CLASS) := "getValue"]

  /** `ROW_TYPEMAP` with primitive `boolean` read like `Boolean`, as every other primitive is read like its wrapper. */
  const ROW_TYPEMAP: map<JType, string> := ROW_TYPEMAP_AS_WRITTEN[BooleanType := "getBoolean"]

  /** The discrepancy: a primitive `boolean` setter would be fed by `Row.getLong`. */
  lemma BooleanPrimitiveReadAsLongAsWritten()
    ensures ROW_TYPEMAP_AS_WRITTEN[BooleanType] == ROW_TYPEMAP_AS_WRITTEN[ClassType("java.lang.Long")]
    ensures ROW_TYPEMAP_AS_WRITTEN[BooleanType] != ROW_TYPEMAP_AS_WRITTEN[Boxed(BooleanType)]
  {
  }

  /**
   * The discrepancy seen through `dissect`: for a public class whose only
   * accessor is `setActive(boolean)`, the property "active" is read with
   * `Row.getLong` as written and with `Row.getBoolean` once corrected.
   */
  lemma BooleanSetterFedByGetLongAsWritten()
    ensures var bean := JClass("Bean", true, [Method("setActive", [BooleanType], VoidType, true, "Bean")]);
            && "active" in DissectSpec(ROW_TYPEMAP_AS_WRITTEN, bean)
            && DissectSpec(ROW_TYPEMAP_AS_WRITTEN, bean)["active"].rowGetter == Some("getLong")
            && "active" in DissectSpec(ROW_TYPEMAP, bean)
            && DissectSpec(ROW_TYPEMAP, bean)["active"].rowGetter == Some("getBoolean")
  {
    var m := Method("setActive", [BooleanType], VoidType, true, "Bean");
    var bean := JClass("Bean", true, [m]);
    assert VisibleMethods(bean) == [Some(m)];
    assert [Some(m)][..0] == [];
    assert m.name[3..] == "Active";
    assert LowerCase("Active") == "active";
  }

  /** Every primitive in the corrected map is read by the same Row getter as its wrapper class. */
  lemma PrimitivesShareBoxedGetter(t: JType)
    requires !t.ClassType? && t in ROW_TYPEMAP
    ensures Boxed(t) in ROW_TYPEMAP && ROW_TYPEMAP[t] == ROW_TYPEMAP[Boxed(t)]
  {
    match t
    case IntType => IntegerGetters();
    case ShortType => IntegerGetters();
    case LongType => LongAndBooleanGetters();
    case BooleanType => LongAndBooleanGetters();
    case DoubleType => FloatingGetters();
    case FloatType => FloatingGetters();
    case _ =>
  }

  /** The entries of the corrected map for `int`, `short` and their wrappers. */
  lemma IntegerGetters()
    ensures ROW_TYPEMAP[IntType] == "getInteger" && ROW_TYPEMAP[ClassType("java.lang.Integer")] == "getInteger"
    ensures ROW_TYPEMAP[ShortType] == "getShort" && ROW_TYPEMAP[ClassType("java.lang.Short")] == "getShort"
  {
  }

  /** The entries of the corrected map for `long`, `boolean` and their wrappers. */
  lemma LongAndBooleanGetters()
    ensures ROW_TYPEMAP[LongType] == "getLong" && ROW_TYPEMAP[ClassType("java.lang.Long")] == "getLong"
    ensures ROW_TYPEMAP[BooleanType] == "getBoolean" && ROW_TYPEMAP[ClassType("java.lang.Boolean")] == "getBoolean"
  {
  }

  /** The entries of the corrected map for `double`, `float` and their wrappers. */
  lemma FloatingGetters()
    ensures ROW_TYPEMAP[DoubleType] == "getDouble" && ROW_TYPEMAP[ClassType("java.lang.Double")] == "getDouble"
    ensures ROW_TYPEMAP[FloatType] == "getFloat" && ROW_TYPEMAP[ClassType("java.lang.Float")] == "getFloat"
  {
  }

  /** `ROW_TYPEMAP.get(t)`. */
  function RowGetterFor(typeMap: map<JType, string>, t: JType): (r: Option<string>)
    ensures r.Some? <==> t in typeMap
    ensures r.Some? ==> r.value == typeMap[t]
  {
    if t in typeMap then Some(typeMap[t]) else None
  }

  /** What one method contributes, by the naming rules. */
  datatype Accessor = Getter(property: string) | Setter(property: string) | NotAccessor

  /**
   * The rules of `dissect`: names of three characters or fewer are pruned
   * unless they start with "is"; a no-argument `get…` is a getter; a
   * no-argument `is…` returning `boolean` is a getter; a one-argument `set…`
   * returning `void` is a setter; nothing else is an accessor.
   */
  function Classify(m: Method): (r: Accessor)
    ensures r.Getter? ==> |m.paramTypes| == 0 &&
                          ((StartsWith(m.name, GET_PREFIX) && r.property == m.name[3..]) ||
                           (StartsWith(m.name, IS_PREFIX) && m.returnType == BooleanType && r.property == m.name[2..]))
    ensures r.Setter? ==> |m.paramTypes| == 1 && m.returnType == VoidType && StartsWith(m.name, SET_PREFIX)
                          && r.property == m.name[3..]
    ensures |m.name| <= 3 && !StartsWith(m.name, IS_PREFIX) ==> r == NotAccessor
    ensures |m.paramTypes| == 0 && StartsWith(m.name, GET_PREFIX) && |m.name| > 3 ==> r == Getter(m.name[3..])
    ensures (|m.paramTypes| == 0 && !StartsWith(m.name, GET_PREFIX) && StartsWith(m.name, IS_PREFIX) &&
             m.returnType == BooleanType) ==> r == Getter(m.name[2..])
    ensures (|m.paramTypes| == 1 && m.returnType == VoidType && StartsWith(m.name, SET_PREFIX) &&
             |m.name| > 3) ==> r == Setter(m.name[3..])
  {
    var name := m.name;
    if |name| <= 3 && !StartsWith(name, IS_PREFIX) then NotAccessor
    else if |m.paramTypes| == 0 then
      if StartsWith(name, GET_PREFIX) then Getter(name[3..])
      else if m.returnType == BooleanType && StartsWith(name, IS_PREFIX) then Getter(name[2..])
      else NotAccessor
    else if |m.paramTypes| == 1 then
      if m.returnType == VoidType && StartsWith(name, SET_PREFIX) then Setter(name[3..])
      else NotAccessor
    else NotAccessor
  }

  /** `getOrCreate(propertyName, dissected)`: the lower-cased key and the dissection under it, empty if none yet. */
  function GetOrCreate(propertyName: string, dissected: map<string, Dissection>): (r: (string, Dissection))
    ensures r.0 == LowerCase(propertyName)
    ensures r.0 in dissected ==> r.1 == dissected[r.0]
    ensures r.0 !in dissected ==> r.1 == EMPTY_DISSECTION
  {
    var key := LowerCase(propertyName);
    if key in dissected then (key, dissected[key]) else (key, EMPTY_DISSECTION)
  }

  /** The map after one (possibly nulled) entry of the method array is dissected. */
  function Apply(typeMap: map<JType, string>, dissected: map<string, Dissection>, om: Option<Method>): map<string, Dissection> {
    match om
    case None => dissected
    case Some(m) =>
      match Classify(m)
      case Getter(p) =>
        var (key, d) := GetOrCreate(p, dissected);
        dissected[key := d.(getter := Some(m), getterType := Some(m.returnType))]
      case Setter(p) =>
        var (key, d) := GetOrCreate(p, dissected);
        dissected[key := d.(setter := Some(m), setterType := Some(m.paramTypes[0]),
                            rowGetter := RowGetterFor(typeMap, m.paramTypes[0]))]
      case NotAccessor => dissected
  }

  /** The map after the entries of `methods` are dissected in order. */
  function DissectAll(typeMap: map<JType, string>, methods: seq<Option<Method>>): map<string, Dissection> {
    if |methods| == 0 then map[]
    else Apply(typeMap, DissectAll(typeMap, methods[..|methods| - 1]), methods[|methods| - 1])
  }

  /** Methods `getPublicMethods` keeps: public ones not declared by `Object`. */
  predicate Visible(m: Method) {
    m.isPublic && m.declaringClass != OBJECT_CLASS
  }

  /** What `getPublicMethods` returns: nothing for a non-public class, otherwise `getMethods()` with hidden entries nulled. */
  function VisibleMethods(c: JClass): (r: seq<Option<Method>>)
    ensures !c.isPublic ==> r == []
    ensures c.isPublic ==> |r| == |c.methods|
    ensures c.isPublic ==> forall i :: 0 <= i < |r| ==>
              (r[i].Some? <==> Visible(c.methods[i])) && (r[i].Some? ==> r[i].value == c.methods[i])
  {
    if !c.isPublic then []
    else seq(|c.methods|, i requires 0 <= i < |c.methods| =>
               if Visible(c.methods[i]) then Some(c.methods[i]) else None)
  }

  function DissectSpec(typeMap: map<JType, string>, c: JClass): map<string, Dissection> {
    DissectAll(typeMap, VisibleMethods(c))
  }

  /** A non-public class has no properties. */
  lemma NonPublicClassIsEmpty(typeMap: map<JType, string>, c: JClass)
    requires !c.isPublic
    ensures DissectSpec(typeMap, c) == map[]
  {
  }

  /** Whether `m` is a getter (`getter` true) or a setter (`getter` false) of the property with key `key`. */
  predicate IsAccessorFor(m: Method, key: string, getter: bool) {
    match Classify(m)
    case Getter(p) => getter && LowerCase(p) == key
    case Setter(p) => !getter && LowerCase(p) == key
    case NotAccessor => false
  }

  /** The last getter (or setter) of property `key` among `methods`. */
  function LastAccessor(methods: seq<Option<Method>>, key: string, getter: bool): Option<Method> {
    if |methods| == 0 then None
    else
      var last := methods[|methods| - 1];
      if last.Some? && IsAccessorFor(last.value, key, getter) then last
      else LastAccessor(methods[..|methods| - 1], key, getter)
  }

  /** A property has a last getter (setter) iff some listed method is a getter (setter) of it. */
  lemma {:induction false} LastAccessorExists(methods: seq<Option<Method>>, key: string, getter: bool)
    ensures LastAccessor(methods, key, getter).Some? <==>
              exists i :: 0 <= i < |methods| && methods[i].Some? && IsAccessorFor(methods[i].value, key, getter)
    ensures LastAccessor(methods, key, getter).Some? ==>
              IsAccessorFor(LastAccessor(methods, key, getter).value, key, getter) &&
              LastAccessor(methods, key, getter) in methods
    decreases |methods|
  {
    if |methods| > 0 {
      var init := methods[..|methods| - 1];
      LastAccessorExists(init, key, getter);
      var last := methods[|methods| - 1];
      if !(last.Some? && IsAccessorFor(last.value, key, getter)) {
        if exists i :: 0 <= i < |methods| && methods[i].Some? && IsAccessorFor(methods[i].value, key, getter) {
          var i :| 0 <= i < |methods| && methods[i].Some? && IsAccessorFor(methods[i].value, key, getter);
          assert i < |methods| - 1 && init[i] == methods[i];
        }
        if LastAccessor(init, key, getter).Some? {
          var i :| 0 <= i < |init| && init[i] == LastAccessor(init, key, getter);
          assert methods[i] == init[i];
        }
      }
    }
  }

  /** The dissection a property is expected to have: its last getter and its last setter, with their types. */
  function Expected(typeMap: map<JType, string>, methods: seq<Option<Method>>, key: string): Dissection {
    var g := LastAccessor(methods, key, true);
    var s := LastAccessor(methods, key, false);
    Dissection(
      g, s,
      if g.Some? then Some(g.value.returnType) else None,
      if s.Some? && |s.value.paramTypes| == 1 then Some(s.value.paramTypes[0]) else None,
      if s.Some? && |s.value.paramTypes| == 1 then RowGetterFor(typeMap, s.value.paramTypes[0]) else None)
  }

  /**
   * The map `dissect` builds, characterised without its loop: a key is
   * present iff some visible method is a getter or setter of that
   * lower-cased property, and its entry holds the last such getter and the
   * last such setter, the getter's return type, the setter's parameter type
   * and the Row getter for that type. So a getter and a setter of one
   * property, whatever the case of their names, share one entry.
   */
  lemma {:induction false} DissectAllCharacterised(typeMap: map<JType, string>, methods: seq<Option<Method>>, key: string)
    ensures key in DissectAll(typeMap, methods) <==>
              LastAccessor(methods, key, true).Some? || LastAccessor(methods, key, false).Some?
    ensures key in DissectAll(typeMap, methods) ==> DissectAll(typeMap, methods)[key] == Expected(typeMap, methods, key)
    decreases |methods|
  {
    if |methods| > 0 {
      var init := methods[..|methods| - 1];
      DissectAllCharacterised(typeMap, init, key);
      var om := methods[|methods| - 1];
      if om.Some? {
        var m := om.value;
        match Classify(m)
        case Getter(p) =>
          assert IsAccessorFor(m, LowerCase(p), true);
        case Setter(p) =>
          assert IsAccessorFor(m, LowerCase(p), false);
        case NotAccessor =>
      }
    }
  }

  /** Every entry has a getter or a setter, and its types and Row getter are the ones its accessors carry. */
  lemma DissectionEntriesWellFormed(typeMap: map<JType, string>, c: JClass, key: string)
    requires key in DissectSpec(typeMap, c)
    ensures var d := DissectSpec(typeMap, c)[key];
            && (d.getter.Some? || d.setter.Some?)
            && (d.getter.Some? ==> d.getterType == Some(d.getter.value.returnType)
                                   && IsAccessorFor(d.getter.value, key, true) && Visible(d.getter.value))
            && (d.setter.Some? ==> |d.setter.value.paramTypes| == 1
                                   && d.setterType == Some(d.setter.value.paramTypes[0])
                                   && d.rowGetter == RowGetterFor(typeMap, d.setter.value.paramTypes[0])
                                   && IsAccessorFor(d.setter.value, key, false) && Visible(d.setter.value))
            && (d.setter.None? ==> d.rowGetter.None?)
  {
    var ms := VisibleMethods(c);
    DissectAllCharacterised(typeMap, ms, key);
    LastAccessorExists(ms, key, true);
    LastAccessorExists(ms, key, false);
  }

  /** ClassDissector: holds the type map its constructor fills. */
  class ClassDissector {
    const rowTypeMap: map<JType, string>

    constructor ()
      ensures rowTypeMap == ROW_TYPEMAP
    {
      rowTypeMap := ROW_TYPEMAP;
    }

    /** `getPublicMethods(clazz)`: a copy of `getMethods()` with non-public and `Object` methods nulled in place. */
    method GetPublicMethods(c: JClass) returns (result: array<Option<Method>>)
      ensures result[..] == VisibleMethods(c)
    {
      if !c.isPublic {
        result := new Option<Method>[0];
        return;
      }
      var ms := c.methods;
      result := new Option<Method>[|ms|](i requires 0 <= i < |ms| => Some(ms[i]));
      for i := 0 to result.Length
        invariant forall j :: 0 <= j < i ==> result[j] == VisibleMethods(c)[j]
        invariant forall j :: i <= j < result.Length ==> result[j] == Some(ms[j])
      {
        var m := result[i].value;
        if !m.isPublic || m.declaringClass == OBJECT_CLASS {
          result[i] := None;
        }
      }
    }

    /** `dissect(clazz)`: the property map of the class, entry by entry of its public methods. */
    method Dissect(c: JClass) returns (dissected: map<string, Dissection>)
      ensures dissected == DissectSpec(rowTypeMap, c)
    {
      var methods := GetPublicMethods(c);
      dissected := map[];
      for i := 0 to methods.Length
        invariant dissected == DissectAll(rowTypeMap, methods[..i])
      {
        assert methods[..i + 1][..i] == methods[..i];
        var om := methods[i];
        if om.None? {
          continue;
        }
        var m := om.value;
        var name := m.name;
        var argCount := |m.paramTypes|;
        var resultType := m.returnType;
        if |name| <= 3 && !StartsWith(name, IS_PREFIX) {
          continue;
        }
        if argCount == 0 {
          if StartsWith(name, GET_PREFIX) {
            name := name[3..];
            var (key, d) := GetOrCreate(name, dissected);
            dissected := dissected[key := d.(getter := Some(m), getterType := Some(resultType))];
          } else if resultType == BooleanType && StartsWith(name, IS_PREFIX) {
            name := name[2..];
            var (key, d) := GetOrCreate(name, dissected);
            dissected := dissected[key := d.(getter := Some(m), getterType := Some(resultType))];
          }
        } else if argCount == 1 {
          if resultType == VoidType && StartsWith(name, SET_PREFIX) {
            name := name[3..];
            var (key, d) := GetOrCreate(name, dissected);
            var setterType := m.paramTypes[0];
            dissected := dissected[key := d.(setter := Some(m), setterType := Some(setterType),
                                              rowGetter := RowGetterFor(rowTypeMap, setterType))];
          }
        }
      }
      assert methods[..methods.Length] == methods[..];
    }
  }
}
