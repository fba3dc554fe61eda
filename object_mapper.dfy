/**
 * ObjectMapper: matches the columns of a result to the properties of a class,
 * dissecting each class at most once, and hands out one shared mapper.
 */
module ObjectMapping {
  import opened JavaLang
  import opened ClassDissection

  /** A column index and the dissection of the property it fills. */
  datatype MappedColumn = MappedColumn(column: int, dissection: Dissection)

  /** Whether a column of this name fills a property: its lower-cased name has a dissection with a Row getter. */
  predicate Maps(classDissection: map<string, Dissection>, columnName: string) {
    LowerCase(columnName) in classDissection && classDissection[LowerCase(columnName)].rowGetter.Some?
  }

  /**
   * `mapped` is a mapping of `columnNames`: one entry per column that fills a
   * property, carrying the column's position in the list and the property's
   * dissection, in column order.
   */
  ghost predicate IsMapping(columnNames: seq<string>, classDissection: map<string, Dissection>, mapped: seq<MappedColumn>) {
    && (forall j :: 0 <= j < |mapped| ==>
          && 0 <= mapped[j].column < |columnNames|
          && Maps(classDissection, columnNames[mapped[j].column])
          && mapped[j].dissection == classDissection[LowerCase(columnNames[mapped[j].column])])
    && (forall j, k :: 0 <= j < k < |mapped| ==> mapped[j].column < mapped[k].column)
    && (forall i :: 0 <= i < |columnNames| && Maps(classDissection, columnNames[i]) ==>
          exists j :: 0 <= j < |mapped| && mapped[j].column == i)
  }

  /**
   * Step 2 of `prepareMapping`: walks the column names with a position
   * counter that advances for every name, keeping the columns that fill a
   * property.
   */
  method MapColumns(columnNames: seq<string>, classDissection: map<string, Dissection>) returns (mapped: seq<MappedColumn>)
    ensures IsMapping(columnNames, classDissection, mapped)
    ensures |mapped| <= |columnNames|
  {
    var column := 0;
    mapped := [];
    for n := 0 to |columnNames|
      invariant column == n
      invariant |mapped| <= n
      invariant forall j :: 0 <= j < |mapped| ==>
                  && 0 <= mapped[j].column < n
                  && Maps(classDissection, columnNames[mapped[j].column])
                  && mapped[j].dissection == classDissection[LowerCase(columnNames[mapped[j].column])]
      invariant forall j, k :: 0 <= j < k < |mapped| ==> mapped[j].column < mapped[k].column
      invariant forall i :: 0 <= i < n && Maps(classDissection, columnNames[i]) ==>
                  exists j :: 0 <= j < |mapped| && mapped[j].column == i
    {
      var columnName := columnNames[n];
      var key := LowerCase(columnName);
      if key in classDissection && classDissection[key].rowGetter.Some? {
        ghost var before := mapped;
        mapped := mapped + [MappedColumn(column, classDissection[key])];
        assert forall j :: 0 <= j < |before| ==> mapped[j] == before[j];
        assert mapped[|mapped| - 1].column == n;
      }
      column := column + 1;
    }
  }

  /** A mapping of a list of columns is unique, so `IsMapping` says all there is to say about the result. */
  lemma {:induction false} MappingIsUnique(columnNames: seq<string>, classDissection: map<string, Dissection>,
                                           a: seq<MappedColumn>, b: seq<MappedColumn>)
    requires IsMapping(columnNames, classDissection, a) && IsMapping(columnNames, classDissection, b)
    ensures a == b
    decreases |columnNames|
  {
    if |columnNames| == 0 {
      assert |a| == 0 && |b| == 0;
      return;
    }
    var n := |columnNames| - 1;
    var init := columnNames[..n];
    if Maps(classDissection, columnNames[n]) {
      LastColumnIsLastEntry(columnNames, classDissection, a);
      LastColumnIsLastEntry(columnNames, classDissection, b);
      DropLastIsMapping(columnNames, classDissection, a);
      DropLastIsMapping(columnNames, classDissection, b);
      MappingIsUnique(init, classDissection, a[..|a| - 1], b[..|b| - 1]);
      assert a == a[..|a| - 1] + [a[|a| - 1]] && b == b[..|b| - 1] + [b[|b| - 1]];
    } else {
      NoLastColumnIsMapping(columnNames, classDissection, a);
      NoLastColumnIsMapping(columnNames, classDissection, b);
      MappingIsUnique(init, classDissection, a, b);
    }
  }

  /** When the last column fills a property, it is the last entry of a mapping. */
  lemma LastColumnIsLastEntry(columnNames: seq<string>, classDissection: map<string, Dissection>, a: seq<MappedColumn>)
    requires |columnNames| > 0 && IsMapping(columnNames, classDissection, a)
    requires Maps(classDissection, columnNames[|columnNames| - 1])
    ensures |a| > 0 && a[|a| - 1].column == |columnNames| - 1
  {
    var n := |columnNames| - 1;
    var j :| 0 <= j < |a| && a[j].column == n;
    assert a[j].column <= a[|a| - 1].column;
  }

  /** When the last column fills a property, the mapping without its last entry is a mapping of the other columns. */
  lemma DropLastIsMapping(columnNames: seq<string>, classDissection: map<string, Dissection>, a: seq<MappedColumn>)
    requires |columnNames| > 0 && IsMapping(columnNames, classDissection, a)
    requires |a| > 0 && a[|a| - 1].column == |columnNames| - 1
    ensures IsMapping(columnNames[..|columnNames| - 1], classDissection, a[..|a| - 1])
  {
    var n := |columnNames| - 1;
    var init := columnNames[..n];
    var a' := a[..|a| - 1];
    forall j | 0 <= j < |a'|
      ensures 0 <= a'[j].column < n && init[a'[j].column] == columnNames[a'[j].column]
    {
      assert a[j].column < a[|a| - 1].column;
    }
    forall i | 0 <= i < n && Maps(classDissection, init[i])
      ensures exists j :: 0 <= j < |a'| && a'[j].column == i
    {
      assert init[i] == columnNames[i];
      var j :| 0 <= j < |a| && a[j].column == i;
      assert j < |a| - 1;
      assert a'[j].column == i;
    }
  }

  /** When the last column fills no property, the mapping is a mapping of the other columns. */
  lemma NoLastColumnIsMapping(columnNames: seq<string>, classDissection: map<string, Dissection>, a: seq<MappedColumn>)
    requires |columnNames| > 0 && IsMapping(columnNames, classDissection, a)
    requires !Maps(classDissection, columnNames[|columnNames| - 1])
    ensures IsMapping(columnNames[..|columnNames| - 1], classDissection, a)
  {
    var n := |columnNames| - 1;
    var init := columnNames[..n];
    forall j | 0 <= j < |a|
      ensures 0 <= a[j].column < n && init[a[j].column] == columnNames[a[j].column]
    {
    }
    forall i | 0 <= i < n && Maps(classDissection, init[i])
      ensures exists j :: 0 <= j < |a| && a[j].column == i
    {
      assert init[i] == columnNames[i];
    }
  }

  /**
   * Property keys are lower-cased names, so a column named exactly as a key
   * whose property has a setter with a Row getter is mapped onto that
   * property.
   */
  lemma ColumnNamedAsKeyIsMapped(columnNames: seq<string>, typeMap: map<JType, string>, c: JClass,
                                 mapped: seq<MappedColumn>, i: int)
    requires IsMapping(columnNames, DissectSpec(typeMap, c), mapped)
    requires 0 <= i < |columnNames| && columnNames[i] in DissectSpec(typeMap, c)
    requires DissectSpec(typeMap, c)[columnNames[i]].rowGetter.Some?
    ensures exists j :: 0 <= j < |mapped| && mapped[j].column == i
                        && mapped[j].dissection == DissectSpec(typeMap, c)[columnNames[i]]
  {
    var key := columnNames[i];
    DissectionEntriesWellFormed(typeMap, c, key);
    var setter := DissectSpec(typeMap, c)[key].setter.value;
    var p := Classify(setter).property;
    LowerCaseIdempotent(p);
    assert LowerCase(key) == key;
  }

  class ObjectMapper {
    const dissector: ClassDissector
    var dissectedClasses: map<JClass, map<string, Dissection>>
    /** The classes `dissect` has been run on, in order. */
    ghost var dissectCalls: seq<JClass>

    /** The memo holds each class's dissection, and exactly the classes dissected, each dissected once. */
    ghost predicate Valid()
      reads this
    {
      && (forall c :: c in dissectedClasses ==> dissectedClasses[c] == DissectSpec(dissector.rowTypeMap, c))
      && (forall i, j :: 0 <= i < j < |dissectCalls| ==> dissectCalls[i] != dissectCalls[j])
      && (forall c :: c in dissectedClasses <==> c in dissectCalls)
    }

    constructor ()
      ensures Valid() && dissectedClasses == map[] && dissectCalls == []
      ensures dissector.rowTypeMap == ROW_TYPEMAP
    {
      dissector := new ClassDissector();
      dissectedClasses := map[];
      dissectCalls := [];
    }

    /** `getDissection(clazz)`: the memoised dissection; `dissect` runs only for a class not seen before. */
    method GetDissection(c: JClass) returns (dissections: map<string, Dissection>)
      requires Valid()
      modifies this
      ensures Valid()
      ensures dissections == DissectSpec(dissector.rowTypeMap, c)
      ensures dissectedClasses == old(dissectedClasses)[c := dissections]
      ensures dissectCalls == old(dissectCalls) + (if c in old(dissectedClasses) then [] else [c])
    {
      if c in dissectedClasses {
        dissections := dissectedClasses[c];
        assert dissectedClasses[c := dissections] == dissectedClasses;
      } else {
        dissections := dissector.Dissect(c);
        dissectedClasses := dissectedClasses[c := dissections];
        dissectCalls := dissectCalls + [c];
      }
    }

    /** `prepareMapping(columnNames, clazz)`: the mapping of the columns onto the class's properties. */
    method PrepareMapping(columnNames: seq<string>, c: JClass) returns (mappedColumns: seq<MappedColumn>)
      requires Valid()
      modifies this
      ensures Valid()
      ensures IsMapping(columnNames, DissectSpec(dissector.rowTypeMap, c), mappedColumns)
      ensures |mappedColumns| <= |columnNames|
      ensures dissectCalls == old(dissectCalls) + (if c in old(dissectedClasses) then [] else [c])
    {
      var classDissection := GetDissection(c);
      mappedColumns := MapColumns(columnNames, classDissection);
    }
  }

  /** The static field `instance` of ObjectMapper and `getInstance()`. */
  class MapperHolder {
    var instance: ObjectMapper?

    constructor ()
      ensures instance == null
    {
      instance := null;
    }

    /** `getInstance()`: creates the mapper on the first call and returns that same mapper ever after. */
    method GetInstance() returns (mapper: ObjectMapper)
      modifies this
      ensures instance == mapper
      ensures old(instance) != null ==> mapper == old(instance)
      ensures old(instance) == null ==> fresh(mapper) && mapper.Valid() && mapper.dissectedClasses == map[]
    {
      if instance == null {
        instance := new ObjectMapper();
      }
      mapper := instance;
    }
  }
}
