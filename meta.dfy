/**
 * Entity metadata (src/EntityMeta.php): the table name derived from the
 * class name, the primary-key definition, the persistable columns and the
 * projection of an instance onto them, and the write-back of generated keys.
 */
module Meta {
  import opened Wrappers
  import opened PhpArrays
  import opened Values
  import opened Entities

  // ---------------------------------------------------------------------
  // Table name: convertClassToTableName
  // ---------------------------------------------------------------------

  predicate IsUpper(c: char)
  {
    'A' <= c <= 'Z'
  }

  /** ASCII lower-casing of one character. */
  function Lower(c: char): (r: char)
    ensures !IsUpper(r)
    ensures !IsUpper(c) ==> r == c
  {
    if IsUpper(c) then (c as int + 32) as char else c
  }

  function CountUpper(s: string): nat
  {
    if s == [] then 0 else (if IsUpper(s[0]) then 1 else 0) + CountUpper(s[1..])
  }

  /** `strrpos($s, '\\')`: the position of the last backslash, if there is one. */
  function LastBackslash(s: string): (r: Option<nat>)
    ensures r.Some? ==> r.value < |s| && s[r.value] == '\\'
    ensures r.Some? ==> forall j :: r.value < j < |s| ==> s[j] != '\\'
    ensures r.None? ==> forall j :: 0 <= j < |s| ==> s[j] != '\\'
    decreases |s|
  {
    if s == [] then None
    else if s[|s| - 1] == '\\' then Some(|s| - 1)
    else LastBackslash(s[..|s| - 1])
  }

  /**
   * `substr($class_name, $ns_pos + 1)`. Without a backslash `strrpos`
   * gives false, which counts as 0, so the name loses its first character.
   */
  function SimpleName(cls: string): (r: string)
    ensures forall j :: 0 <= j < |r| ==> r[j] != '\\'
    ensures LastBackslash(cls).Some? ==> r == cls[LastBackslash(cls).value + 1..]
    ensures LastBackslash(cls).None? && cls != [] ==> r == cls[1..]
  {
    var start := match LastBackslash(cls) case Some(p) => p + 1 case None => 1;
    if start <= |cls| then cls[start..] else ""
  }

  /** `lcfirst`. */
  function LcFirst(s: string): string
  {
    if s == [] then s else [Lower(s[0])] + s[1..]
  }

  /** `preg_replace('/[A-Z]/', '_\0', $s)`: an underscore before every upper-case letter. */
  function Underscored(s: string): string
  {
    if s == [] then [] else (if IsUpper(s[0]) then ['_', s[0]] else [s[0]]) + Underscored(s[1..])
  }

  /** `strtolower`. */
  function ToLower(s: string): (r: string)
    ensures |r| == |s|
    ensures forall j :: 0 <= j < |s| ==> r[j] == Lower(s[j])
  {
    seq(|s|, j requires 0 <= j < |s| => Lower(s[j]))
  }

  /** The table an entity class is stored in. */
  function TableName(cls: string): (r: string)
    ensures forall j :: 0 <= j < |r| ==> !IsUpper(r[j])
  {
    ToLower(Underscored(LcFirst(SimpleName(cls))))
  }

  /**
   * The snake_case form, stated one character at a time: the first letter
   * lower-cased, every later upper-case letter turned into `_` and its
   * lower-case form, every other character kept.
   */
  function SnakeCase(s: string): string
  {
    if s == [] then [] else [Lower(s[0])] + SnakeTail(s[1..])
  }

  function SnakeTail(t: string): string
  {
    if t == [] then [] else (if IsUpper(t[0]) then ['_', Lower(t[0])] else [t[0]]) + SnakeTail(t[1..])
  }

  lemma {:induction false} ToLowerAppend(a: string, b: string)
    ensures ToLower(a + b) == ToLower(a) + ToLower(b)
  {
  }

  lemma {:induction false} ToLowerUnderscored(t: string)
    ensures ToLower(Underscored(t)) == SnakeTail(t)
  {
    if t != [] {
      var head := if IsUpper(t[0]) then ['_', t[0]] else [t[0]];
      ToLowerAppend(head, Underscored(t[1..]));
      ToLowerUnderscored(t[1..]);
    }
  }

  /** The three string passes of the source amount to the one-pass SnakeCase. */
  lemma {:induction false} TableNameIsSnakeCase(cls: string)
    ensures TableName(cls) == SnakeCase(SimpleName(cls))
  {
    var s := SimpleName(cls);
    if s != [] {
      var l := LcFirst(s);
      assert l[0] == Lower(s[0]) && l[1..] == s[1..];
      assert Underscored(l) == [Lower(s[0])] + Underscored(s[1..]);
      ToLowerAppend([Lower(s[0])], Underscored(s[1..]));
      ToLowerUnderscored(s[1..]);
    }
  }

  lemma {:induction false} SnakeTailLength(t: string)
    ensures |SnakeTail(t)| == |t| + CountUpper(t)
  {
    if t != [] {
      SnakeTailLength(t[1..]);
    }
  }

  /**
   * The table name is as long as the simple class name plus one
   * underscore per upper-case letter after its first character.
   */
  lemma TableNameLength(cls: string)
    ensures SimpleName(cls) != [] ==>
      |TableName(cls)| == |SimpleName(cls)| + CountUpper(SimpleName(cls)[1..])
    ensures SimpleName(cls) == [] ==> TableName(cls) == []
  {
    TableNameIsSnakeCase(cls);
    if SimpleName(cls) != [] {
      SnakeTailLength(SimpleName(cls)[1..]);
    }
  }

  // ---------------------------------------------------------------------
  // Primary key: getPrimaryKeyColumns, hasAutoIncrementPrimary
  // ---------------------------------------------------------------------

  /** The definition used when a class declares none: `id`, auto-incremented. */
  const DefaultPrimary: PhpArray<bool> := [("id", true)]

  function PrimaryKeyColumns(d: EntityClass): (r: Result<PhpArray<bool>>)
    ensures r.Err? <==> d.primary.Declared? && !(d.primary.isStatic && d.primary.value.ArrayValue?)
    ensures d.primary.Undeclared? ==> r == Ok(DefaultPrimary)
    ensures d.primary.Declared? && d.primary.isStatic && d.primary.value.ArrayValue? ==>
      r == Ok(d.primary.value.definition)
    ensures d.primary.Declared? && !d.primary.isStatic ==> r == Err(PrimaryNotStatic(d.name))
    ensures d.primary.Declared? && d.primary.isStatic && d.primary.value.OtherValue? ==>
      r == Err(PrimaryNotArray(d.name, d.primary.value.typeName))
  {
    match d.primary
    case Undeclared => Ok(DefaultPrimary)
    case Declared(isStatic, value) =>
      if !isStatic then Err(PrimaryNotStatic(d.name))
      else match value
        case ArrayValue(definition) => Ok(definition)
        case OtherValue(typeName) => Err(PrimaryNotArray(d.name, typeName))
  }

  /** The early-return loop of hasAutoIncrementPrimary. */
  function AnyAutoIncrement(pk: seq<(string, bool)>): (r: bool)
    ensures r <==> exists j :: 0 <= j < |pk| && pk[j].1
  {
    if pk == [] then false
    else if pk[0].1 then true
    else assert forall j :: 0 < j < |pk| ==> pk[j] == pk[1..][j - 1]; AnyAutoIncrement(pk[1..])
  }

  function HasAutoIncrementPrimary(d: EntityClass): (r: Result<bool>)
    ensures r.Ok? <==> PrimaryKeyColumns(d).Ok?
    ensures r.Err? ==> r.error == PrimaryKeyColumns(d).error
    ensures r.Ok? ==> (r.value <==> exists j :: 0 <= j < |PrimaryKeyColumns(d).value| && PrimaryKeyColumns(d).value[j].1)
    ensures d.primary.Undeclared? ==> r == Ok(true)
  {
    match PrimaryKeyColumns(d)
    case Ok(pk) => Ok(AnyAutoIncrement(pk))
    case Err(e) => Err(e)
  }

  // ---------------------------------------------------------------------
  // Columns: getColumnReflections, getDefaultColumns, getColumnsWithValues
  // ---------------------------------------------------------------------

  /** The names of all declared properties, in declaration order. */
  function FieldNames(fs: seq<FieldDecl>): (r: seq<string>)
    ensures |r| == |fs| && forall j :: 0 <= j < |fs| ==> r[j] == fs[j].name
  {
    seq(|fs|, j requires 0 <= j < |fs| => fs[j].name)
  }

  /** The names of the non-static properties, in declaration order. */
  function NonStaticNames(fs: seq<FieldDecl>): (r: seq<string>)
    ensures |r| <= |fs|
    ensures forall c :: c in r <==> exists j :: 0 <= j < |fs| && fs[j].name == c && !fs[j].isStatic
    ensures (forall i, j :: 0 <= i < j < |fs| ==> fs[i].name != fs[j].name) ==> Distinct(r)
  {
    if fs == [] then []
    else
      var rest := NonStaticNames(fs[1..]);
      assert forall j :: 0 < j < |fs| ==> fs[j] == fs[1..][j - 1];
      assert (forall i, j :: 0 <= i < j < |fs| ==> fs[i].name != fs[j].name) ==> fs[0].name !in rest;
      (if fs[0].isStatic then [] else [fs[0].name]) + rest
  }

  /** The non-static names keep the order in which the fields are declared. */
  lemma {:induction false} NonStaticInOrder(fs: seq<FieldDecl>)
    ensures SubSeq(NonStaticNames(fs), FieldNames(fs))
  {
    if fs != [] {
      NonStaticInOrder(fs[1..]);
      var rest := NonStaticNames(fs[1..]);
      assert FieldNames(fs)[1..] == FieldNames(fs[1..]);
      SubSeqSkip(rest, FieldNames(fs));
      if fs[0].isStatic {
        assert NonStaticNames(fs) == rest;
      } else {
        assert NonStaticNames(fs) == [fs[0].name] + rest;
      }
    }
  }

  /** The persistable columns: every non-static property, in declaration order. */
  function DefaultColumns(d: EntityClass): (r: seq<string>)
    ensures Distinct(r)
    ensures forall c :: c in r <==> exists j :: 0 <= j < |d.fields| && d.fields[j].name == c && !d.fields[j].isStatic
    ensures SubSeq(r, FieldNames(d.fields))
  {
    NonStaticInOrder(d.fields);
    NonStaticNames(d.fields)
  }

  /** Every column mapped to the instance's current value, in column order. */
  function ColumnsWithValues(d: EntityClass, props: map<string, Value>): (r: PhpArray<Value>)
    ensures Keys(r) == DefaultColumns(d)
    ensures forall j :: 0 <= j < |r| ==> r[j].1 == Prop(props, r[j].0)
  {
    var cols := DefaultColumns(d);
    seq(|cols|, j requires 0 <= j < |cols| => (cols[j], Prop(props, cols[j])))
  }

  // ---------------------------------------------------------------------
  // getPrimaryColumnsWithValues
  // ---------------------------------------------------------------------

  /** `array_intersect_key` with the primary keys, then `array_filter` dropping nulls. */
  function PrimaryNonNull(cols: seq<(string, Value)>, pk: seq<string>): (r: seq<(string, Value)>)
    ensures forall j :: 0 <= j < |r| ==> r[j] in cols && r[j].0 in pk && r[j].1 != Null
    ensures forall j :: 0 <= j < |cols| && cols[j].0 in pk && cols[j].1 != Null ==> cols[j] in r
    ensures DistinctKeys(cols) ==> DistinctKeys(r)
    ensures SubSeq(r, cols)
  {
    if cols == [] then []
    else
      var rest := PrimaryNonNull(cols[1..], pk);
      assert forall j :: 0 < j < |cols| ==> cols[j] == cols[1..][j - 1];
      SubSeqSkip(rest, cols);
      if cols[0].0 in pk && cols[0].1 != Null then [cols[0]] + rest else rest
  }

  /**
   * The instance's values, read from an object of class `cls`: reflection
   * refuses to read a property off an object of another class, which
   * happens at the first column.
   */
  function ReadColumns(d: EntityClass, cls: string, props: map<string, Value>): (r: Result<PhpArray<Value>>)
    ensures r.Err? <==> cls != d.name && DefaultColumns(d) != []
    ensures r.Err? ==> r.error == WrongObject(cls, d.name)
    ensures r.Ok? ==> Keys(r.value) == DefaultColumns(d)
    ensures r.Ok? ==> forall j :: 0 <= j < |r.value| ==> r.value[j].1 == Prop(props, r.value[j].0)
  {
    if cls != d.name && DefaultColumns(d) != [] then Err(WrongObject(cls, d.name))
    else Ok(ColumnsWithValues(d, props))
  }

  function PrimaryColumnsWithValues(d: EntityClass, cls: string, props: map<string, Value>): (r: Result<PhpArray<Value>>)
    ensures r.Ok? <==> ReadColumns(d, cls, props).Ok? && PrimaryKeyColumns(d).Ok?
    ensures ReadColumns(d, cls, props).Err? ==> r == Err(ReadColumns(d, cls, props).error)
    ensures ReadColumns(d, cls, props).Ok? && PrimaryKeyColumns(d).Err? ==> r == Err(PrimaryKeyColumns(d).error)
    ensures r.Ok? ==> forall c, v ::
      (c, v) in r.value <==> (c, v) in ColumnsWithValues(d, props) && c in Keys(PrimaryKeyColumns(d).value) && v != Null
    ensures r.Ok? ==> SubSeq(r.value, ColumnsWithValues(d, props))
  {
    var cols :- ReadColumns(d, cls, props);
    var pk :- PrimaryKeyColumns(d);
    Ok(PrimaryNonNull(cols, Keys(pk)))
  }

  // ---------------------------------------------------------------------
  // setColumnWithValue
  // ---------------------------------------------------------------------

  /** The position of the first entity whose class is not `cls`, or the length. */
  function FirstForeign(es: seq<Entity>, cls: string): (r: nat)
    ensures r <= |es|
    ensures forall j :: 0 <= j < r ==> es[j].cls == cls
    ensures r < |es| ==> es[r].cls != cls
  {
    if es == [] then 0
    else if es[0].cls != cls then 0
    else 1 + FirstForeign(es[1..], cls)
  }

  /** The last position at which an entity occurs. */
  function LastIndex(es: seq<Entity>, e: Entity): (r: nat)
    requires e in es
    ensures r < |es| && es[r] == e
    ensures forall j :: r < j < |es| ==> es[j] != e
  {
    if es[|es| - 1] == e then |es| - 1 else LastIndex(es[..|es| - 1], e)
  }

  /** `$values[$index]`: a missing index reads as null. */
  function ValueAt(values: seq<Value>, i: nat): Value
  {
    if i < |values| then values[i] else Null
  }

  /** The props an entity has after the writes to positions before `k`: the last write wins. */
  ghost function WrittenProps(es: seq<Entity>, k: nat, e: Entity, before: map<string, Value>,
                              column: string, values: seq<Value>): map<string, Value>
    requires k <= |es|
  {
    if e in es[..k] then before[column := ValueAt(values, LastIndex(es[..k], e))] else before
  }

  lemma LastIndexExtend(es: seq<Entity>, x: Entity, e: Entity)
    requires e in es + [x]
    ensures LastIndex(es + [x], e) == if e == x then |es| else LastIndex(es, e)
  {
    if e != x {
      assert (es + [x])[..|es|] == es;
    }
  }

  /** One more write: the entity at position k gets its value, the others keep theirs. */
  lemma WrittenStep(es: seq<Entity>, k: nat, e: Entity, before: map<string, Value>, column: string, values: seq<Value>)
    requires k < |es|
    ensures WrittenProps(es, k + 1, e, before, column, values) ==
      if e == es[k] then before[column := ValueAt(values, k)] else WrittenProps(es, k, e, before, column, values)
  {
    assert es[..k + 1] == es[..k] + [es[k]];
    if e in es[..k + 1] {
      LastIndexExtend(es[..k], es[k], e);
    }
  }

  class EntityMeta {
    const decl: EntityClass
    const tableName: string

    constructor (decl: EntityClass)
      ensures this.decl == decl && tableName == TableName(decl.name)
    {
      this.decl := decl;
      this.tableName := TableName(decl.name);
    }

    /**
     * Writes `values[i]` into property `column` of `entities[i]`, in order.
     * Fails before writing anything when the class has no such property,
     * and stops at the first entity of another class, keeping the writes
     * already made.
     */
    method SetColumnWithValue(column: string, entities: seq<Entity>, values: seq<Value>) returns (r: Outcome)
      modifies entities
      ensures !Declares(decl, column) ==> r == Fail(NoSuchProperty(decl.name, column))
      ensures !Declares(decl, column) ==> forall e :: e in entities ==> e.props == old(e.props)
      ensures Declares(decl, column) ==>
        var k := FirstForeign(entities, decl.name);
        && r == (if k < |entities| then Fail(NotInstanceOf(entities[k].cls, decl.name, column)) else Pass)
        && forall e :: e in entities ==> e.props == WrittenProps(entities, k, e, old(e.props), column, values)
    {
      if !Declares(decl, column) {
        return Fail(NoSuchProperty(decl.name, column));
      }
      r := WriteColumn(column, entities, values);
    }

    /** The writing loop of SetColumnWithValue, once the property is known to exist. */
    method WriteColumn(column: string, entities: seq<Entity>, values: seq<Value>) returns (r: Outcome)
      modifies entities
      ensures var k := FirstForeign(entities, decl.name);
        && r == (if k < |entities| then Fail(NotInstanceOf(entities[k].cls, decl.name, column)) else Pass)
        && forall e :: e in entities ==> e.props == WrittenProps(entities, k, e, old(e.props), column, values)
    {
      var i := 0;
      while i < |entities|
        invariant 0 <= i <= |entities|
        invariant forall j :: 0 <= j < i ==> entities[j].cls == decl.name
        invariant forall e :: e in entities ==> e.props == WrittenProps(entities, i, e, old(e.props), column, values)
      {
        var x := entities[i];
        if x.cls != decl.name {
          return Fail(NotInstanceOf(x.cls, decl.name, column));
        }
        x.props := x.props[column := ValueAt(values, i)];
        forall e | e in entities
          ensures e.props == WrittenProps(entities, i + 1, e, old(e.props), column, values)
        {
          WrittenStep(entities, i, e, old(e.props), column, values);
        }
        i := i + 1;
      }
      return Pass;
    }
  }
}
