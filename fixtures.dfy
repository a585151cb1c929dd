/**
 * The entity classes of the test fixtures (tests/Fixtures), as descriptors,
 * and what the metadata functions give for them.
 */
module Fixtures {
  import opened Wrappers
  import opened PhpArrays
  import opened Values
  import opened Entities
  import opened Meta

  const FooClassName: string := "Kekos\\PhpSnake\\Tests\\Fixtures\\FooEntity"
  const BarClassName: string := "Kekos\\PhpSnake\\Tests\\Fixtures\\BarEntity"
  const FaultyClassName: string := "Kekos\\PhpSnake\\Tests\\Fixtures\\FaultyEntity"
  const FaultyArrayClassName: string := "Kekos\\PhpSnake\\Tests\\Fixtures\\FaultyArrayEntity"

  /** FooEntity: four instance properties and the static `$decoy`; no key declared. */
  const FooEntity: EntityClass :=
    var fs := [FieldDecl("id", false), FieldDecl("name", false), FieldDecl("bar", false),
               FieldDecl("created_time", false), FieldDecl("decoy", true)];
    assert fs[1..][1..] == fs[2..] && fs[2..][1..] == fs[3..] && fs[3..][1..] == fs[4..] && fs[4..][1..] == [];
    assert StaticFlag(fs[4..], PrimaryDefinition) == None;
    assert StaticFlag(fs[3..], PrimaryDefinition) == None;
    assert StaticFlag(fs[2..], PrimaryDefinition) == None;
    assert StaticFlag(fs[1..], PrimaryDefinition) == None;
    ClassDecl(FooClassName, fs, Undeclared)

  /** BarEntity: a composite key of two columns, neither auto-incremented. */
  const BarEntity: EntityClass :=
    var fs := [FieldDecl("bar_id", false), FieldDecl("baz_id", false), FieldDecl("info", false),
               FieldDecl(PrimaryDefinition, true)];
    assert fs[2..][1..] == fs[3..] && fs[1..][1..] == fs[2..];
    assert StaticFlag(fs[3..], PrimaryDefinition) == Some(true);
    assert StaticFlag(fs[2..], PrimaryDefinition) == Some(true);
    assert StaticFlag(fs[1..], PrimaryDefinition) == Some(true);
    ClassDecl(BarClassName, fs, Declared(true, ArrayValue([("bar_id", false), ("baz_id", false)])))

  /**
   * A class whose `primary_definition` is an instance property. The test
   * fixture's own file is not part of this model; its fields here are
   * chosen to give the error its test expects.
   */
  const FaultyEntity: EntityClass :=
    var fs := [FieldDecl("id", false), FieldDecl(PrimaryDefinition, false)];
    assert StaticFlag(fs[1..], PrimaryDefinition) == Some(false);
    ClassDecl(FaultyClassName, fs, Declared(false, ArrayValue([("id", true)])))

  /**
   * A class whose static `primary_definition` holds a string. As above,
   * the fixture's file is not part of this model and its fields are chosen.
   */
  const FaultyArrayEntity: EntityClass :=
    var fs := [FieldDecl("id", false), FieldDecl(PrimaryDefinition, true)];
    assert StaticFlag(fs[1..], PrimaryDefinition) == Some(true);
    ClassDecl(FaultyArrayClassName, fs, Declared(true, OtherValue("string")))

  lemma FooSimpleName()
    ensures SimpleName(FooClassName) == "FooEntity"
  {
    assert FooClassName[29] == '\\';
    assert forall j :: 29 < j < |FooClassName| ==> FooClassName[j] != '\\';
    assert FooClassName[30..] == "FooEntity";
  }

  /** SnakeTail one character at a time. */
  lemma TailCons(c: char, t: string)
    ensures SnakeTail([c] + t) == (if IsUpper(c) then ['_', Lower(c)] else [c]) + SnakeTail(t)
  {
    assert ([c] + t)[1..] == t;
  }

  lemma EntityTail()
    ensures SnakeTail("Entity") == "_entity"
  {
    TailCons('y', "");
    TailCons('t', "y");
    TailCons('i', "ty");
    TailCons('t', "ity");
    TailCons('n', "tity");
    TailCons('E', "ntity");
  }

  lemma FooEntitySnakeCase()
    ensures SnakeCase("FooEntity") == "foo_entity"
    ensures SnakeCase("ooEntity") == "oo_entity"
  {
    EntityTail();
    TailCons('o', "Entity");
    TailCons('o', "oEntity");
    assert "ooEntity"[1..] == "oEntity";
    assert "FooEntity"[1..] == "ooEntity";
  }

  lemma FooTableName()
    ensures TableName(FooClassName) == "foo_entity"
  {
    FooSimpleName();
    FooEntitySnakeCase();
    TableNameIsSnakeCase(FooClassName);
  }

  /** Without a namespace the first character is lost. */
  lemma UnqualifiedNameLosesFirstCharacter()
    ensures TableName("FooEntity") == "oo_entity"
  {
    assert forall j :: 0 <= j < |"FooEntity"| ==> "FooEntity"[j] != '\\';
    assert SimpleName("FooEntity") == "ooEntity";
    FooEntitySnakeCase();
    TableNameIsSnakeCase("FooEntity");
  }

  lemma AcronymSimpleName()
    ensures SimpleName("App\\HTTPBar") == "HTTPBar"
  {
    assert "App\\HTTPBar"[3] == '\\';
    assert forall j :: 3 < j < |"App\\HTTPBar"| ==> "App\\HTTPBar"[j] != '\\';
    assert "App\\HTTPBar"[4..] == "HTTPBar";
  }

  lemma AcronymSnakeCase()
    ensures SnakeCase("HTTPBar") == "h_t_t_p_bar"
  {
    TailCons('r', "");
    TailCons('a', "r");
    TailCons('B', "ar");
    TailCons('P', "Bar");
    TailCons('T', "PBar");
    TailCons('T', "TPBar");
    assert "HTTPBar"[1..] == "TTPBar";
  }

  /** Acronyms are not special-cased. */
  lemma AcronymTableName()
    ensures TableName("App\\HTTPBar") == "h_t_t_p_bar"
  {
    AcronymSimpleName();
    AcronymSnakeCase();
    TableNameIsSnakeCase("App\\HTTPBar");
  }

  lemma FooColumns()
    ensures DefaultColumns(FooEntity) == ["id", "name", "bar", "created_time"]
    ensures ColumnsWithValues(FooEntity, map[]) ==
      [("id", Null), ("name", Null), ("bar", Null), ("created_time", Null)]
  {
  }

  lemma FixturePrimaryKeys()
    ensures PrimaryKeyColumns(FooEntity) == Ok([("id", true)])
    ensures PrimaryKeyColumns(BarEntity) == Ok([("bar_id", false), ("baz_id", false)])
    ensures PrimaryKeyColumns(FaultyEntity).Err? && PrimaryKeyColumns(FaultyEntity).error.PrimaryNotStatic?
    ensures PrimaryKeyColumns(FaultyArrayEntity).Err? && PrimaryKeyColumns(FaultyArrayEntity).error.PrimaryNotArray?
    ensures HasAutoIncrementPrimary(FooEntity) == Ok(true)
    ensures HasAutoIncrementPrimary(BarEntity) == Ok(false)
  {
  }
}
