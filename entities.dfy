/**
 * Entities and the shape of their classes. Reflection over a PHP class is
 * replaced by an explicit descriptor: its properties in declaration order
 * with their static flag, and what (if anything) it declares as
 * `primary_definition`.
 */
module Entities {
  import opened Wrappers
  import opened PhpArrays
  import opened Values

  datatype FieldDecl = FieldDecl(name: string, isStatic: bool)

  /** The value held by `primary_definition`: a column => auto-increment map, or something else. */
  datatype PrimaryValue = ArrayValue(definition: PhpArray<bool>) | OtherValue(typeName: string)

  datatype PrimaryDecl = Undeclared | Declared(isStatic: bool, value: PrimaryValue)

  datatype ClassDecl = ClassDecl(name: string, fields: seq<FieldDecl>, primary: PrimaryDecl)

  const PrimaryDefinition: string := "primary_definition"

  /** Whether the class declares a property of that name, and if so whether it is static. */
  function StaticFlag(fs: seq<FieldDecl>, name: string): (r: Option<bool>)
    ensures r.Some? <==> exists j :: 0 <= j < |fs| && fs[j].name == name
  {
    if fs == [] then None
    else if fs[0].name == name then Some(fs[0].isStatic)
    else assert forall j :: 0 < j < |fs| ==> fs[j] == fs[1..][j - 1]; StaticFlag(fs[1..], name)
  }

  /**
   * What PHP guarantees of a class: property names are unique, and
   * `primary_definition` is declared exactly when it is one of the
   * properties, with the same static flag.
   */
  predicate WellFormed(d: ClassDecl)
  {
    && (forall i, j :: 0 <= i < j < |d.fields| ==> d.fields[i].name != d.fields[j].name)
    && StaticFlag(d.fields, PrimaryDefinition) ==
       match d.primary
       case Undeclared => None
       case Declared(isStatic, _) => Some(isStatic)
  }

  type EntityClass = d: ClassDecl | WellFormed(d) witness ClassDecl("", [], Undeclared)

  predicate Declares(d: ClassDecl, property: string)
  {
    StaticFlag(d.fields, property).Some?
  }

  /**
   * An entity instance: its class (`get_class`) and its instance
   * properties. Object identity stands for `spl_object_id`.
   */
  class Entity {
    const cls: string
    var props: map<string, Value>

    constructor (cls: string, props: map<string, Value>)
      ensures this.cls == cls && this.props == props
    {
      this.cls := cls;
      this.props := props;
    }
  }

  /** An instance property's value; a property never assigned is null. */
  function Prop(props: map<string, Value>, name: string): Value
  {
    if name in props then props[name] else Null
  }
}
