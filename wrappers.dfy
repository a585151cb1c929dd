/** Option, Result and the error kinds the persistence core raises. */
module Wrappers {

  datatype Option<+T> = None | Some(value: T)

  /** The exceptions of the PHP code, one constructor per distinct failure. */
  datatype Error =
    // SnakeMetaException: `primary_definition` is declared but not static
    | PrimaryNotStatic(cls: string)
    // SnakeMetaException: `primary_definition` is static but not an array
    | PrimaryNotArray(cls: string, typeName: string)
    // SnakeMetaException: an entity of another class given to setColumnWithValue
    | NotInstanceOf(given: string, expected: string, column: string)
    // ReflectionException: the class declares no property of that name
    | NoSuchProperty(cls: string, property: string)
    // ReflectionException: a property is read off an object of another class
    | WrongObject(given: string, expected: string)
    // SnakeException from find: a primary column is missing or null
    | MissingPrimaryKey(cls: string, column: string)
    // SnakeException from find: the id names columns that are not primary
    | UnknownPrimaryKeys(cls: string, columns: seq<string>)
    // SnakeException from persist
    | DetachedPersist
    // PDOException: the statement names a table the database lacks
    | NoSuchTable(table: string)
    // PDOException: the statement names a column the table lacks
    | UnknownColumn(table: string, column: string)
    // PDOException: the number of bound parameters differs from the placeholders
    | ParameterCount(placeholders: nat, bound: nat)

  datatype Result<+T> = Ok(value: T) | Err(error: Error) {
    predicate IsFailure() { Err? }

    function PropagateFailure<U>(): Result<U>
      requires Err?
    {
      Err(error)
    }

    function Extract(): T
      requires Ok?
    {
      value
    }
  }

  /** A result without a value, for operations the PHP code declares `void`. */
  datatype Outcome = Pass | Fail(error: Error) {
    predicate IsFailure() { Fail? }

    function PropagateFailure(): Outcome
      requires Fail?
    {
      this
    }
  }
}
