/** The exceptions the loader raises, reduced to the data they carry. */
module Exceptions {
  import opened Values

  datatype LoaderError =
    /** `TableNameNotSetException`: Open was called without a table name. */
    | TableNameNotSet
    /** `ColumnNotFoundException`: SetValue named a column the schema lacks. */
    | ColumnNotFound(columnName: string)
    /** `NullValueNotAllowedException`: required columns without a value. */
    | NullValueNotAllowed(columnNames: seq<string>)
    /** `TypeIncompatibleException`: the value does not convert to the column type. */
    | TypeIncompatible(expectedType: ClrType, givenType: ClrType)
    /** `NullReferenceException`: a member was read through a null reference. */
    | NullReference
    /** `InvalidOperationException` from `Last()` on an empty record list. */
    | NoElements
    /** `ArgumentException` from `Dictionary.Add` on a key already present. */
    | DuplicateKey(key: string)
    /** Whatever the driver's `ExecuteNonQuery` threw, propagated unchanged. */
    | ExecutionFailed
}
