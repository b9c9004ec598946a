/**
 * The values a caller hands to the loader. In the .NET source these are
 * plain `object` references; here they are either null or an object whose
 * runtime type is an opaque tag.
 */
module Values {

  /** A .NET `System.Type`, kept opaque: only equality between tags matters. */
  type ClrType = nat

  /** An `OracleDbType` provider tag, passed through to the bind parameters. */
  type ProviderTag = nat

  /** A .NET object reference: null, or an object of some runtime type. */
  datatype Value = Null | Obj(runtimeType: ClrType, payload: int)
}
