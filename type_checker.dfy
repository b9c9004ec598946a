/**
 * The type check `TypeChecker.CanConvert`: a value passes when the runtime
 * conversion to the column's type neither throws nor yields null. The
 * runtime conversion itself is not visible and is taken as a parameter.
 */
module TypeChecker {
  import opened Values

  /** What `Convert.ChangeType(value, type)` does: throw, or return a value. */
  datatype Conversion = Throws | Returns(result: Value)

  /** The runtime's `Convert.ChangeType`. */
  type Converter = (Value, ClrType) -> Conversion

  /** The one fact used about the runtime: converting null throws or gives null. */
  ghost predicate NullStaysNull(changeType: Converter)
  {
    forall t: ClrType :: changeType(Null, t) == Throws || changeType(Null, t) == Returns(Null)
  }

  /**
   * The result starts as null and keeps that value when the conversion
   * throws; the check passes exactly when a non-null object came back.
   */
  function CanConvert(changeType: Converter, value: Value, targetType: ClrType): (ok: bool)
    ensures ok <==> changeType(value, targetType).Returns? && changeType(value, targetType).result.Obj?
  {
    var result := match changeType(value, targetType)
      case Throws => Null
      case Returns(r) => r;
    result != Null
  }

  /** A null value never passes the check, whatever the target type. */
  lemma NullNeverConverts(changeType: Converter, targetType: ClrType)
    requires NullStaysNull(changeType)
    ensures !CanConvert(changeType, Null, targetType)
  {
  }
}
