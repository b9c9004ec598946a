/**
 * `OracleLoaderRecord`: one buffered row, a dictionary from column name to
 * value. An absent key means the column was not set in this row.
 */
module LoaderRecord {
  import opened Values
  import opened Exceptions
  import opened Wrappers

  type Record = map<string, Value>

  /** The stored value for `key`, or null when the row does not hold `key`. */
  function GetSafeValue(r: Record, key: string): (v: Value)
    ensures key in r ==> v == r[key]
    ensures key !in r ==> v == Null
  {
    if key in r then r[key] else Null
  }

  /**
   * The inherited `Dictionary.Add`: it inserts a new key and refuses a key
   * that is already present instead of overwriting its value.
   */
  function Add(r: Record, key: string, value: Value): (res: Result<Record, LoaderError>)
    ensures res.Success? <==> key !in r
    ensures res.Failure? ==> res.error == DuplicateKey(key)
    ensures res.Success? ==> res.value.Keys == r.Keys + {key} && res.value[key] == value
    ensures res.Success? ==> forall k :: k in r ==> res.value[k] == r[k]
  {
    if key in r then Failure(DuplicateKey(key)) else Success(r[key := value])
  }

  /** True when no entry of the row holds null. */
  ghost predicate HoldsNoNull(r: Record)
  {
    Null !in r.Values
  }

  /**
   * A key that is absent and a key mapped to null look the same through
   * GetSafeValue: the lookup cannot tell "unset" from "set to null".
   */
  lemma AbsentAndNullLookAlike(r: Record, key: string)
    ensures GetSafeValue(r - {key}, key) == GetSafeValue(r[key := Null], key) == Null
  {
  }

  /** In a row that holds no null, GetSafeValue gives null exactly for unset keys. */
  lemma SafeValueNullIffUnset(r: Record, key: string)
    requires HoldsNoNull(r)
    ensures GetSafeValue(r, key) == Null <==> key !in r
  {
  }

  /** Adding a new key makes it readable and leaves every other lookup as it was. */
  lemma AddThenGet(r: Record, key: string, value: Value, other: string)
    requires key !in r
    ensures Add(r, key, value).Success?
    ensures GetSafeValue(Add(r, key, value).value, key) == value
    ensures other != key ==> GetSafeValue(Add(r, key, value).value, other) == GetSafeValue(r, other)
  {
  }
}
