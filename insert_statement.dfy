/**
 * The array-bound insert a flush hands to the driver: the statement text
 * `insert into T (c1, c2, ...) values (:0, :1, ...)`, the array bind count,
 * and one positional parameter per column holding that column's value in
 * every row of the batch.
 */
module InsertStatement {
  import opened Values
  import opened Columns
  import opened LoaderRecord

  /** An `OracleParameter` in array-bind mode. */
  datatype Parameter = Parameter(providerType: ProviderTag, size: int, values: seq<Value>)

  /** The command text, `ArrayBindCount` and parameter list of one insert. */
  datatype Command = Command(text: string, arrayBindCount: int, parameters: seq<Parameter>)

  /** The decimal digit for `d`. */
  function Digit(d: nat): (c: char)
    requires d < 10
  {
    "0123456789"[d]
  }

  /** The decimal text of `n`, as `string.Format("{0}", n)` writes it. */
  function NatToString(n: nat): (s: string)
    ensures |s| >= 1
    ensures forall k :: 0 <= k < |s| ==> '0' <= s[k] <= '9'
    decreases n
  {
    if n < 10 then [Digit(n)] else NatToString(n / 10) + [Digit(n % 10)]
  }

  /** Only the numbers below ten are written with one digit. */
  lemma NatToStringOneDigit(n: nat)
    ensures |NatToString(n)| == 1 <==> n < 10
  {
  }

  /** The number a string of decimal digits denotes, read most significant digit first. */
  function DecimalValue(s: string): (v: nat)
    requires forall k :: 0 <= k < |s| ==> '0' <= s[k] <= '9'
  {
    if s == [] then 0 else 10 * DecimalValue(s[..|s| - 1]) + (s[|s| - 1] as int - '0' as int)
  }

  /**
   * The text denotes `n` in decimal, with no leading zero: it is the
   * `{0}` rendering of a non-negative number.
   */
  lemma {:induction false} NatToStringRoundTrip(n: nat)
    ensures DecimalValue(NatToString(n)) == n
    ensures |NatToString(n)| > 1 ==> NatToString(n)[0] != '0'
    decreases n
  {
    var s := NatToString(n);
    if n < 10 {
      assert s[..0] == [];
      assert "0123456789"[n] as int - '0' as int == n;
    } else {
      NatToStringRoundTrip(n / 10);
      NatToStringOneDigit(n / 10);
      assert s[..|s| - 1] == NatToString(n / 10);
      assert "0123456789"[n % 10] as int - '0' as int == n % 10;
      if |NatToString(n / 10)| == 1 {
        assert NatToString(n / 10) == [Digit(n / 10)];
        assert "0123456789"[n / 10] != '0';
      }
      assert s[0] == NatToString(n / 10)[0];
    }
  }

  /** Distinct numbers have distinct decimal texts. */
  lemma {:induction false} NatToStringInjective(n: nat, m: nat)
    requires NatToString(n) == NatToString(m)
    ensures n == m
    decreases n
  {
    NatToStringOneDigit(n);
    NatToStringOneDigit(m);
    if n < 10 || m < 10 {
      assert n < 10 && m < 10;
      assert "0123456789"[n] == NatToString(n)[0] == NatToString(m)[0] == "0123456789"[m];
    } else {
      var s, t := NatToString(n), NatToString(m);
      assert s == NatToString(n / 10) + [Digit(n % 10)];
      assert t == NatToString(m / 10) + [Digit(m % 10)];
      assert s[..|s| - 1] == NatToString(n / 10);
      assert t[..|t| - 1] == NatToString(m / 10);
      NatToStringInjective(n / 10, m / 10);
      assert Digit(n % 10) == s[|s| - 1] == t[|t| - 1] == Digit(m % 10);
      assert n % 10 == m % 10;
    }
  }

  /** The summed length of the parts. */
  function TotalLength(parts: seq<string>): (n: nat)
  {
    if parts == [] then 0 else |parts[0]| + TotalLength(parts[1..])
  }

  /**
   * `string.Join(sep, parts)`: the parts in order with one separator between
   * neighbours, so its length is the parts' lengths plus `|parts| - 1`
   * separators, and it starts with the first part.
   */
  function Join(sep: string, parts: seq<string>): (s: string)
    ensures |s| == TotalLength(parts) + (if parts == [] then 0 else (|parts| - 1) * |sep|)
    ensures parts != [] ==> s[..|parts[0]|] == parts[0]
  {
    if parts == [] then ""
    else if |parts| == 1 then parts[0]
    else parts[0] + sep + Join(sep, parts[1..])
  }

  /**
   * Joining a concatenation joins each part and puts one separator between
   * them: every part keeps its place and the order of the parts is kept.
   */
  lemma {:induction false} JoinAppend(sep: string, a: seq<string>, b: seq<string>)
    requires a != [] && b != []
    ensures Join(sep, a + b) == Join(sep, a) + sep + Join(sep, b)
    decreases |a|
  {
    if |a| == 1 {
      assert (a + b)[1..] == b;
    } else {
      assert (a + b)[1..] == a[1..] + b;
      JoinAppend(sep, a[1..], b);
    }
  }

  /** The positional parameter names `:0`, `:1`, ..., `:(n-1)`. */
  function Placeholders(n: nat): (ps: seq<string>)
    ensures |ps| == n
    ensures forall i :: 0 <= i < n ==> ps[i] == ":" + NatToString(i)
  {
    if n == 0 then [] else Placeholders(n - 1) + [":" + NatToString(n - 1)]
  }

  /** Every column gets its own parameter name: no two placeholders coincide. */
  lemma PlaceholdersDistinct(n: nat, i: nat, j: nat)
    requires i < j < n
    ensures Placeholders(n)[i] != Placeholders(n)[j]
  {
    var ps := Placeholders(n);
    if ps[i] == ps[j] {
      assert NatToString(i) == ps[i][1..] == ps[j][1..] == NatToString(j);
      NatToStringInjective(i, j);
    }
  }

  /**
   * The statement text: `insert into {0} ({1}) values ({2})`. It names the
   * table right after `insert into ` and closes the value list at its end.
   */
  function InsertText(table: string, columns: seq<ColumnInfo>): (s: string)
    ensures |s| > |"insert into " + table + " ("|
    ensures s[..|"insert into " + table + " ("|] == "insert into " + table + " ("
    ensures s[|s| - 1] == ')'
  {
    "insert into " + table + " (" + Join(", ", Names(columns)) + ") values ("
      + Join(", ", Placeholders(|columns|)) + ")"
  }

  /** One column's bound array: each row's value for `name`, null where it is unset. */
  function BindValues(rows: seq<Record>, name: string): (vs: seq<Value>)
    ensures |vs| == |rows|
    ensures forall j :: 0 <= j < |rows| ==> vs[j] == GetSafeValue(rows[j], name)
  {
    if rows == [] then [] else [GetSafeValue(rows[0], name)] + BindValues(rows[1..], name)
  }

  /** One parameter per column, in column order. */
  function Parameters(columns: seq<ColumnInfo>, rows: seq<Record>): (ps: seq<Parameter>)
    ensures |ps| == |columns|
    ensures forall i :: 0 <= i < |columns| ==>
      ps[i] == Parameter(columns[i].providerType, columns[i].size, BindValues(rows, columns[i].name))
  {
    if columns == [] then []
    else
      var c := columns[|columns| - 1];
      Parameters(columns[..|columns| - 1], rows) + [Parameter(c.providerType, c.size, BindValues(rows, c.name))]
  }

  /**
   * The insert issued for a batch: one row per element of `rows`, and the
   * value of parameter `i` at index `j` is row `j`'s value for column `i`.
   */
  function InsertCommand(table: string, columns: seq<ColumnInfo>, rows: seq<Record>): (cmd: Command)
    ensures cmd.text == InsertText(table, columns)
    ensures cmd.arrayBindCount == |rows|
    ensures |cmd.parameters| == |columns|
    ensures forall i :: 0 <= i < |columns| ==>
      cmd.parameters[i].providerType == columns[i].providerType && cmd.parameters[i].size == columns[i].size
    ensures forall i :: 0 <= i < |columns| ==> |cmd.parameters[i].values| == |rows|
    ensures forall i, j :: 0 <= i < |columns| && 0 <= j < |rows| ==>
      cmd.parameters[i].values[j] == GetSafeValue(rows[j], columns[i].name)
  {
    Command(InsertText(table, columns), |rows|, Parameters(columns, rows))
  }
}
