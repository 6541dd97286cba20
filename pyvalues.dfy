/** The dynamic values the Python code stores in its dictionaries, and the exceptions it raises. */
module PyValues {

  /** Concatenation regroups freely; a hint the solver needs on long concatenations. */
  lemma AppendAssoc<T>(a: seq<T>, b: seq<T>, c: seq<T>)
    ensures (a + b) + c == a + (b + c)
  {
  }

  /** A JSON-compatible Python value (what `json.loads` produces, minus floats). */
  datatype Json =
    | JNull
    | JBool(b: bool)
    | JInt(i: int)
    | JStr(s: string)
    | JArr(items: seq<Json>)
    | JObj(fields: map<string, Json>)

  /** A Python `dict` with string keys, such as a label attribute map or a COCO record. */
  type Record = map<string, Json>

  /** The Python exceptions the modelled code can raise. */
  datatype Error =
    | ValueError(reason: string)
    | KeyError(key: string)
    | IndexError
    | TypeError(reason: string)
    | AssertionError

  function Max(a: int, b: int): int {
    if a < b then b else a
  }

  predicate IsDigit(c: char) {
    '0' <= c <= '9'
  }

  /** The value of a run of ASCII digits, as Python's `int` reads it (leading zeros allowed). */
  function DecimalValue(s: string): (n: nat)
    requires forall k :: 0 <= k < |s| ==> IsDigit(s[k])
  {
    if s == [] then 0
    else
      var last := s[|s| - 1];
      assert IsDigit(last);
      10 * DecimalValue(s[..|s| - 1]) + DigitValue(last)
  }

  function DigitValue(c: char): (d: nat)
    requires IsDigit(c)
    ensures d < 10
  {
    c as int - '0' as int
  }

  /** The decimal spelling of a natural number, without leading zeros. */
  function DecimalString(n: nat): (s: string)
    ensures |s| > 0 && forall k :: 0 <= k < |s| ==> IsDigit(s[k])
    ensures DecimalValue(s) == n
  {
    if n < 10 then [('0' as int + n) as char]
    else
      var init := DecimalString(n / 10);
      var s := init + [('0' as int + n % 10) as char];
      assert s[..|s| - 1] == init;
      s
  }
}
