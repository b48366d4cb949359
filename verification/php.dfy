/**
 * The slice of PHP's value model the sitemap classes rely on: scalars, ordered
 * arrays with integer or string keys, `empty()`, string conversion and loose
 * comparison against numbers.
 */
module Php {

  /** An array key: PHP arrays are keyed by strings or by integers. */
  datatype Key = Name(name: string) | Idx(index: int)

  /** A PHP value. Floats are exact reals here; rounding is not modelled. */
  datatype Value =
    | Null
    | Bool(b: bool)
    | Int(i: int)
    | Float(r: real)
    | Str(s: string)
    | Arr(fields: seq<(Key, Value)>)

  /** The ordered key/value pairs of a PHP array. */
  type Fields = seq<(Key, Value)>

  /**
   * The parts of the PHP runtime that the model takes as given: type juggling
   * of strings and floats, the global function table, foreign objects, and the
   * built-in callbacks whose behaviour is left out (URL and date checks, date
   * formatting, the remote thumbnail check and the defective validators).
   */
  datatype Runtime = Runtime(
    floatToString: real -> string,
    stringToNumber: string -> real,
    stringToInt: string -> int,
    functionExists: string -> bool,
    callFunction: (string, seq<Value>) -> Value,
    methodExists: (string, string) -> bool,
    callMethod: (string, string, seq<Value>) -> Value,
    builtin: (string, seq<Value>) -> Value)

  predicate IsScalar(v: Value) {
    !v.Arr?
  }

  /** PHP's `empty()`: "", "0", 0, 0.0, FALSE, NULL and the empty array. */
  predicate Empty(v: Value) {
    match v
    case Null => true
    case Bool(b) => !b
    case Int(i) => i == 0
    case Float(r) => r == 0.0
    case Str(s) => EmptyString(s)
    case Arr(fs) => |fs| == 0
  }

  /** `empty()` applied to a string. */
  predicate EmptyString(s: string) {
    s == "" || s == "0"
  }

  /** A value that converts to TRUE. */
  predicate Truthy(v: Value) {
    !Empty(v)
  }

  /** The fields of an array; a scalar has none (isset and foreach find nothing). */
  function FieldsOf(v: Value): Fields {
    if v.Arr? then v.fields else []
  }

  /** The number of nodes of a value: the termination measure of every tree walk. */
  function Size(v: Value): nat {
    if v.Arr? then 1 + SizeFrom(v, 0) else 1
  }

  function SizeFrom(v: Value, i: nat): nat
    requires v.Arr? && i <= |v.fields|
    decreases v, |v.fields| - i
  {
    if i == |v.fields| then 0 else Size(v.fields[i].1) + SizeFrom(v, i + 1)
  }

  /** The summed size of the values of a field sequence. */
  function Total(fs: Fields): nat {
    if |fs| == 0 then 0 else Size(fs[0].1) + Total(fs[1..])
  }

  lemma {:induction false} SizeFromTotal(fs: Fields, i: nat)
    requires i <= |fs|
    ensures SizeFrom(Arr(fs), i) == Total(fs[i..])
    decreases |fs| - i
  {
    if i < |fs| {
      SizeFromTotal(fs, i + 1);
      assert fs[i..][1..] == fs[i + 1..];
    }
  }

  lemma SizeOfArr(fs: Fields)
    ensures Size(Arr(fs)) == 1 + Total(fs)
  {
    SizeFromTotal(fs, 0);
    assert fs[0..] == fs;
  }

  lemma {:induction false} TotalAppend(a: Fields, b: Fields)
    ensures Total(a + b) == Total(a) + Total(b)
  {
    if |a| > 0 {
      TotalAppend(a[1..], b);
      assert (a + b)[1..] == a[1..] + b;
    } else {
      assert a + b == b;
    }
  }

  /** ASCII lower-casing, as PHP applies to method names. */
  function Lower(s: string): (r: string)
    ensures |r| == |s|
    ensures forall i :: 0 <= i < |s| ==> r[i] == LowerChar(s[i])
  {
    if |s| == 0 then [] else [LowerChar(s[0])] + Lower(s[1..])
  }

  function LowerChar(c: char): char {
    if 'A' <= c <= 'Z' then (c as int + 32) as char else c
  }

  /** A name without capitals is its own lower-cased form. */
  lemma LowerFixed(s: string)
    requires forall i :: 0 <= i < |s| ==> !('A' <= s[i] <= 'Z')
    ensures Lower(s) == s
  {
  }

  lemma {:induction false} LowerAppend(x: string, y: string)
    ensures Lower(x + y) == Lower(x) + Lower(y)
  {
    if |x| == 0 {
      assert x + y == y;
    } else {
      assert (x + y)[1..] == x[1..] + y;
      LowerAppend(x[1..], y);
    }
  }

  /** A name with one capital lower-cases to the same name with that letter lowered. */
  lemma LowerOneCapital(a: string, c: char, b: string)
    requires forall i :: 0 <= i < |a| ==> !('A' <= a[i] <= 'Z')
    requires forall i :: 0 <= i < |b| ==> !('A' <= b[i] <= 'Z')
    ensures Lower(a + [c] + b) == a + [LowerChar(c)] + b
  {
    assert Lower([c]) == [LowerChar(c)] by {
      assert [c][1..] == [];
    }
    assert Lower(a + [c]) == a + [LowerChar(c)] by {
      LowerAppend(a, [c]);
      LowerFixed(a);
    }
    assert Lower(b) == b by {
      LowerFixed(b);
    }
    LowerAppend(a + [c], b);
  }

  predicate StartsWith(s: string, prefix: string) {
    |prefix| <= |s| && s[..|prefix|] == prefix
  }

  predicate EndsWith(s: string, suffix: string) {
    |suffix| <= |s| && s[|s| - |suffix|..] == suffix
  }

  /** PHP's implode(): the parts joined by the separator. */
  function Join(sep: string, parts: seq<string>): (r: string)
    ensures |parts| > 0 ==> StartsWith(r, parts[0]) && EndsWith(r, parts[|parts| - 1])
    ensures |parts| == 1 ==> r == parts[0]
    ensures |parts| > 1 ==> StartsWith(r, parts[0] + sep)
  {
    if |parts| == 0 then ""
    else if |parts| == 1 then parts[0]
    else parts[0] + sep + Join(sep, parts[1..])
  }

  function DigitChar(d: nat): char
    requires d < 10
  {
    "0123456789"[d]
  }

  /** The decimal digits of a natural number, most significant first. */
  function Digits(n: nat): (r: string)
    ensures |r| >= 1
    decreases n
  {
    if n < 10 then [DigitChar(n)] else Digits(n / 10) + [DigitChar(n % 10)]
  }

  /** The string PHP makes of an integer. */
  function IntToString(i: int): string {
    if i < 0 then "-" + Digits(-i) else Digits(i)
  }

  /** The string PHP makes of a value (string conversion of a scalar). */
  function ToStr(v: Value, rt: Runtime): string {
    match v
    case Null => ""
    case Bool(b) => if b then "1" else ""
    case Int(i) => IntToString(i)
    case Float(r) => rt.floatToString(r)
    case Str(s) => s
    case Arr(_) => "Array"
  }

  /** PHP's intval(); floats are truncated toward zero. */
  function IntVal(v: Value, rt: Runtime): int {
    match v
    case Null => 0
    case Bool(b) => if b then 1 else 0
    case Int(i) => i
    case Float(r) => if r >= 0.0 then r.Floor else -((-r).Floor)
    case Str(s) => rt.stringToInt(s)
    case Arr(fs) => if |fs| == 0 then 0 else 1
  }

  function Sign(x: real): int {
    if x < 0.0 then -1 else if x > 0.0 then 1 else 0
  }

  function BoolCompare(a: bool, b: bool): int {
    if a == b then 0 else if a then 1 else -1
  }

  /**
   * PHP's loose comparison of a value with a number (-1, 0 or 1): NULL and
   * booleans compare as booleans, strings are converted to numbers, an array
   * is greater than any number.
   */
  function CompareWithNumber(v: Value, x: real, rt: Runtime): (c: int)
    ensures -1 <= c <= 1
    ensures v.Int? ==> (c <= 0 <==> v.i as real <= x) && (c >= 0 <==> v.i as real >= x)
    ensures v.Float? ==> (c <= 0 <==> v.r <= x) && (c >= 0 <==> v.r >= x)
    ensures v.Arr? ==> c == 1
  {
    match v
    case Null => BoolCompare(false, x != 0.0)
    case Bool(b) => BoolCompare(b, x != 0.0)
    case Int(i) => Sign(i as real - x)
    case Float(r) => Sign(r - x)
    case Str(s) => Sign(rt.stringToNumber(s) - x)
    case Arr(_) => 1
  }
}
