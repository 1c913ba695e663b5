/**
 * The few PHP value semantics the library relies on: the string cast
 * (`(string)$v`, `sprintf('%s', $v)`), loose comparison `==` against a
 * word literal (as `switch` does), truthiness of strings, and ASCII case
 * folding (`strtolower`, `stripos`, the PCRE `i` flag on ASCII text).
 *
 * The library declares a class named `Object`, which PHP reserves from 7.2
 * on, so the semantics are those of PHP 5.3 to 7.1.
 */
module PhpValues {
  import opened Outcomes

  /** A PHP value as produced by `json_decode` or passed by a caller. Floats are not modelled. */
  datatype Value =
    | Null
    | Bool(b: bool)
    | Int(i: int)
    | Str(s: string)
    | Arr(items: seq<Value>)
    | Obj(fields: map<string, Value>)   // a stdClass object with its properties

  /** A PHP array key: PHP keeps integer and string keys apart. */
  datatype Key = IntKey(n: int) | StrKey(s: string)

  // ---------------------------------------------------------------- decimals

  function DigitChar(d: nat): (c: char)
    requires d < 10
    ensures '0' <= c <= '9'
  {
    "0123456789"[d]
  }

  function DigitValue(c: char): (d: nat)
    requires '0' <= c <= '9'
    ensures d < 10
  {
    (c as int) - ('0' as int)
  }

  /** Decimal digits of `n`, most significant first, as PHP prints an integer. */
  function NatToDecimal(n: nat): (r: string)
    ensures |r| > 0
    ensures forall k :: 0 <= k < |r| ==> '0' <= r[k] <= '9'
    decreases n
  {
    if n < 10 then [DigitChar(n)] else NatToDecimal(n / 10) + [DigitChar(n % 10)]
  }

  function IntToDecimal(i: int): (r: string)
    ensures |r| > 0
  {
    if i < 0 then "-" + NatToDecimal(-i) else NatToDecimal(i)
  }

  /** Reads back a run of decimal digits; the partner of `NatToDecimal`. */
  function ParseDigits(s: string): (n: nat)
    requires forall k :: 0 <= k < |s| ==> '0' <= s[k] <= '9'
    decreases |s|
  {
    if |s| == 0 then 0 else 10 * ParseDigits(s[..|s| - 1]) + DigitValue(s[|s| - 1])
  }

  lemma {:induction false} DecimalRoundTrip(n: nat)
    ensures ParseDigits(NatToDecimal(n)) == n
    decreases n
  {
    if n >= 10 {
      DecimalRoundTrip(n / 10);
      var r := NatToDecimal(n);
      assert r[..|r| - 1] == NatToDecimal(n / 10);
    }
  }

  // ----------------------------------------------------------- string cast

  const StdClassConversionMessage := "Object of class stdClass could not be converted to string"

  /** `(string)$v`; a stdClass object has no `__toString` and cannot be cast. */
  function ToStr(v: Value): (r: Result<string>)
    ensures r.Err? <==> v.Obj?
    ensures v.Str? ==> r == Ok(v.s)
    ensures v.Null? || v == Bool(false) ==> r == Ok("")
  {
    match v
    case Null => Ok("")
    case Bool(b) => Ok(if b then "1" else "")
    case Int(i) => Ok(IntToDecimal(i))
    case Str(s) => Ok(s)
    case Arr(_) => Ok("Array")
    case Obj(_) => Err(ConversionError(StdClassConversionMessage))
  }

  function KeyToStr(k: Key): string
  {
    match k
    case IntKey(n) => IntToDecimal(n)
    case StrKey(s) => s
  }

  /** A string literal that starts with an ASCII letter: PHP never reads it as a number. */
  predicate IsWord(lit: string)
  {
    |lit| > 0 && (('a' <= lit[0] <= 'z') || ('A' <= lit[0] <= 'Z'))
  }

  /**
   * `$v == 'lit'` for a word literal, as `switch` compares. An integer is
   * compared with the literal read as a number, which is 0; a boolean with
   * the literal's truthiness, which is true.
   */
  predicate LooseEqualsWord(v: Value, lit: string)
    requires IsWord(lit)
  {
    match v
    case Null => false
    case Bool(b) => b
    case Int(i) => i == 0
    case Str(s) => s == lit
    case Arr(_) => false
    case Obj(_) => false
  }

  predicate KeyLooseEqualsWord(k: Key, lit: string)
    requires IsWord(lit)
  {
    match k
    case IntKey(n) => n == 0
    case StrKey(s) => s == lit
  }

  /** Truthiness of a string: only "" and "0" are false. */
  predicate TruthyString(s: string)
  {
    s != "" && s != "0"
  }

  // ------------------------------------------------------------ ASCII case

  function Lower(c: char): (d: char)
    ensures 'A' <= c <= 'Z' ==> d as int == c as int + 32
    ensures !('A' <= c <= 'Z') ==> d == c
  {
    if 'A' <= c <= 'Z' then (c as int + 32) as char else c
  }

  predicate CharEqualsIgnoreCase(a: char, b: char)
  {
    Lower(a) == Lower(b)
  }

  predicate EqualsIgnoreCase(a: string, b: string)
  {
    |a| == |b| && forall k :: 0 <= k < |a| ==> CharEqualsIgnoreCase(a[k], b[k])
  }

  /** `0 === stripos($s, $prefix)`. */
  predicate StartsWithIgnoreCase(s: string, prefix: string)
  {
    |prefix| <= |s| && EqualsIgnoreCase(s[..|prefix|], prefix)
  }

  lemma StartsWithIgnoreCaseExtends(s: string, t: string, prefix: string)
    requires StartsWithIgnoreCase(s, prefix)
    ensures StartsWithIgnoreCase(s + t, prefix)
  {
    assert (s + t)[..|prefix|] == s[..|prefix|];
  }
}
