/** JavaScript values, as far as the inventory store and its components inspect them. */
module JsValues {

  datatype Option<+T> = None | Some(value: T)

  datatype Result<+T, +E> = Ok(value: T) | Err(error: E)

  /** What a JavaScript expression that throws leaves behind. */
  datatype JsError = TypeError(message: string)

  /**
   * A JavaScript value. Numbers are integers (the store only holds counts,
   * page numbers and millisecond timestamps) or `NaN`; arrays and objects are
   * compared by content, where JavaScript compares them by reference.
   */
  datatype Val =
    | Undefined
    | Null
    | Bool(b: bool)
    | Num(n: int)
    | NaN
    | Str(s: string)
    | Arr(elems: seq<Val>)
    | Obj(props: map<string, Val>)

  /** A plain object: property name to value. A missing property reads as `undefined`. */
  type Record = map<string, Val>

  /** JavaScript truthiness (`Boolean(v)`). */
  predicate Truthy(v: Val) {
    match v
    case Undefined => false
    case Null => false
    case Bool(b) => b
    case Num(n) => n != 0
    case NaN => false
    case Str(s) => s != ""
    case Arr(_) => true
    case Obj(_) => true
  }

  /** `a || b` */
  function Or(a: Val, b: Val): (r: Val)
    ensures Truthy(a) ==> r == a
    ensures !Truthy(a) ==> r == b
  {
    if Truthy(a) then a else b
  }

  /** `a && b` */
  function And(a: Val, b: Val): (r: Val)
    ensures Truthy(r) <==> Truthy(a) && Truthy(b)
    ensures !Truthy(a) ==> r == a
  {
    if Truthy(a) then b else a
  }

  /**
   * `a === b`. Two objects or arrays are identical only when they are the
   * same object; values that arrive from different places (a parsed server
   * response and a caller's argument) never are, so such a comparison is false.
   */
  predicate StrictEq(a: Val, b: Val) {
    a == b && !a.Obj? && !a.Arr? && !a.NaN?
  }

  /** `v.key` (or `v?.key`) on any value: only objects have properties the store reads. */
  function Prop(v: Val, key: string): (r: Val)
    ensures !v.Obj? ==> r == Undefined
  {
    if v.Obj? then Get(v.props, key) else Undefined
  }

  /** Reading `r.key` (or `r?.key`) from an object. */
  function Get(r: Record, key: string): (v: Val)
    ensures key !in r ==> v == Undefined
    ensures key in r ==> v == r[key]
  {
    if key in r then r[key] else Undefined
  }

  /** `v?.length > 0` for a value that may be an array. */
  predicate NonEmptyArray(v: Val) {
    v.Arr? && |v.elems| > 0
  }

  // ---------------------------------------------------------------------------
  // Decimal rendering of counts, as template literals print them
  // ---------------------------------------------------------------------------

  predicate IsDigit(c: char) { '0' <= c <= '9' }

  function DigitChar(d: nat): (c: char)
    requires d < 10
    ensures IsDigit(c) && c as int - '0' as int == d
  {
    (d + '0' as int) as char
  }

  /** `${n}` for a natural number. */
  function NatToString(n: nat): (s: string)
    ensures |s| > 0
    ensures forall i :: 0 <= i < |s| ==> IsDigit(s[i])
    ensures n > 0 ==> s[0] != '0'
    decreases n
  {
    if n < 10 then [DigitChar(n)] else NatToString(n / 10) + [DigitChar(n % 10)]
  }

  /** The number a string of decimal digits denotes. */
  function ParseDecimal(s: string): nat
    requires forall i :: 0 <= i < |s| ==> IsDigit(s[i])
  {
    if s == [] then 0
    else
      var last := s[|s| - 1];
      assert IsDigit(last);
      ParseDecimal(s[..|s| - 1]) * 10 + (last as int - '0' as int)
  }

  /** The decimal rendering of a count can be read back: two different counts never print alike. */
  lemma {:induction false} ParseNatToString(n: nat)
    ensures ParseDecimal(NatToString(n)) == n
    decreases n
  {
    var s := NatToString(n);
    if n >= 10 {
      ParseNatToString(n / 10);
      assert s[..|s| - 1] == NatToString(n / 10);
    }
  }

  /** `${n}` for an integer. */
  function IntToString(n: int): (s: string)
    ensures n >= 0 ==> s == NatToString(n)
    ensures n < 0 ==> s == "-" + NatToString(-n)
  {
    if n < 0 then "-" + NatToString(-n) else NatToString(n)
  }

  /** `parts.join(',')` */
  function JoinComma(parts: seq<string>): string {
    if parts == [] then ""
    else if |parts| == 1 then parts[0]
    else JoinComma(parts[..|parts| - 1]) + "," + parts[|parts| - 1]
  }

  /** `${v}`: how a template literal prints a value. */
  function TemplateString(v: Val): string
    decreases v
  {
    match v
    case Undefined => "undefined"
    case Null => "null"
    case Bool(b) => if b then "true" else "false"
    case Num(n) => IntToString(n)
    case NaN => "NaN"
    case Str(s) => s
    case Arr(elems) =>
      JoinComma(seq(|elems|, i requires 0 <= i < |elems| =>
        if elems[i] == Undefined || elems[i] == Null then "" else TemplateString(elems[i])))
    case Obj(_) => "[object Object]"
  }

  // ---------------------------------------------------------------------------
  // Relational comparison and subtraction, with JavaScript's conversions
  // ---------------------------------------------------------------------------

  predicate AllDigits(s: string) {
    forall i :: 0 <= i < |s| ==> IsDigit(s[i])
  }

  /**
   * `Number(s)` for the integer texts: the empty text is 0, digits with an
   * optional sign denote their value, and any other text is `NaN` (`None`).
   */
  function StringToNumber(s: string): Option<int> {
    if s == "" then Some(0)
    else if AllDigits(s) then Some(ParseDecimal(s))
    else if |s| > 1 && s[0] == '-' && AllDigits(s[1..]) then Some(0 - ParseDecimal(s[1..]) as int)
    else if |s| > 1 && s[0] == '+' && AllDigits(s[1..]) then Some(ParseDecimal(s[1..]))
    else None
  }

  /** A printed integer reads back as that integer. */
  lemma StringToNumberOfInt(n: int)
    ensures StringToNumber(IntToString(n)) == Some(n)
  {
    if n >= 0 {
      ParseNatToString(n);
    } else {
      var d := NatToString(-n);
      ParseNatToString(-n);
      assert ("-" + d)[1..] == d;
    }
  }

  /** The primitive an operand of `<` or `-` becomes: arrays print as their joined elements, objects as `[object Object]`. */
  function ToPrimitive(v: Val): (r: Val)
    ensures !r.Arr? && !r.Obj?
  {
    match v
    case Arr(_) => Str(TemplateString(v))
    case Obj(_) => Str("[object Object]")
    case _ => v
  }

  /** `Number(v)`: `None` stands for `NaN`. */
  function ToNumber(v: Val): Option<int> {
    match ToPrimitive(v)
    case Null => Some(0)
    case Bool(b) => Some(if b then 1 else 0)
    case Num(n) => Some(n)
    case Str(s) => StringToNumber(s)
    case _ => None
  }

  /** `a < b` on two strings: code unit by code unit, and a proper prefix comes first. */
  predicate LexLess(a: string, b: string)
    decreases |a|
  {
    if b == [] then false
    else if a == [] then true
    else if a[0] != b[0] then a[0] < b[0]
    else LexLess(a[1..], b[1..])
  }

  /** The string order is a strict order: never both ways. */
  lemma {:induction false} LexLessAsymmetric(a: string, b: string)
    ensures !(LexLess(a, b) && LexLess(b, a))
    decreases |a|
  {
    if a != [] && b != [] && a[0] == b[0] {
      LexLessAsymmetric(a[1..], b[1..]);
    }
  }

  /** Both operands become strings, so `<` compares them as text. */
  predicate BothStrings(a: Val, b: Val) {
    ToPrimitive(a).Str? && ToPrimitive(b).Str?
  }

  /** `a < b`: two strings compare as text; otherwise both sides become numbers, and `NaN` makes it false. */
  predicate Less(a: Val, b: Val) {
    if BothStrings(a, b) then LexLess(ToPrimitive(a).s, ToPrimitive(b).s)
    else ToNumber(a).Some? && ToNumber(b).Some? && ToNumber(a).value < ToNumber(b).value
  }

  /** `<` is a strict order on every pair of values, and on numbers it is the integer order. */
  lemma LessAsymmetric(a: Val, b: Val)
    ensures !(Less(a, b) && Less(b, a))
    ensures a.Num? && b.Num? ==> (Less(a, b) <==> a.n < b.n)
  {
    if BothStrings(a, b) {
      LexLessAsymmetric(ToPrimitive(a).s, ToPrimitive(b).s);
    }
  }

  /** How `<` treats the operands that are not numbers. */
  lemma LessConversions(n: int, s: string)
    ensures Less(Null, Num(n)) <==> 0 < n
    ensures Less(Bool(true), Num(n)) <==> 1 < n
    ensures !Less(Undefined, Num(n)) && !Less(Num(n), Undefined)
    ensures !Less(NaN, Num(n)) && !Less(Num(n), NaN)
    ensures Less(Num(n), Str(IntToString(n + 1)))
    ensures Less(Str("10"), Str("9")) && !Less(Num(10), Num(9))
  {
    StringToNumberOfInt(n + 1);
    assert LexLess("10", "9");
  }

  /** `a - b`: both sides become numbers, and `NaN` when one does not. */
  function Minus(a: Val, b: Val): (r: Val)
    ensures r.NaN? <==> ToNumber(a).None? || ToNumber(b).None?
    ensures r.Num? ==> r.n == ToNumber(a).value - ToNumber(b).value
  {
    if ToNumber(a).Some? && ToNumber(b).Some? then Num(ToNumber(a).value - ToNumber(b).value) else NaN
  }

  // ---------------------------------------------------------------------------
  // Case conversion (ASCII letters; other characters are left alone)
  // ---------------------------------------------------------------------------

  function UpperChar(c: char): char {
    if 'a' <= c <= 'z' then (c as int - 32) as char else c
  }

  function LowerChar(c: char): char {
    if 'A' <= c <= 'Z' then (c as int + 32) as char else c
  }

  /** `s.toUpperCase()` */
  function ToUpper(s: string): (r: string)
    ensures |r| == |s|
    ensures forall i :: 0 <= i < |s| ==> r[i] == UpperChar(s[i])
  {
    seq(|s|, i requires 0 <= i < |s| => UpperChar(s[i]))
  }

  /** `s.toLowerCase()` */
  function ToLower(s: string): (r: string)
    ensures |r| == |s|
    ensures forall i :: 0 <= i < |s| ==> r[i] == LowerChar(s[i])
  {
    seq(|s|, i requires 0 <= i < |s| => LowerChar(s[i]))
  }

  /** Lower-casing an upper-cased string gives the lower-cased original. */
  lemma LowerOfUpper(s: string)
    ensures ToLower(ToUpper(s)) == ToLower(s)
  {
    forall i | 0 <= i < |s|
      ensures ToLower(ToUpper(s))[i] == ToLower(s)[i]
    {
      var c := s[i];
      assert LowerChar(UpperChar(c)) == LowerChar(c);
    }
  }
}
