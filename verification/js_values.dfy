/** The few JavaScript conversions the SQL lowering relies on, written out
    for the value sum type: `String(v)`, `Array.prototype.join`, whether
    `Number(v)` is not NaN, and truthiness. */
module JsValues {
  import opened Types

  /** The characters of the `\s` class and of `String.prototype.trim`:
      white space and line terminators. */
  predicate IsJsWhitespace(ch: char) {
    ch == ' ' || ch == '\t' || ch == '\n' || ch == '\r' || ch == '\U{000B}' || ch == '\U{000C}'
    || ch == '\U{00A0}' || ch == '\U{1680}' || ('\U{2000}' <= ch <= '\U{200A}')
    || ch == '\U{2028}' || ch == '\U{2029}' || ch == '\U{202F}' || ch == '\U{205F}'
    || ch == '\U{3000}' || ch == '\U{FEFF}'
  }

  /** `parts.join(sep)`. */
  function Join(parts: seq<string>, sep: string): (r: string)
    ensures |parts| > 0 ==> |r| >= |parts[|parts| - 1]|
    decreases |parts|
  {
    if |parts| == 0 then ""
    else if |parts| == 1 then parts[0]
    else Join(parts[..|parts| - 1], sep) + sep + parts[|parts| - 1]
  }

  lemma JoinAppend(parts: seq<string>, p: string, sep: string)
    ensures Join(parts + [p], sep) == if parts == [] then p else Join(parts, sep) + sep + p
  {
    assert (parts + [p])[..|parts|] == parts;
  }

  /** `String(v)`; inside an array, null and undefined print as nothing. */
  function JsText(v: JsValue): (r: string)
    ensures v.Arr? && v.items == [] ==> r == ""
    ensures v.Arr? && |v.items| == 1 ==>
              r == (if v.items[0].Null? || v.items[0].Undefined? then "" else JsText(v.items[0]))
    decreases v
  {
    match v
    case Null => "null"
    case Undefined => "undefined"
    case Str(s) => s
    case Num(text) => text
    case Bool(b) => if b then "true" else "false"
    case Arr(items) => Join(ElementTexts(items), ",")
  }

  function ElementTexts(items: seq<JsValue>): (r: seq<string>)
    ensures |r| == |items|
    decreases items
  {
    if items == [] then []
    else [if items[0].Null? || items[0].Undefined? then "" else JsText(items[0])] + ElementTexts(items[1..])
  }

  function TrimStart(s: string): (r: string)
    ensures |r| <= |s| && r == s[|s| - |r|..]
    ensures r == [] || !IsJsWhitespace(r[0])
  {
    if s != [] && IsJsWhitespace(s[0]) then TrimStart(s[1..]) else s
  }

  function TrimEnd(s: string): (r: string)
    ensures |r| <= |s| && r == s[..|r|]
    ensures r == [] || !IsJsWhitespace(r[|r| - 1])
  {
    if s != [] && IsJsWhitespace(s[|s| - 1]) then TrimEnd(s[..|s| - 1]) else s
  }

  predicate IsDigit(ch: char) { '0' <= ch <= '9' }

  predicate AllDigits(s: string) { |s| > 0 && forall i :: 0 <= i < |s| ==> IsDigit(s[i]) }

  predicate AllIn(s: string, alphabet: string) { |s| > 0 && forall i :: 0 <= i < |s| ==> s[i] in alphabet }

  /** The digits of a decimal mantissa: at least one digit, at most one point. */
  predicate IsMantissa(m: string) {
    exists k :: 0 <= k <= |m| && MantissaSplit(m, k)
  }

  /** `m` is digits, then (unless `k == |m|`) a point at `k` and more digits. */
  predicate MantissaSplit(m: string, k: int) {
    0 <= k <= |m| && (k == |m| || m[k] == '.')
    && (forall i :: 0 <= i < k ==> IsDigit(m[i]))
    && (forall i :: k < i < |m| ==> IsDigit(m[i]))
    && (k > 0 || |m| > 1)
  }

  predicate IsExponent(e: string) {
    |e| > 1 && (e[0] == 'e' || e[0] == 'E')
    && (AllDigits(e[1..]) || (|e| > 2 && (e[1] == '+' || e[1] == '-') && AllDigits(e[2..])))
  }

  /** An unsigned decimal literal: a mantissa and an optional exponent. */
  predicate IsUnsignedDecimal(u: string) {
    IsMantissa(u) || exists k :: 0 < k < |u| && IsMantissa(u[..k]) && IsExponent(u[k..])
  }

  predicate IsSignedDecimal(t: string) {
    if |t| > 0 && (t[0] == '+' || t[0] == '-') then
      t[1..] == "Infinity" || IsUnsignedDecimal(t[1..])
    else
      t == "Infinity" || IsUnsignedDecimal(t)
  }

  /** `0x..`, `0o..`, `0b..` literals (no sign allowed). */
  predicate IsPrefixedInteger(t: string) {
    |t| > 2 && t[0] == '0' &&
    ((t[1] in "xX" && AllIn(t[2..], "0123456789abcdefABCDEF"))
     || (t[1] in "oO" && AllIn(t[2..], "01234567"))
     || (t[1] in "bB" && AllIn(t[2..], "01")))
  }

  /** `!isNaN(Number(s))` for a string: after trimming, empty or a numeric literal. */
  predicate IsNumericText(s: string) {
    var t := TrimEnd(TrimStart(s));
    t == "" || IsSignedDecimal(t) || IsPrefixedInteger(t)
  }

  /** `!isNaN(Number(v))`. An array converts through its text. */
  predicate IsNumeric(v: JsValue)
    ensures v.Str? && AllDigits(v.s) ==> IsNumeric(v)
  {
    AllDigitsNumeric(v);
    match v
    case Null => true
    case Undefined => false
    case Str(s) => IsNumericText(s)
    case Num(text) => text != "NaN"
    case Bool(_) => true
    case Arr(_) => IsNumericText(JsText(v))
  }

  /** A text of decimal digits alone is numeric. */
  lemma AllDigitsNumeric(v: JsValue)
    ensures v.Str? && AllDigits(v.s) ==> IsNumericText(v.s)
  {
    if v.Str? && AllDigits(v.s) {
      DigitsNumericText(v.s);
    }
  }

  lemma DigitsNumericText(s: string)
    requires AllDigits(s)
    ensures IsNumericText(s)
  {
    assert TrimStart(s) == s by { assert IsDigit(s[0]); }
    assert TrimEnd(s) == s by { assert IsDigit(s[|s| - 1]); }
    DigitsAreMantissa(s);
    assert IsUnsignedDecimal(s);
    assert IsSignedDecimal(s) by { assert IsDigit(s[0]); }
  }

  lemma DigitsAreMantissa(s: string)
    requires AllDigits(s)
    ensures IsMantissa(s)
  {
    assert MantissaSplit(s, |s|);
  }

  /** `Number` turns null, the empty text and the empty array into zero, and
      undefined into NaN. */
  lemma IsNumericEdges()
    ensures IsNumeric(Null) && IsNumeric(Str("")) && IsNumeric(Arr([])) && !IsNumeric(Undefined)
  {
    assert IsNumeric(Null);
    assert !IsNumeric(Undefined);
    assert IsNumericText("") by { assert TrimEnd(TrimStart("")) == ""; }
    assert IsNumeric(Str(""));
    assert JsText(Arr([])) == "";
  }

  /** JavaScript truthiness: the falsy values are exactly null, undefined,
      the empty text, zero, NaN and false. */
  predicate Truthy(v: JsValue)
    ensures !Truthy(v) <==> v in {Null, Undefined, Str(""), Num("0"), Num("NaN"), Bool(false)}
  {
    match v
    case Null => false
    case Undefined => false
    case Str(s) => s != ""
    case Num(text) => text != "0" && text != "NaN"
    case Bool(b) => b
    case Arr(_) => true
  }
}
