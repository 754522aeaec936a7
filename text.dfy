/** The server's input sanitisers (`server/utils/text.js`) and the
    `Number.parseInt(value, 10)` they and the client rely on. */
module Text {
  import opened Wrappers
  import opened Js
  import opened Strings

  /** `sanitizeString`: the trimmed text of a string, `''` for anything else. */
  function SanitizeString(v: JsValue): (r: string)
    ensures !v.Str? ==> r == ""
    ensures v.Str? ==> exists i, j :: 0 <= i <= j <= |v.s| && r == v.s[i..j]
                                   && AllWhitespace(v.s[..i]) && AllWhitespace(v.s[j..])
    ensures r == [] || (!IsWhitespace(r[0]) && !IsWhitespace(r[|r| - 1]))
  {
    if v.Str? then TrimIsSlice(v.s); Trim(v.s) else ""
  }

  lemma SanitizeIdempotent(v: JsValue)
    ensures SanitizeString(Str(SanitizeString(v))) == SanitizeString(v)
  {
    TrimIdempotent(if v.Str? then v.s else "");
  }

  /** The longest run of decimal digits at the start of `s`. */
  function LeadingDigits(s: string): (d: string)
    ensures |d| <= |s| && d == s[..|d|]
    ensures forall i :: 0 <= i < |d| ==> IsDigit(d[i])
    ensures |d| == |s| || !IsDigit(s[|d|])
  {
    if s != [] && IsDigit(s[0]) then
      var rest := LeadingDigits(s[1..]);
      assert [s[0]] + rest == s[..|rest| + 1];
      [s[0]] + rest
    else []
  }

  /** `Number.parseInt(text, 10)`: `None` stands for `NaN`, which is what
      JavaScript gives when no digit follows the optional whitespace and sign. */
  function ParseInt(text: string): (r: Option<int>)
    ensures r.Some? <==> |LeadingDigits(UnsignedPart(TrimStart(text)))| > 0
  {
    var t := TrimStart(text);
    var body := UnsignedPart(t);
    var digits := LeadingDigits(body);
    if digits == [] then None
    else
      var magnitude: int := DigitsValue(digits);
      Some(if t != [] && t[0] == '-' then -magnitude else magnitude)
  }

  /** The text after an optional leading `+` or `-` sign. */
  function UnsignedPart(t: string): (u: string)
    ensures u == t || (t != [] && (t[0] == '+' || t[0] == '-') && u == t[1..])
  {
    if t != [] && (t[0] == '+' || t[0] == '-') then t[1..] else t
  }

  /** `parsePositiveInteger`: the integer `value` starts with, when it is
      above zero; otherwise `null` (here `None`). */
  function ParsePositiveInteger(value: JsValue): (r: Option<nat>)
    ensures r.Some? ==> r.value > 0
    ensures r.Some? <==> (ParseInt(ToStr(value)).Some? && ParseInt(ToStr(value)).value > 0)
  {
    match ParseInt(ToStr(value))
    case Some(n) => if n > 0 then Some(n) else None
    case None => None
  }

  lemma {:induction false} LeadingDigitsOfDigits(s: string)
    requires forall i :: 0 <= i < |s| ==> IsDigit(s[i])
    ensures LeadingDigits(s) == s
  {
    if s != [] {
      assert IsDigit(s[0]);
      LeadingDigitsOfDigits(s[1..]);
      assert [s[0]] + s[1..] == s;
    }
  }

  lemma TrimStartOfSignOrDigit(text: string)
    requires text != [] && (text[0] == '-' || IsDigit(text[0]))
    ensures TrimStart(text) == text
  {
  }

  lemma UnsignedPartOfIntToString(n: int)
    ensures UnsignedPart(IntToString(n)) == NatToString(if n < 0 then -n else n)
  {
    var m: nat := if n < 0 then -n else n;
    assert IsDigit(NatToString(m)[0]);
  }

  /** Printing an integer in decimal and parsing it back gives it again. */
  lemma ParseIntOfIntToString(n: int)
    ensures ParseInt(IntToString(n)) == Some(n)
  {
    var m: nat := if n < 0 then -n else n;
    TrimStartOfSignOrDigit(IntToString(n));
    UnsignedPartOfIntToString(n);
    LeadingDigitsOfDigits(NatToString(m));
    DigitsValueOfNatToString(m);
  }

  lemma ParsePositiveIntegerRoundTrip(n: nat)
    requires n > 0
    ensures ParsePositiveInteger(Str(NatToString(n))) == Some(n)
  {
    assert ToStr(Str(NatToString(n))) == IntToString(n);
    ParseIntOfIntToString(n);
  }

  /** Zero and negative numbers are refused. */
  lemma ParsePositiveIntegerRefusesNonPositive(n: int)
    requires n <= 0
    ensures ParsePositiveInteger(Num(n)) == None
  {
    assert ToStr(Num(n)) == IntToString(n);
    ParseIntOfIntToString(n);
  }
}
