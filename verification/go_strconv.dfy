/** Number and string conversions from Go's standard library that the
    parser and the converter rely on: decimal digit strings, `fmt.Sprint` of
    a natural number, `strconv.ParseFloat` on plain decimal literals, the
    `int(x)` conversion of a float, and `strconv.Quote` (what `%#v` prints for
    a string). Floats are modelled as exact reals. */
module GoStrconv {
  import opened Results

  predicate IsDigit(c: char) {
    '0' <= c <= '9'
  }

  predicate AllDigits(s: string) {
    forall i :: 0 <= i < |s| ==> IsDigit(s[i])
  }

  function DigitValue(c: char): (d: nat)
    requires IsDigit(c)
    ensures d < 10
  {
    c as int - '0' as int
  }

  function DigitChar(d: nat): (c: char)
    requires d < 10
    ensures IsDigit(c) && DigitValue(c) == d
  {
    ('0' as int + d) as char
  }

  /** The number a string of decimal digits denotes. */
  function DigitsValue(ds: string): nat
    requires AllDigits(ds)
  {
    if |ds| == 0 then 0
    else DigitsValue(ds[..|ds| - 1]) * 10 + DigitValue(ds[|ds| - 1])
  }

  function Pow10(k: nat): (p: nat)
    ensures p >= 1
  {
    if k == 0 then 1 else 10 * Pow10(k - 1)
  }

  /** `fmt.Sprint(n)` for a natural number: its decimal digits, without
      leading zeros, which read back as `n`. */
  function NatToDecimal(n: nat): (r: string)
    ensures |r| > 0 && AllDigits(r)
    ensures DigitsValue(r) == n
    ensures |r| > 1 ==> r[0] != '0'
  {
    if n < 10 then [DigitChar(n)]
    else
      var front := NatToDecimal(n / 10);
      var r := front + [DigitChar(n % 10)];
      assert r[..|r| - 1] == front;
      r
  }

  /** Position of the first `c` in `s`, or `|s|` when there is none. */
  function FindChar(s: string, c: char): (k: nat)
    ensures k <= |s|
    ensures k < |s| ==> s[k] == c
    ensures forall j :: 0 <= j < k ==> s[j] != c
  {
    if |s| == 0 then 0
    else if s[0] == c then 0
    else 1 + FindChar(s[1..], c)
  }

  /** `strconv.ParseFloat(s, 64)` on decimal literals: an optional sign,
      digits, and an optional fractional part after one '.', with at least
      one digit in all. Anything else is a syntax error (`None`). */
  function ParseFloat(s: string): (r: Option<real>)
    ensures |s| > 0 && AllDigits(s) ==> r == Some(DigitsValue(s) as real)
    ensures r.Some? ==> exists i :: 0 <= i < |s| && IsDigit(s[i])
  {
    var signed := |s| > 0 && (s[0] == '+' || s[0] == '-');
    var body := if signed then s[1..] else s;
    var dot := FindChar(body, '.');
    var whole := body[..dot];
    var frac := if dot < |body| then body[dot + 1..] else "";
    assert |s| > 0 && AllDigits(s) ==> !signed && dot == |s| && whole == s && frac == "";
    if AllDigits(whole) && AllDigits(frac) && |whole| + |frac| > 0 then
      var magnitude := DigitsValue(whole) as real + DigitsValue(frac) as real / Pow10(|frac|) as real;
      assert |whole| > 0 ==> whole[0] == s[if signed then 1 else 0];
      assert |frac| > 0 ==> frac[0] == s[dot + 1 + if signed then 1 else 0];
      Some(if signed && s[0] == '-' then -magnitude else magnitude)
    else
      None
  }

  /** The parts of a decimal literal: a sign ("", "+" or "-"), the whole
      digits and, when `dot` is set, the digits after the point; at least
      one digit in all. */
  predicate DecimalParts(sign: string, whole: string, dot: bool, frac: string) {
    && (sign == "" || sign == "+" || sign == "-")
    && AllDigits(whole) && AllDigits(frac)
    && |whole| + |frac| > 0
    && (!dot ==> frac == "")
  }

  /** The literal written with those parts. */
  function DecimalText(sign: string, whole: string, dot: bool, frac: string): string {
    sign + whole + (if dot then "." + frac else "")
  }

  /** The number a decimal literal denotes. */
  function DecimalValue(sign: string, whole: string, frac: string): real
    requires AllDigits(whole) && AllDigits(frac)
  {
    var magnitude := DigitsValue(whole) as real + DigitsValue(frac) as real / Pow10(|frac|) as real;
    if sign == "-" then -magnitude else magnitude
  }

  /** The first `c` in `a + b` is at `|a|` when `a` has none and `b`
      starts with one (or is empty). */
  lemma {:induction false} FindCharAt(a: string, b: string, c: char)
    requires forall i :: 0 <= i < |a| ==> a[i] != c
    requires |b| > 0 ==> b[0] == c
    ensures FindChar(a + b, c) == |a|
  {
    if |a| > 0 {
      FindCharAt(a[1..], b, c);
      assert (a + b)[1..] == a[1..] + b;
    }
  }

  /** How `ParseFloat` takes a decimal literal apart: the sign is seen, the
      first point sits right after the whole digits, and what follows it is
      the fraction. */
  lemma DecimalPieces(sign: string, whole: string, dot: bool, frac: string)
    requires DecimalParts(sign, whole, dot, frac)
    ensures var s := DecimalText(sign, whole, dot, frac);
      var signed := |s| > 0 && (s[0] == '+' || s[0] == '-');
      var body := if signed then s[1..] else s;
      && signed == (sign != "")
      && (signed ==> (s[0] == '-') == (sign == "-"))
      && body == whole + (if dot then "." + frac else "")
      && FindChar(body, '.') == |whole|
      && body[..|whole|] == whole
      && (|whole| < |body| <==> dot)
      && (dot ==> body[|whole| + 1..] == frac)
  {
    var rest := if dot then "." + frac else "";
    var s := DecimalText(sign, whole, dot, frac);
    var body := whole + rest;
    assert s == sign + body;
    if sign == "" {
      assert |whole| > 0 ==> s[0] == whole[0];
      assert |whole| == 0 ==> s[0] == '.';
    } else {
      assert s[0] == sign[0] && s[1..] == body;
    }
    FindCharAt(whole, rest, '.');
    assert body[..|whole|] == whole;
  }

  /** Every decimal literal parses to the number it denotes. */
  lemma ParseFloatDecimal(sign: string, whole: string, dot: bool, frac: string)
    requires DecimalParts(sign, whole, dot, frac)
    ensures ParseFloat(DecimalText(sign, whole, dot, frac)) == Some(DecimalValue(sign, whole, frac))
  {
    DecimalPieces(sign, whole, dot, frac);
  }

  /** A string cut at `k` is what comes before, then the point at `k` and
      the rest when `k` is inside it. */
  lemma SplitAtPoint(body: string, k: nat)
    requires k <= |body| && (k < |body| ==> body[k] == '.')
    ensures body == body[..k] + (if k < |body| then "." + body[k + 1..] else "")
  {
    if k < |body| {
      assert body == body[..k] + ([body[k]] + body[k + 1..]);
    }
  }

  /** A sign followed by a body cut at its first point is written again by
      those parts. */
  lemma Rejoin(s: string, sign: string, body: string, k: nat)
    requires s == sign + body
    requires k <= |body| && (k < |body| ==> body[k] == '.')
    ensures DecimalText(sign, body[..k], k < |body|, if k < |body| then body[k + 1..] else "") == s
  {
    SplitAtPoint(body, k);
  }

  /** Whatever `ParseFloat` accepts is a decimal literal. */
  lemma ParseFloatAccepted(s: string) returns (sign: string, whole: string, dot: bool, frac: string)
    requires ParseFloat(s).Some?
    ensures DecimalParts(sign, whole, dot, frac) && DecimalText(sign, whole, dot, frac) == s
  {
    var signed := |s| > 0 && (s[0] == '+' || s[0] == '-');
    var body := if signed then s[1..] else s;
    var k := FindChar(body, '.');
    whole := body[..k];
    frac := if k < |body| then body[k + 1..] else "";
    sign := if signed then [s[0]] else "";
    dot := k < |body|;
    if signed {
      assert s == [s[0]] + s[1..];
    }
    Rejoin(s, sign, body, k);
  }

  /** `ParseFloat` accepts exactly the decimal literals. */
  lemma ParseFloatOnlyDecimal(s: string)
    ensures ParseFloat(s).Some? <==>
      exists sign, whole, dot, frac {:trigger DecimalText(sign, whole, dot, frac)} ::
        DecimalParts(sign, whole, dot, frac) && DecimalText(sign, whole, dot, frac) == s
  {
    if ParseFloat(s).Some? {
      var sign, whole, dot, frac := ParseFloatAccepted(s);
    }
    forall sign, whole, dot, frac | DecimalParts(sign, whole, dot, frac) && DecimalText(sign, whole, dot, frac) == s
      ensures ParseFloat(s).Some?
    {
      ParseFloatDecimal(sign, whole, dot, frac);
    }
  }

  /** Go's `int(x)` for a float: truncation toward zero. */
  function Truncate(x: real): (r: int)
    ensures 0.0 <= x ==> 0 <= r && r as real <= x < r as real + 1.0
    ensures x < 0.0 ==> r <= 0 && r as real - 1.0 < x <= r as real
  {
    if x >= 0.0 then x.Floor else -((-x).Floor)
  }

  function HexDigit(d: nat): char
    requires d < 16
  {
    "0123456789abcdef"[d]
  }

  /** True when `strconv.Quote` writes `c` unchanged. Characters outside
      ASCII are all taken to be printable. */
  predicate PrintsAsIs(c: char) {
    c != '"' && c != '\\' && (' ' <= c < '\U{7F}' || '\U{7F}' < c)
  }

  /** How `strconv.Quote` writes one character between the quotes. */
  function QuoteChar(c: char): (r: string)
    ensures PrintsAsIs(c) <==> r == [c]
    ensures !PrintsAsIs(c) ==> |r| >= 2 && r[0] == '\\'
  {
    if c == '"' || c == '\\' then ['\\', c]
    else if c == '\U{7}' then "\\a"
    else if c == '\U{8}' then "\\b"
    else if c == '\U{C}' then "\\f"
    else if c == '\n' then "\\n"
    else if c == '\r' then "\\r"
    else if c == '\t' then "\\t"
    else if c == '\U{B}' then "\\v"
    else if c < ' ' || c == '\U{7F}' then ['\\', 'x', HexDigit(c as int / 16), HexDigit(c as int % 16)]
    else [c]
  }

  function QuoteBody(s: string): string
  {
    if |s| == 0 then "" else QuoteChar(s[0]) + QuoteBody(s[1..])
  }

  /** `strconv.Quote(s)`: `s` between double quotes, with quotes,
      backslashes and ASCII control characters escaped. */
  function Quote(s: string): (r: string)
    ensures |r| >= |s| + 2
    ensures r[0] == '"' && r[|r| - 1] == '"'
  {
    QuoteBodyLength(s);
    "\"" + QuoteBody(s) + "\""
  }

  lemma {:induction false} QuoteBodyLength(s: string)
    ensures |QuoteBody(s)| >= |s|
  {
    if |s| > 0 {
      QuoteBodyLength(s[1..]);
    }
  }

  /** A string without quotes, backslashes or control characters is quoted
      by just wrapping it in double quotes. */
  lemma {:induction false} QuotePlain(s: string)
    requires forall i :: 0 <= i < |s| ==> PrintsAsIs(s[i])
    ensures Quote(s) == "\"" + s + "\""
  {
    QuoteBodyPlain(s);
  }

  lemma {:induction false} QuoteBodyPlain(s: string)
    requires forall i :: 0 <= i < |s| ==> PrintsAsIs(s[i])
    ensures QuoteBody(s) == s
  {
    if |s| > 0 {
      QuoteBodyPlain(s[1..]);
      assert [s[0]] + s[1..] == s;
    }
  }

  /** The value of a lower-case hexadecimal digit. */
  function HexValue(c: char): Option<nat> {
    if '0' <= c <= '9' then Some(c as int - '0' as int)
    else if 'a' <= c <= 'f' then Some(c as int - 'a' as int + 10)
    else None
  }

  /** The first character a quoted body spells, and how many characters its
      spelling takes; `None` for an unquoted `"`, a stray backslash or an
      unknown escape. */
  function UnquoteChar(t: string): (r: Option<(char, nat)>)
    requires |t| > 0
    ensures r.Some? ==> 0 < r.value.1 <= |t|
  {
    if t[0] == '"' then None
    else if t[0] != '\\' then Some((t[0], 1))
    else if |t| < 2 then None
    else if t[1] == '"' || t[1] == '\\' then Some((t[1], 2))
    else if t[1] == 'a' then Some(('\U{7}', 2))
    else if t[1] == 'b' then Some(('\U{8}', 2))
    else if t[1] == 'f' then Some(('\U{C}', 2))
    else if t[1] == 'n' then Some(('\n', 2))
    else if t[1] == 'r' then Some(('\r', 2))
    else if t[1] == 't' then Some(('\t', 2))
    else if t[1] == 'v' then Some(('\U{B}', 2))
    else if t[1] == 'x' && |t| >= 4 && HexValue(t[2]).Some? && HexValue(t[3]).Some? then
      Some(((16 * HexValue(t[2]).value + HexValue(t[3]).value) as char, 4))
    else None
  }

  /** `strconv.Unquote` on the escapes `Quote` writes: the characters a
      quoted body spells. */
  function UnquoteBody(t: string): Option<string>
    decreases |t|
  {
    if |t| == 0 then Some("")
    else
      match UnquoteChar(t)
      case None => None
      case Some((c, len)) =>
        match UnquoteBody(t[len..])
        case None => None
        case Some(rest) => Some([c] + rest)
  }

  /** `strconv.Unquote` for double-quoted strings. */
  function Unquote(r: string): Option<string> {
    if |r| >= 2 && r[0] == '"' && r[|r| - 1] == '"' then UnquoteBody(r[1..|r| - 1]) else None
  }

  /** A hexadecimal digit reads back as its value. */
  lemma HexRoundTrip(d: nat)
    requires d < 16
    ensures HexValue(HexDigit(d)) == Some(d)
  {
  }

  /** One character's spelling reads back as that character, whatever
      follows it. */
  lemma UnquoteQuoteChar(c: char, rest: string)
    ensures UnquoteChar(QuoteChar(c) + rest) == Some((c, |QuoteChar(c)|))
  {
    var t := QuoteChar(c) + rest;
    if !PrintsAsIs(c) && c != '"' && c != '\\' && c != '\U{7}' && c != '\U{8}' && c != '\U{C}'
      && c != '\n' && c != '\r' && c != '\t' && c != '\U{B}'
    {
      var hi, lo := c as int / 16, c as int % 16;
      HexRoundTrip(hi);
      HexRoundTrip(lo);
      assert t[2] == HexDigit(hi) && t[3] == HexDigit(lo);
      assert (16 * hi + lo) as char == c;
    }
  }

  /** `Unquote` undoes `Quote`'s body. */
  lemma {:induction false} UnquoteQuoteBody(s: string)
    ensures UnquoteBody(QuoteBody(s)) == Some(s)
  {
    if |s| > 0 {
      var q := QuoteChar(s[0]);
      UnquoteQuoteChar(s[0], QuoteBody(s[1..]));
      assert (q + QuoteBody(s[1..]))[|q|..] == QuoteBody(s[1..]);
      UnquoteQuoteBody(s[1..]);
      assert [s[0]] + s[1..] == s;
    }
  }

  /** Every quoted name reads back as the name: `Unquote(Quote(s)) == s`. */
  lemma QuoteRoundTrip(s: string)
    ensures Unquote(Quote(s)) == Some(s)
  {
    var r := Quote(s);
    assert r[1..|r| - 1] == QuoteBody(s);
    UnquoteQuoteBody(s);
  }

  /** Formatting a natural number and parsing it back as a float gives the
      number. */
  lemma ParseFloatOfDecimal(n: nat)
    ensures ParseFloat(NatToDecimal(n)) == Some(n as real)
  {
  }
}
