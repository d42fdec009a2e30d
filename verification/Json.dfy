/**
 JSON trees, their text in two styles, and a parser for JSON text. Objects, numbers and strings
 are those of sections 4, 6 and 7 of RFC 8259; text is a sequence of code points. A number that
 is not written as an integer is kept as written.
 */
module Json {
  import opened Wrappers
  import opened Decimal

  datatype Json =
    | Null
    | Bool(b: bool)
    | Int(n: int)
    | Real(token: string)
    | Str(s: string)
    | Arr(xs: seq<Json>)
    | Obj(fields: seq<Field>)

  datatype Field = Field(key: string, value: Json)

  // ---------------------------------------------------------------- the printer

  function HexDigit(d: nat): char
    requires d < 16
  {
    "0123456789abcdef"[d]
  }

  predicate IsHexDigit(c: char) {
    '0' <= c <= '9' || 'a' <= c <= 'f' || 'A' <= c <= 'F'
  }

  function HexWeight(c: char): (w: nat)
    requires IsHexDigit(c)
    ensures w < 16
  {
    if c <= '9' then c as int - '0' as int
    else if c <= 'F' then c as int - 'A' as int + 10
    else c as int - 'a' as int + 10
  }

  lemma HexDigits(c: char)
    ensures IsHexDigit(c) <==> c in "0123456789abcdefABCDEF"
  {
    var s := "0123456789abcdefABCDEF";
    if '0' <= c <= '9' {
      assert s[c as int - '0' as int] == c;
    } else if 'a' <= c <= 'f' {
      assert s[c as int - 'a' as int + 10] == c;
    } else if 'A' <= c <= 'F' {
      assert s[c as int - 'A' as int + 16] == c;
    }
  }

  lemma HexDigitWeight(d: nat)
    requires d < 16
    ensures IsHexDigit(HexDigit(d)) && HexWeight(HexDigit(d)) == d
  {
  }

  /** A character inside a string: quote, backslash and controls escaped, all others verbatim. */
  function Escape(c: char): string {
    if c == '\"' then "\\\""
    else if c == '\\' then "\\\\"
    else if c as int == 8 then "\\b"
    else if c as int == 12 then "\\f"
    else if c == '\n' then "\\n"
    else if c == '\r' then "\\r"
    else if c == '\t' then "\\t"
    else if c as int < 32 then "\\u00" + [HexDigit(c as int / 16), HexDigit(c as int % 16)]
    else [c]
  }

  function EscapeAll(s: string): string {
    if |s| == 0 then "" else Escape(s[0]) + EscapeAll(s[1..])
  }

  function Quote(s: string): string {
    "\"" + EscapeAll(s) + "\""
  }

  function PrintInt(n: int): string {
    if n < 0 then "-" + Numeral(-n) else Numeral(n)
  }

  /** What separates items and follows keys: nothing but punctuation, or a space as well. */
  datatype Style = Compact | Spaced

  function Comma(style: Style): string {
    if style.Compact? then "," else ", "
  }

  function Colon(style: Style): string {
    if style.Compact? then ":" else ": "
  }

  /** json.dumps with non-ASCII characters kept. */
  function Render(style: Style, t: Json): string
    decreases t, 1
  {
    match t
    case Null => "null"
    case Bool(b) => if b then "true" else "false"
    case Int(n) => PrintInt(n)
    case Real(token) => token
    case Str(s) => Quote(s)
    case Arr(xs) => "[" + RenderElems(style, xs) + "]"
    case Obj(fields) => "{" + RenderFields(style, fields) + "}"
  }

  function RenderElems(style: Style, xs: seq<Json>): string
    decreases xs, 0
  {
    if |xs| == 0 then ""
    else if |xs| == 1 then Render(style, xs[0])
    else Render(style, xs[0]) + Comma(style) + RenderElems(style, xs[1..])
  }

  function RenderField(style: Style, f: Field): string
    decreases f, 2
  {
    Quote(f.key) + Colon(style) + Render(style, f.value)
  }

  function RenderFields(style: Style, fs: seq<Field>): string
    decreases fs, 0
  {
    if |fs| == 0 then ""
    else if |fs| == 1 then RenderField(style, fs[0])
    else RenderField(style, fs[0]) + Comma(style) + RenderFields(style, fs[1..])
  }

  function Print(t: Json): string {
    Render(Compact, t)
  }

  // ---------------------------------------------------------------- numbers

  predicate IsNumberChar(c: char) {
    IsDigit(c) || c == '-' || c == '+' || c == '.' || c == 'e' || c == 'E'
  }

  /** The length of the leading run of digits. */
  function Span(s: string): (k: nat)
    ensures k <= |s| && (forall i :: 0 <= i < k ==> IsDigit(s[i])) && (k < |s| ==> !IsDigit(s[k]))
  {
    if |s| == 0 || !IsDigit(s[0]) then 0 else 1 + Span(s[1..])
  }

  /** The length of the leading run of characters that occur in numbers. */
  function Run(s: string): (k: nat)
    ensures k <= |s| && (forall i :: 0 <= i < k ==> IsNumberChar(s[i])) && (k < |s| ==> !IsNumberChar(s[k]))
  {
    if |s| == 0 || !IsNumberChar(s[0]) then 0 else 1 + Run(s[1..])
  }

  predicate IsNatural(s: string) {
    |s| > 0 && Span(s) == |s| && (s[0] == '0' ==> |s| == 1)
  }

  predicate IsExponent(s: string) {
    && |s| > 1 && (s[0] == 'e' || s[0] == 'E')
    && var d := if s[1] == '+' || s[1] == '-' then s[2..] else s[1..];
       |d| > 0 && Span(d) == |d|
  }

  /** A fraction, an exponent, or both. */
  predicate IsFraction(s: string) {
    if |s| > 0 && s[0] == '.' then
      var k := Span(s[1..]);
      k > 0 && (|s| == 1 + k || IsExponent(s[1 + k..]))
    else IsExponent(s)
  }

  function Unsigned(s: string): string {
    if |s| > 0 && s[0] == '-' then s[1..] else s
  }

  /** A number written with a fraction or an exponent. */
  predicate IsReal(s: string) {
    && (forall i :: 0 <= i < |s| ==> IsNumberChar(s[i]))
    && var u := Unsigned(s);
       var k := Span(u);
       k > 0 && IsNatural(u[..k]) && IsFraction(u[k..])
  }

  // The grammar of numbers, section 6 of RFC 8259.

  predicate Digits(s: string) {
    |s| > 0 && forall i :: 0 <= i < |s| ==> IsDigit(s[i])
  }

  predicate IntPart(s: string) {
    Digits(s) && (|s| > 1 ==> s[0] != '0')
  }

  predicate FracPart(s: string) {
    |s| > 1 && s[0] == '.' && Digits(s[1..])
  }

  predicate ExpPart(s: string) {
    && |s| > 1 && (s[0] == 'e' || s[0] == 'E')
    && (Digits(s[1..]) || ((s[1] == '+' || s[1] == '-') && Digits(s[2..])))
  }

  /** A number with a fraction or an exponent. */
  predicate RealParts(sign: string, whole: string, frac: string, exp: string) {
    && (sign == "" || sign == "-") && IntPart(whole)
    && (frac == "" || FracPart(frac)) && (exp == "" || ExpPart(exp)) && frac + exp != ""
  }

  lemma {:induction false} SpanStops(d: string, rest: string)
    requires (forall i :: 0 <= i < |d| ==> IsDigit(d[i])) && (|rest| > 0 ==> !IsDigit(rest[0]))
    ensures Span(d + rest) == |d|
  {
    if |d| > 0 {
      SpanStops(d[1..], rest);
      assert (d + rest)[1..] == d[1..] + rest;
    } else {
      assert d + rest == rest;
    }
  }

  lemma ExpPartIs(s: string)
    ensures ExpPart(s) <==> IsExponent(s)
    ensures ExpPart(s) ==> forall i :: 0 <= i < |s| ==> IsNumberChar(s[i])
  {
    if |s| > 1 {
      var d := if s[1] == '+' || s[1] == '-' then s[2..] else s[1..];
      if Digits(d) {
        SpanStops(d, "");
        assert d + "" == d;
      }
      assert s == [s[0]] + s[1..] && (s[1] == '+' || s[1] == '-' ==> s[1..] == [s[1]] + s[2..]);
    }
  }

  lemma FractionParts(frac: string, exp: string)
    requires (frac == "" || FracPart(frac)) && (exp == "" || ExpPart(exp)) && frac + exp != ""
    ensures IsFraction(frac + exp) && forall i :: 0 <= i < |frac + exp| ==> IsNumberChar((frac + exp)[i])
  {
    hide Span;
    var s := frac + exp;
    ExpPartIs(exp);
    if frac != "" {
      SpanStops(frac[1..], exp);
      assert s[1..] == frac[1..] + exp && s[|frac|..] == exp;
      assert forall i :: 0 < i < |frac| ==> frac[i] == frac[1..][i - 1];
    } else {
      assert s == exp;
    }
  }

  /** Tokens that are not integers are exactly those of the grammar. */
  lemma RealGrammar(s: string, sign: string, whole: string, frac: string, exp: string)
    requires s == sign + whole + frac + exp && RealParts(sign, whole, frac, exp)
    ensures IsReal(s)
  {
    hide Span, IsFraction;
    var u, tail := whole + (frac + exp), frac + exp;
    assert s == sign + u && Unsigned(s) == u;
    FractionParts(frac, exp);
    assert tail[0] == if frac != "" then frac[0] else exp[0];
    SpanStops(whole, tail);
    SpanStops(whole, "");
    assert whole + "" == whole && u[..|whole|] == whole && u[|whole|..] == tail;
  }

  lemma FractionHasParts(tail: string) returns (frac: string, exp: string)
    requires IsFraction(tail)
    ensures tail == frac + exp && (frac == "" || FracPart(frac)) && (exp == "" || ExpPart(exp)) && tail != ""
  {
    if tail[0] == '.' {
      var n := Span(tail[1..]);
      frac, exp := tail[..1 + n], tail[1 + n..];
      assert frac[1..] == tail[1..][..n];
    } else {
      frac, exp := "", tail;
    }
    ExpPartIs(exp);
  }

  lemma NaturalIsIntPart(s: string)
    requires IsNatural(s)
    ensures IntPart(s)
  {
  }

  lemma SignApart(s: string) returns (sign: string)
    ensures (sign == "" || sign == "-") && s == sign + Unsigned(s)
  {
    sign := if Unsigned(s) == s then "" else "-";
  }

  lemma RealHasParts(s: string) returns (sign: string, whole: string, frac: string, exp: string)
    requires IsReal(s)
    ensures s == sign + whole + frac + exp && RealParts(sign, whole, frac, exp)
  {
    hide IsFraction, FracPart, ExpPart, IntPart, IsNatural, Unsigned, Span, IsNumberChar;
    var u := Unsigned(s);
    var k := Span(u);
    whole := u[..k];
    sign := SignApart(s);
    NaturalIsIntPart(whole);
    frac, exp := FractionHasParts(u[k..]);
    FourParts(sign, whole, frac, exp, u, s);
  }

  lemma FourParts(sign: string, whole: string, frac: string, exp: string, u: string, s: string)
    requires s == sign + u && u == whole + (frac + exp)
    ensures s == sign + whole + frac + exp
  {
  }

  /** The number a token stands for. */
  function NumberToken(s: string): Option<Json> {
    var u := Unsigned(s);
    if IsNatural(u) then
      var n: int := NumberOf(u);
      Some(Int(if u == s then n else -n))
    else if IsReal(s) then Some(Real(s))
    else None
  }

  /** Every real number of the tree is written as one. */
  predicate Lexical(t: Json)
    decreases t
  {
    match t
    case Real(token) => IsReal(token)
    case Arr(xs) => forall i :: 0 <= i < |xs| ==> Lexical(xs[i])
    case Obj(fs) => forall i :: 0 <= i < |fs| ==> Lexical(fs[i].value)
    case _ => true
  }

  // ---------------------------------------------------------------- the parser

  /** The character of a two-character escape. */
  function Unescape(c: char): Option<char> {
    if c == '\"' || c == '\\' || c == '/' then Some(c)
    else if c == 'b' then Some(8 as char)
    else if c == 'f' then Some(12 as char)
    else if c == 'n' then Some('\n')
    else if c == 'r' then Some('\r')
    else if c == 't' then Some('\t')
    else None
  }

  /** The character of a four-digit escape; surrogates are not characters. */
  function CodePoint(d: string): Option<char>
    requires |d| == 4
  {
    if IsHexDigit(d[0]) && IsHexDigit(d[1]) && IsHexDigit(d[2]) && IsHexDigit(d[3]) then
      var n := ((HexWeight(d[0]) * 16 + HexWeight(d[1])) * 16 + HexWeight(d[2])) * 16 + HexWeight(d[3]);
      if n < 0xD800 || 0xDFFF < n then Some(n as char) else None
    else None
  }

  /** The first character of a string body and what follows it; None at a closing quote or an error. */
  function ParseChar(s: string): (r: Option<(char, string)>)
    ensures r.Some? ==> |r.value.1| < |s|
  {
    if |s| == 0 || s[0] == '\"' || s[0] as int < 32 then None
    else if s[0] != '\\' then Some((s[0], s[1..]))
    else if |s| < 2 then None
    else if s[1] == 'u' then
      if |s| < 6 then None
      else
        var c :- CodePoint(s[2..6]);
        Some((c, s[6..]))
    else
      var c :- Unescape(s[1]);
      Some((c, s[2..]))
  }

  /** The body of a string up to its closing quote. */
  function ParseChars(s: string): (r: Option<(string, string)>)
    ensures r.Some? ==> |r.value.1| < |s|
    decreases |s|
  {
    if |s| > 0 && s[0] == '\"' then Some(("", s[1..]))
    else
      var c :- ParseChar(s);
      var cs :- ParseChars(c.1);
      Some(([c.0] + cs.0, cs.1))
  }

  predicate StartsWith(s: string, c: char) {
    |s| > 0 && s[0] == c
  }

  predicate IsSpace(c: char) {
    c == ' ' || c == '\t' || c == '\n' || c == '\r'
  }

  function Skip(s: string): (r: string)
    ensures |r| <= |s|
  {
    if |s| > 0 && IsSpace(s[0]) then Skip(s[1..]) else s
  }

  function ParseNumber(s: string): (r: Option<(Json, string)>)
    ensures r.Some? ==> |r.value.1| < |s|
  {
    var k := Run(s);
    if k == 0 then None
    else
      var t :- NumberToken(s[..k]);
      Some((t, s[k..]))
  }

  /** The first value of a text and what follows it. */
  function Parse(text: string): (r: Option<(Json, string)>)
    ensures r.Some? ==> |r.value.1| < |text|
    decreases |text|, 1
  {
    var s := Skip(text);
    if |s| == 0 then None
    else if s[0] == 'n' then if "null" <= s then Some((Null, s[4..])) else None
    else if s[0] == 't' then if "true" <= s then Some((Bool(true), s[4..])) else None
    else if s[0] == 'f' then if "false" <= s then Some((Bool(false), s[5..])) else None
    else if s[0] == '\"' then
      var r :- ParseChars(s[1..]);
      Some((Str(r.0), r.1))
    else if s[0] == '[' then
      if StartsWith(Skip(s[1..]), ']') then Some((Arr([]), Skip(s[1..])[1..]))
      else
        var r :- ParseElems(s[1..]);
        Some((Arr(r.0), r.1))
    else if s[0] == '{' then
      if StartsWith(Skip(s[1..]), '}') then Some((Obj([]), Skip(s[1..])[1..]))
      else
        var r :- ParseFields(s[1..]);
        Some((Obj(r.0), r.1))
    else ParseNumber(s)
  }

  function ParseElems(s: string): (r: Option<(seq<Json>, string)>)
    ensures r.Some? ==> |r.value.1| < |s|
    decreases |s|, 2
  {
    var v :- Parse(s);
    var rest := Skip(v.1);
    if StartsWith(rest, ']') then Some(([v.0], rest[1..]))
    else if StartsWith(rest, ',') then
      var vs :- ParseElems(rest[1..]);
      Some(([v.0] + vs.0, vs.1))
    else None
  }

  function ParseField(text: string): (r: Option<(Field, string)>)
    ensures r.Some? ==> |r.value.1| < |text|
    decreases |text|, 2
  {
    var s := Skip(text);
    if !StartsWith(s, '\"') then None
    else
      var k :- ParseChars(s[1..]);
      var rest := Skip(k.1);
      if !StartsWith(rest, ':') then None
      else
        var v :- Parse(rest[1..]);
        Some((Field(k.0, v.0), v.1))
  }

  function ParseFields(s: string): (r: Option<(seq<Field>, string)>)
    ensures r.Some? ==> |r.value.1| < |s|
    decreases |s|, 3
  {
    var f :- ParseField(s);
    var rest := Skip(f.1);
    if StartsWith(rest, '}') then Some(([f.0], rest[1..]))
    else if StartsWith(rest, ',') then
      var fs :- ParseFields(rest[1..]);
      Some(([f.0] + fs.0, fs.1))
    else None
  }

  /** json.loads: one value and nothing but space around it. */
  function ParseText(s: string): Option<Json> {
    var r :- Parse(s);
    if Skip(r.1) == "" then Some(r.0) else None
  }

  // ---------------------------------------------------------------- the parser undoes the printer

  lemma ParseEscape(c: char, rest: string)
    ensures ParseChar(Escape(c) + rest) == Some((c, rest)) && Escape(c)[0] != '\"'
  {
    var s := Escape(c) + rest;
    var n := c as int;
    if |Escape(c)| == 1 {
      assert s[1..] == rest;
    } else if |Escape(c)| == 2 {
      assert s[0] == '\\' && s[1] == Escape(c)[1] && s[2..] == rest;
    } else {
      HexDigitWeight(n / 16);
      HexDigitWeight(n % 16);
      assert s[6..] == rest && s[2..6] == ['0', '0', HexDigit(n / 16), HexDigit(n % 16)];
      assert s[1] == 'u' && CodePoint(s[2..6]) == Some(c);
    }
  }

  lemma {:induction false} ParseQuoted(t: string, rest: string)
    ensures ParseChars(EscapeAll(t) + "\"" + rest) == Some((t, rest))
  {
    var s := EscapeAll(t) + "\"" + rest;
    if |t| == 0 {
      assert s[0] == '\"' && s[1..] == rest;
    } else {
      var tail := EscapeAll(t[1..]) + "\"" + rest;
      assert s == Escape(t[0]) + tail;
      ParseEscape(t[0], tail);
      ParseQuoted(t[1..], rest);
      assert [t[0]] + t[1..] == t;
    }
  }

  /** Nothing that follows can extend a number. */
  predicate Ends(rest: string) {
    |rest| > 0 ==> !IsNumberChar(rest[0])
  }

  lemma {:induction false} RunOfToken(d: string, rest: string)
    requires (forall i :: 0 <= i < |d| ==> IsNumberChar(d[i])) && Ends(rest)
    ensures Run(d + rest) == |d|
  {
    if |d| == 0 {
      assert d + rest == rest;
    } else {
      assert (d + rest)[1..] == d[1..] + rest;
      RunOfToken(d[1..], rest);
    }
  }

  lemma {:induction false} SpanOfDigits(d: string)
    requires forall i :: 0 <= i < |d| ==> IsDigit(d[i])
    ensures Span(d) == |d|
  {
    if |d| > 0 {
      SpanOfDigits(d[1..]);
    }
  }

  lemma NumeralToken(n: int)
    ensures NumberToken(PrintInt(n)) == Some(Int(n))
    ensures forall i :: 0 <= i < |PrintInt(n)| ==> IsNumberChar(PrintInt(n)[i])
    ensures |PrintInt(n)| > 0 && (PrintInt(n)[0] == '-' || IsDigit(PrintInt(n)[0]))
  {
    var d := Numeral(if n < 0 then -n else n);
    SpanOfDigits(d);
    NumberOfNumeral(if n < 0 then -n else n);
    assert n < 0 ==> PrintInt(n)[1..] == d;
    assert Unsigned(PrintInt(n)) == d;
  }

  /** Integers have a sign if they are negative, and no leading zero. */
  lemma IntegerText(n: int)
    ensures PrintInt(n)[0] == '-' <==> n < 0
    ensures var d := if n < 0 then PrintInt(n)[1..] else PrintInt(n);
      |d| > 0 && (d[0] == '0' ==> n == 0 && d == "0") && forall i :: 0 <= i < |d| ==> IsDigit(d[i])
  {
    var d := Numeral(if n < 0 then -n else n);
    assert n < 0 ==> PrintInt(n)[1..] == d;
  }

  lemma FractionNonempty(s: string)
    ensures IsFraction(s) ==> |s| > 0
  {
  }

  lemma RealStart(token: string)
    requires IsReal(token)
    ensures |token| > 0 && (token[0] == '-' || IsDigit(token[0])) && NumberToken(token) == Some(Real(token))
  {
    var u := Unsigned(token);
    assert u[..Span(u)][0] == u[0];
    FractionNonempty(u[Span(u)..]);
  }

  lemma ParseToken(token: string, t: Json, rest: string)
    requires NumberToken(token) == Some(t) && |token| > 0 && (token[0] == '-' || IsDigit(token[0])) && Ends(rest)
    requires forall i :: 0 <= i < |token| ==> IsNumberChar(token[i])
    ensures Parse(token + rest) == Some((t, rest))
  {
    hide NumberToken, Run;
    var s := token + rest;
    RunOfToken(token, rest);
    assert s[0] == token[0] && !IsSpace(s[0]) && Skip(s) == s;
    assert s[..|token|] == token && s[|token|..] == rest;
    assert ParseNumber(s) == Some((t, rest));
  }

  lemma ParseLeaf(style: Style, t: Json, rest: string)
    requires !t.Arr? && !t.Obj? && Lexical(t) && Ends(rest)
    ensures Parse(Render(style, t) + rest) == Some((t, rest))
  {
    hide ParseNumber, NumberToken, PrintInt, ParseChars, EscapeAll, IsReal;
    var s := Render(style, t) + rest;
    match t
    case Null => assert s[4..] == rest && s[..4] == "null" && Skip(s) == s;
    case Bool(b) => assert s[if b then 4 else 5..] == rest && s[..if b then 4 else 5] == Render(style, t) && Skip(s) == s;
    case Int(n) =>
      NumeralToken(n);
      ParseToken(PrintInt(n), t, rest);
    case Real(token) =>
      RealStart(token);
      assert forall i :: 0 <= i < |token| ==> IsNumberChar(token[i]) by { RealChars(token); }
      ParseToken(token, t, rest);
    case Str(v) =>
      QuotedText(v, rest);
      ParseQuoted(v, rest);
  }

  lemma QuotedText(v: string, rest: string)
    ensures |Quote(v) + rest| > 0 && (Quote(v) + rest)[0] == '\"' && (Quote(v) + rest)[1..] == EscapeAll(v) + "\"" + rest
    ensures Skip(Quote(v) + rest) == Quote(v) + rest
  {
    hide EscapeAll;
  }

  lemma RealChars(token: string)
    requires IsReal(token)
    ensures forall i :: 0 <= i < |token| ==> IsNumberChar(token[i])
  {
  }

  lemma ParseBrackets(style: Style, xs: seq<Json>, rest: string)
    requires |xs| > 0 ==> ParseElems(RenderElems(style, xs) + "]" + rest) == Some((xs, rest))
    requires forall i :: 0 <= i < |xs| ==> Lexical(xs[i])
    ensures Parse(Render(style, Arr(xs)) + rest) == Some((Arr(xs), rest))
  {
    hide RenderElems, ParseElems;
    var s := Render(style, Arr(xs)) + rest;
    assert s[0] == '[' && s[1..] == RenderElems(style, xs) + "]" + rest && Skip(s) == s;
    ElemsStart(style, xs);
    if |xs| == 0 {
      assert s[1] == ']' && s[1..][1..] == rest;
    } else {
      assert s[1] == RenderElems(style, xs)[0];
      assert Skip(s[1..]) == s[1..];
    }
  }

  lemma ParseBraces(style: Style, fs: seq<Field>, rest: string)
    requires |fs| > 0 ==> ParseFields(RenderFields(style, fs) + "}" + rest) == Some((fs, rest))
    ensures Parse(Render(style, Obj(fs)) + rest) == Some((Obj(fs), rest))
  {
    hide RenderFields, ParseFields;
    var s := Render(style, Obj(fs)) + rest;
    assert s[0] == '{' && s[1..] == RenderFields(style, fs) + "}" + rest && Skip(s) == s;
    FieldsStart(style, fs);
    if |fs| == 0 {
      assert s[1] == '}' && s[1..][1..] == rest;
    } else {
      assert s[1] == RenderFields(style, fs)[0];
      assert Skip(s[1..]) == s[1..];
    }
  }

  lemma ElemsStart(style: Style, xs: seq<Json>)
    requires forall i :: 0 <= i < |xs| ==> Lexical(xs[i])
    ensures |xs| == 0 ==> RenderElems(style, xs) == ""
    ensures |xs| > 0 ==> |RenderElems(style, xs)| > 0 && RenderElems(style, xs)[0] != ']' && !IsSpace(RenderElems(style, xs)[0])
  {
    if |xs| > 0 {
      RenderStart(style, xs[0]);
    }
  }

  lemma RenderStart(style: Style, t: Json)
    requires Lexical(t)
    ensures |Render(style, t)| > 0 && Render(style, t)[0] != ']' && !IsSpace(Render(style, t)[0])
  {
    match t
    case Int(n) => NumeralToken(n);
    case Real(token) => RealStart(token);
    case _ =>
  }

  lemma FieldsStart(style: Style, fs: seq<Field>)
    ensures |fs| == 0 ==> RenderFields(style, fs) == ""
    ensures |fs| > 0 ==> |RenderFields(style, fs)| > 0 && RenderFields(style, fs)[0] == '\"'
  {
  }

  /** Space before a value changes nothing. */
  lemma SkipSpace(s: string)
    ensures Skip(" " + s) == Skip(s) && Parse(" " + s) == Parse(s) && ParseField(" " + s) == ParseField(s)
  {
    assert (" " + s)[1..] == s;
  }

  lemma SkipSpaceLists(s: string)
    ensures ParseElems(" " + s) == ParseElems(s) && ParseFields(" " + s) == ParseFields(s)
  {
    hide Parse, ParseField, Skip;
    SkipSpace(s);
  }

  /** After the separator of either style the next item parses as without it. */
  lemma AfterComma(style: Style, tail: string)
    ensures |Comma(style)| > 0 && Comma(style)[0] == ',' && Skip(Comma(style) + tail) == Comma(style) + tail && Ends(Comma(style) + tail)
    ensures ParseElems((Comma(style) + tail)[1..]) == ParseElems(tail) && ParseFields((Comma(style) + tail)[1..]) == ParseFields(tail)
  {
    hide ParseElems, ParseFields;
    SkipSpaceLists(tail);
    assert (Comma(style) + tail)[1..] == if style.Compact? then tail else " " + tail;
  }

  lemma AfterColon(style: Style, tail: string)
    ensures Colon(style)[0] == ':' && Skip(Colon(style) + tail) == Colon(style) + tail
    ensures Parse((Colon(style) + tail)[1..]) == Parse(tail)
  {
    hide Parse;
    SkipSpace(tail);
    assert (Colon(style) + tail)[1..] == if style.Compact? then tail else " " + tail;
  }

  lemma LastElem(text: string, v: Json, rest: string)
    requires Parse(text + ("]" + rest)) == Some((v, "]" + rest))
    ensures ParseElems(text + ("]" + rest)) == Some(([v], rest))
  {
    hide Parse;
    assert ("]" + rest)[1..] == rest;
  }

  lemma ConsElem(style: Style, text: string, v: Json, tail: string, vs: seq<Json>, rest: string)
    requires Parse(text + (Comma(style) + tail)) == Some((v, Comma(style) + tail)) && ParseElems(tail) == Some((vs, rest))
    ensures ParseElems(text + (Comma(style) + tail)) == Some(([v] + vs, rest))
  {
    hide Parse;
    AfterComma(style, tail);
  }

  lemma LastField(text: string, f: Field, rest: string)
    requires ParseField(text + ("}" + rest)) == Some((f, "}" + rest))
    ensures ParseFields(text + ("}" + rest)) == Some(([f], rest))
  {
    hide ParseField;
    assert ("}" + rest)[1..] == rest;
  }

  lemma ConsField(style: Style, text: string, f: Field, tail: string, fs: seq<Field>, rest: string)
    requires ParseField(text + (Comma(style) + tail)) == Some((f, Comma(style) + tail)) && ParseFields(tail) == Some((fs, rest))
    ensures ParseFields(text + (Comma(style) + tail)) == Some(([f] + fs, rest))
  {
    hide ParseField;
    AfterComma(style, tail);
  }

  /** Parsing a printed value followed by anything that cannot extend it gives both back. */
  lemma {:induction false} ParseRender(style: Style, t: Json, rest: string)
    requires Lexical(t) && Ends(rest)
    ensures Parse(Render(style, t) + rest) == Some((t, rest))
    decreases t, 2
  {
    hide Parse, Render;
    if t.Arr? {
      if |t.xs| > 0 {
        ParseRenderElems(style, t.xs, rest);
      }
      ParseBrackets(style, t.xs, rest);
    } else if t.Obj? {
      if |t.fields| > 0 {
        ParseRenderFields(style, t.fields, rest);
      }
      ParseBraces(style, t.fields, rest);
    } else {
      ParseLeaf(style, t, rest);
    }
  }

  lemma {:induction false} ParseRenderElems(style: Style, xs: seq<Json>, rest: string)
    requires |xs| > 0 && forall i :: 0 <= i < |xs| ==> Lexical(xs[i])
    ensures ParseElems(RenderElems(style, xs) + "]" + rest) == Some((xs, rest))
    decreases xs, 0
  {
    hide Parse, Render, Lexical, ParseElems, Comma;
    var head := Render(style, xs[0]);
    if |xs| == 1 {
      ParseRender(style, xs[0], "]" + rest);
      LastElem(head, xs[0], rest);
      assert head + "]" + rest == head + ("]" + rest) && [xs[0]] == xs;
    } else {
      var tail := RenderElems(style, xs[1..]) + "]" + rest;
      ParseRenderElems(style, xs[1..], rest);
      AfterComma(style, tail);
      ParseRender(style, xs[0], Comma(style) + tail);
      ConsElem(style, head, xs[0], tail, xs[1..], rest);
      Regroup(head, Comma(style), RenderElems(style, xs[1..]), "]", rest);
      assert [xs[0]] + xs[1..] == xs;
    }
  }

  lemma Regroup(a: string, b: string, c: string, d: string, e: string)
    ensures (a + b + c) + d + e == a + (b + (c + d + e))
  {
  }

  lemma {:induction false} ParseRenderField(style: Style, f: Field, rest: string)
    requires Lexical(f.value) && Ends(rest)
    ensures ParseField(RenderField(style, f) + rest) == Some((f, rest))
    decreases f, 3
  {
    hide Parse, Render, ParseChars, EscapeAll, Lexical;
    var value := Render(style, f.value) + rest;
    assert RenderField(style, f) + rest == Quote(f.key) + (Colon(style) + value);
    QuotedText(f.key, Colon(style) + value);
    ParseQuoted(f.key, Colon(style) + value);
    AfterColon(style, value);
    ParseRender(style, f.value, rest);
  }

  lemma {:induction false} ParseRenderFields(style: Style, fs: seq<Field>, rest: string)
    requires |fs| > 0 && forall i :: 0 <= i < |fs| ==> Lexical(fs[i].value)
    ensures ParseFields(RenderFields(style, fs) + "}" + rest) == Some((fs, rest))
    decreases fs, 1
  {
    hide ParseField, RenderField, Lexical, ParseFields, Comma;
    var head := RenderField(style, fs[0]);
    if |fs| == 1 {
      ParseRenderField(style, fs[0], "}" + rest);
      LastField(head, fs[0], rest);
      assert head + "}" + rest == head + ("}" + rest) && [fs[0]] == fs;
    } else {
      ParseRenderFields(style, fs[1..], rest);
      FieldBefore(style, fs, rest);
    }
  }

  lemma {:induction false} FieldBefore(style: Style, fs: seq<Field>, rest: string)
    requires |fs| > 1 && Lexical(fs[0].value) && ParseFields(RenderFields(style, fs[1..]) + "}" + rest) == Some((fs[1..], rest))
    ensures ParseFields(RenderFields(style, fs) + "}" + rest) == Some((fs, rest))
    decreases fs, 0
  {
    hide ParseField, RenderField, Lexical, ParseFields, Comma;
    var head, tail := RenderField(style, fs[0]), RenderFields(style, fs[1..]) + "}" + rest;
    AfterComma(style, tail);
    ParseRenderField(style, fs[0], Comma(style) + tail);
    ConsField(style, head, fs[0], tail, fs[1..], rest);
    Regroup(head, Comma(style), RenderFields(style, fs[1..]), "}", rest);
    assert [fs[0]] + fs[1..] == fs;
  }

  /** The parser undoes the printer. */
  lemma TextRoundTrip(style: Style, t: Json)
    requires Lexical(t)
    ensures ParseText(Render(style, t)) == Some(t)
  {
    ParseRender(style, t, "");
    assert Render(style, t) + "" == Render(style, t);
  }

  /** So the text of a tree determines the tree. */
  lemma PrintInjective(t: Json, u: Json)
    requires Lexical(t) && Lexical(u)
    ensures Print(t) == Print(u) <==> t == u
  {
    TextRoundTrip(Compact, t);
    TextRoundTrip(Compact, u);
  }

  // ---------------------------------------------------------------- text as json.dumps writes it

  /** Characters stand for themselves unless they must be escaped, in two characters if there are two for it. */
  lemma EscapeShort(c: char)
    ensures Escape(c) == [c] <==> c >= ' ' && c != '\"' && c != '\\'
    ensures |Escape(c)| == 2 <==> c as int in {8, 9, 10, 12, 13, 34, 92}
    ensures |Escape(c)| > 2 ==> |Escape(c)| == 6 && Escape(c)[..4] == "\\u00" && forall i :: 4 <= i < 6 ==> LowerHex(Escape(c)[i])
  {
  }

  predicate LowerHex(c: char) {
    '0' <= c <= '9' || 'a' <= c <= 'f'
  }

  predicate Tight(s: string) {
    forall i :: 0 <= i < |s| ==> !IsSpace(s[i])
  }

  /** No string, key or number of the tree has white space in it. */
  predicate TightTree(t: Json)
    decreases t
  {
    match t
    case Real(token) => Tight(token)
    case Str(s) => Tight(s)
    case Arr(xs) => forall i :: 0 <= i < |xs| ==> TightTree(xs[i])
    case Obj(fs) => forall i :: 0 <= i < |fs| ==> Tight(fs[i].key) && TightTree(fs[i].value)
    case _ => true
  }

  lemma {:induction false} TightEscapes(s: string)
    requires Tight(s)
    ensures Tight(EscapeAll(s))
  {
    if |s| > 0 {
      TightEscapes(s[1..]);
      assert Tight(Escape(s[0]));
    }
  }

  /** Compact text has no white space but what strings bring with them. */
  lemma {:induction false} CompactTight(t: Json)
    requires TightTree(t)
    ensures Tight(Print(t))
    decreases t, 1
  {
    hide EscapeAll, RenderElems, RenderFields, PrintInt, NumberToken;
    match t
    case Int(n) => NumeralToken(n);
    case Str(s) => TightEscapes(s);
    case Arr(xs) => CompactTightElems(xs);
    case Obj(fs) => CompactTightFields(fs);
    case _ =>
  }

  lemma {:induction false} CompactTightElems(xs: seq<Json>)
    requires forall i :: 0 <= i < |xs| ==> TightTree(xs[i])
    ensures Tight(RenderElems(Compact, xs))
    decreases xs, 0
  {
    hide Render;
    if |xs| > 0 {
      CompactTight(xs[0]);
      CompactTightElems(xs[1..]);
    }
  }

  lemma {:induction false} CompactTightFields(fs: seq<Field>)
    requires forall i :: 0 <= i < |fs| ==> Tight(fs[i].key) && TightTree(fs[i].value)
    ensures Tight(RenderFields(Compact, fs))
    decreases fs, 0
  {
    hide Render, EscapeAll;
    if |fs| > 0 {
      TightEscapes(fs[0].key);
      CompactTight(fs[0].value);
      CompactTightFields(fs[1..]);
    }
  }

  // ---------------------------------------------------------------- what an object holds

  /** The value a dict holds for a key: the last one given. */
  function Last(fs: seq<Field>, k: string): Option<Json> {
    if |fs| == 0 then None
    else if Last(fs[1..], k).Some? then Last(fs[1..], k)
    else if fs[0].key == k then Some(fs[0].value)
    else None
  }

  lemma {:induction false} LastIs(fs: seq<Field>, k: string)
    ensures Last(fs, k).Some? <==> exists i :: 0 <= i < |fs| && fs[i].key == k
    ensures Last(fs, k).Some? ==> exists i :: 0 <= i < |fs| && fs[i] == Field(k, Last(fs, k).value)
  {
    if |fs| > 0 {
      LastIs(fs[1..], k);
      if Last(fs[1..], k).Some? {
        var i :| 0 <= i < |fs| - 1 && fs[1..][i] == Field(k, Last(fs[1..], k).value);
        assert fs[i + 1] == Field(k, Last(fs, k).value);
      } else {
        assert forall i :: 0 < i < |fs| ==> fs[i] == fs[1..][i - 1];
      }
    }
  }

  predicate DistinctKeys(fs: seq<Field>) {
    forall p, q :: 0 <= p < q < |fs| ==> fs[p].key != fs[q].key
  }

  /** With distinct keys every field is the last of its key. */
  lemma LastOfDistinct(fs: seq<Field>, i: nat)
    requires i < |fs| && DistinctKeys(fs)
    ensures Last(fs, fs[i].key) == Some(fs[i].value)
  {
    LastIs(fs, fs[i].key);
  }

  // ---------------------------------------------------------------- truncated texts

  lemma {:induction false} SkipExtend(s: string, q: string)
    requires Skip(s) != ""
    ensures Skip(s + q) == Skip(s) + q
  {
    if IsSpace(s[0]) {
      SkipExtend(s[1..], q);
      assert (s + q)[1..] == s[1..] + q;
    }
  }

  lemma ParseCharExtend(s: string, q: string)
    requires ParseChar(s).Some?
    ensures ParseChar(s + q) == Some((ParseChar(s).value.0, ParseChar(s).value.1 + q))
  {
    hide CodePoint, Unescape;
    assert |s| >= 1 ==> (s + q)[1..] == s[1..] + q;
    assert |s| >= 2 ==> (s + q)[2..] == s[2..] + q;
    assert |s| >= 6 ==> (s + q)[6..] == s[6..] + q && (s + q)[2..6] == s[2..6];
  }

  lemma {:induction false} ParseCharsExtend(s: string, q: string)
    requires ParseChars(s).Some?
    ensures ParseChars(s + q) == Some((ParseChars(s).value.0, ParseChars(s).value.1 + q))
    decreases |s|
  {
    hide ParseChar;
    if |s| > 0 && s[0] == '\"' {
      assert (s + q)[1..] == s[1..] + q;
    } else {
      ParseCharExtend(s, q);
      ParseCharsExtend(ParseChar(s).value.1, q);
      CharsStart(s);
    }
  }

  lemma CharsStart(s: string)
    requires ParseChar(s).Some?
    ensures |s| > 0 && s[0] != '\"'
  {
  }

  lemma {:induction false} RunExtend(s: string, q: string)
    requires Run(s) < |s|
    ensures Run(s + q) == Run(s)
  {
    if IsNumberChar(s[0]) {
      RunExtend(s[1..], q);
      assert (s + q)[1..] == s[1..] + q;
    }
  }

  /** A number at the very end of a text might go on; nothing else does. */
  predicate Closed(t: Json, rest: string) {
    rest != "" || !(t.Int? || t.Real?)
  }

  lemma ParseNumberExtend(s: string, q: string)
    requires ParseNumber(s).Some? && ParseNumber(s).value.1 != ""
    ensures ParseNumber(s + q) == Some((ParseNumber(s).value.0, ParseNumber(s).value.1 + q))
  {
    hide NumberToken;
    RunExtend(s, q);
    var k := Run(s);
    assert (s + q)[..k] == s[..k] && (s + q)[k..] == s[k..] + q;
  }

  lemma {:induction false} ParseExtend(text: string, q: string)
    requires Parse(text).Some? && Closed(Parse(text).value.0, Parse(text).value.1)
    ensures Parse(text + q) == Some((Parse(text).value.0, Parse(text).value.1 + q))
    decreases |text|, 1
  {
    hide ParseNumber, ParseChars, ParseElems, ParseFields, Skip;
    var s := Skip(text);
    SkipExtend(text, q);
    assert (s + q)[0] == s[0] && (s + q)[1..] == s[1..] + q;
    if s[0] == 'n' || s[0] == 't' {
      assert (s + q)[4..] == s[4..] + q && (s + q)[..4] == s[..4];
    } else if s[0] == 'f' {
      assert (s + q)[5..] == s[5..] + q && (s + q)[..5] == s[..5];
    } else if s[0] == '\"' {
      ParseCharsExtend(s[1..], q);
    } else if s[0] == '[' {
      ParseArrayExtend(s[1..], q);
    } else if s[0] == '{' {
      ParseObjectExtend(s[1..], q);
    } else {
      NumberKind(s);
      ParseNumberExtend(s, q);
    }
  }

  lemma NumberKind(s: string)
    requires ParseNumber(s).Some?
    ensures ParseNumber(s).value.0.Int? || ParseNumber(s).value.0.Real?
  {
  }

  /** The part of an array after its bracket. */
  lemma {:induction false} ParseArrayExtend(s: string, q: string)
    requires StartsWith(Skip(s), ']') || ParseElems(s).Some?
    ensures StartsWith(Skip(s + q), ']') <==> StartsWith(Skip(s), ']')
    ensures StartsWith(Skip(s), ']') ==> Skip(s + q)[1..] == Skip(s)[1..] + q
    ensures ParseElems(s).Some? ==> ParseElems(s + q) == Some((ParseElems(s).value.0, ParseElems(s).value.1 + q))
    decreases |s|, 3
  {
    hide Parse, Skip;
    if Skip(s) == "" {
      NothingToParse(s);
    }
    SkipExtend(s, q);
    if StartsWith(Skip(s), ']') {
      assert (Skip(s) + q)[1..] == Skip(s)[1..] + q;
    }
    if ParseElems(s).Some? {
      ParseElemsExtend(s, q);
    }
  }

  lemma {:induction false} ParseObjectExtend(s: string, q: string)
    requires StartsWith(Skip(s), '}') || ParseFields(s).Some?
    ensures StartsWith(Skip(s + q), '}') <==> StartsWith(Skip(s), '}')
    ensures StartsWith(Skip(s), '}') ==> Skip(s + q)[1..] == Skip(s)[1..] + q
    ensures ParseFields(s).Some? ==> ParseFields(s + q) == Some((ParseFields(s).value.0, ParseFields(s).value.1 + q))
    decreases |s|, 4
  {
    hide Parse, Skip;
    if Skip(s) == "" {
      NothingToParse(s);
    }
    SkipExtend(s, q);
    if StartsWith(Skip(s), '}') {
      assert (Skip(s) + q)[1..] == Skip(s)[1..] + q;
    }
    if ParseFields(s).Some? {
      ParseFieldsExtend(s, q);
    }
  }

  lemma NothingToParse(s: string)
    requires Skip(s) == ""
    ensures ParseElems(s) == None && ParseFields(s) == None && Parse(s) == None && ParseField(s) == None
  {
  }

  lemma {:induction false} ParseElemsExtend(s: string, q: string)
    requires ParseElems(s).Some?
    ensures ParseElems(s + q) == Some((ParseElems(s).value.0, ParseElems(s).value.1 + q))
    decreases |s|, 2
  {
    hide Parse, Skip;
    var v := Parse(s).value;
    SkipOfEmpty();
    ParseExtend(s, q);
    SkipExtend(v.1, q);
    assert (Skip(v.1) + q)[0] == Skip(v.1)[0] && (Skip(v.1) + q)[1..] == Skip(v.1)[1..] + q;
    if StartsWith(Skip(v.1), ',') {
      ParseElemsExtend(Skip(v.1)[1..], q);
    }
  }

  lemma SkipOfEmpty()
    ensures Skip("") == ""
  {
  }

  lemma {:induction false} ParseFieldExtend(text: string, q: string)
    requires ParseField(text).Some? && ParseField(text).value.1 != ""
    ensures ParseField(text + q) == Some((ParseField(text).value.0, ParseField(text).value.1 + q))
    decreases |text|, 2
  {
    hide Parse, Skip, ParseChars;
    var s := Skip(text);
    SkipOfEmpty();
    SkipExtend(text, q);
    assert (s + q)[0] == s[0] && (s + q)[1..] == s[1..] + q;
    ParseCharsExtend(s[1..], q);
    var rest := ParseChars(s[1..]).value.1;
    SkipExtend(rest, q);
    assert (Skip(rest) + q)[0] == Skip(rest)[0] && (Skip(rest) + q)[1..] == Skip(rest)[1..] + q;
    ParseExtend(Skip(rest)[1..], q);
  }

  lemma {:induction false} ParseFieldsExtend(s: string, q: string)
    requires ParseFields(s).Some?
    ensures ParseFields(s + q) == Some((ParseFields(s).value.0, ParseFields(s).value.1 + q))
    decreases |s|, 3
  {
    hide ParseField, Skip;
    var f := ParseField(s).value;
    SkipOfEmpty();
    ParseFieldExtend(s, q);
    SkipExtend(f.1, q);
    assert (Skip(f.1) + q)[0] == Skip(f.1)[0] && (Skip(f.1) + q)[1..] == Skip(f.1)[1..] + q;
    if StartsWith(Skip(f.1), ',') {
      ParseFieldsExtend(Skip(f.1)[1..], q);
    }
  }

  /** No proper prefix of an object's text is a JSON text. */
  lemma TruncatedObject(style: Style, fs: seq<Field>, n: nat)
    requires Lexical(Obj(fs)) && n < |Render(style, Obj(fs))|
    ensures ParseText(Render(style, Obj(fs))[..n]) == None
  {
    hide Render, Lexical, ParseFields;
    var s := Render(style, Obj(fs));
    var p, q := s[..n], s[n..];
    assert s == p + q && s + "" == s;
    ParseRender(style, Obj(fs), "");
    if n == 0 {
      NothingToParse(p);
    } else {
      ObjectStart(style, fs);
      if Parse(p).Some? {
        ObjectOnly(p);
        ParseExtend(p, q);
      }
    }
  }

  lemma ObjectStart(style: Style, fs: seq<Field>)
    ensures Render(style, Obj(fs))[0] == '{'
  {
  }

  lemma ObjectOnly(s: string)
    requires StartsWith(s, '{') && Parse(s).Some?
    ensures Parse(s).value.0.Obj?
  {
  }
}
