/** The `Accept-Language` header (crates/axum-utils/src/language_detection.rs). Header values are
    sequences of bytes, written as characters. Locale parsing and printing are a parameter. A quality
    is an exact number of thousandths. */
module AcceptLanguage {
  import opened Text

  datatype Locales<!L> = Locales(parse: string -> Option<L>, print_: L -> string)

  predicate IsTagChar(c: char) {
    c == '-' || '0' <= c <= '9' || 'A' <= c <= 'Z' || 'a' <= c <= 'z'
  }

  /** What is asked of the locale library: printing is undone by parsing, printed locales are non-empty
      language tags, and the empty text is not a locale. */
  ghost predicate Lawful<L(!new)>(c: Locales<L>) {
    && c.parse("").None?
    && forall l: L :: IsTag(c.print_(l)) && c.parse(c.print_(l)) == Some(l)
  }

  predicate IsTag(s: string) { s != "" && forall i :: 0 <= i < |s| ==> IsTagChar(s[i]) }

  /** `None` is `*`. */
  datatype Part<L> = Part(locale: Option<L>, quality: nat)

  // ---------------------------------------------------------------- trimming

  predicate IsSpace(c: char) { c == ' ' || c == '\t' || c == '\n' || c == '\r' || c as int == 12 }

  /** White space is tab, line feed, form feed, carriage return and space. */
  lemma SpaceIff(c: char)
    ensures IsSpace(c) <==> c as int in {0x09, 0x0A, 0x0C, 0x0D, 0x20}
  {
  }

  predicate AllSpace(s: string) { forall i :: 0 <= i < |s| ==> IsSpace(s[i]) }

  predicate IsTrimmed(s: string) { s == "" || (!IsSpace(s[0]) && !IsSpace(s[|s| - 1])) }

  /** `trim_bytes`: the result is what is left between two runs of white space. */
  method TrimBytes(s: string) returns (bytes: string)
    ensures IsTrimmed(bytes)
    ensures exists i, j :: 0 <= i <= j <= |s| && bytes == s[i..j] && AllSpace(s[..i]) && AllSpace(s[j..])
  {
    bytes := s;
    ghost var i, j := 0, |s|;
    while bytes != "" && IsSpace(bytes[0])
      invariant 0 <= i <= |s| && bytes == s[i..] && AllSpace(s[..i])
      decreases |bytes|
    {
      assert s[..i + 1] == s[..i] + [s[i]];
      bytes := bytes[1..];
      i := i + 1;
    }
    while bytes != "" && IsSpace(bytes[|bytes| - 1])
      invariant 0 <= i <= j <= |s| && bytes == s[i..j] && AllSpace(s[..i]) && AllSpace(s[j..])
      invariant bytes != "" ==> !IsSpace(bytes[0])
      decreases |bytes|
    {
      assert s[j - 1..] == [s[j - 1]] + s[j..];
      bytes := bytes[..|bytes| - 1];
      j := j - 1;
    }
  }

  function Trim(s: string): string {
    if s != "" && IsSpace(s[0]) then Trim(s[1..])
    else if s != "" && IsSpace(s[|s| - 1]) then Trim(s[..|s| - 1])
    else s
  }

  /** There is only one way to trim. */
  lemma {:induction false} TrimIsUnique(s: string, i: nat, j: nat)
    requires i <= j <= |s| && AllSpace(s[..i]) && AllSpace(s[j..]) && IsTrimmed(s[i..j])
    ensures Trim(s) == s[i..j]
    decreases |s|
  {
    if s != "" && IsSpace(s[0]) {
      if i > 0 {
        assert s[1..][..i - 1] == s[..i][1..] && s[1..][j - 1..] == s[j..] && s[1..][i - 1..j - 1] == s[i..j];
        TrimIsUnique(s[1..], i - 1, j - 1);
      } else {
        SpaceOnly(s, i, j);
        assert s[1..][0..0] == s[i..j];
        TrimIsUnique(s[1..], 0, 0);
      }
    } else if s != "" && IsSpace(s[|s| - 1]) {
      NoLeadingSpace(s, i);
      assert s[0..|s|] == s;
      LastIsCut(s, i, j);
      assert s[..|s| - 1][..i] == s[..i] && s[..|s| - 1][i..j] == s[i..j];
      TrimIsUnique(s[..|s| - 1], i, j);
    } else {
      NoLeadingSpace(s, i);
      NoTrailingSpace(s, j);
      assert s[i..j] == s;
    }
  }

  lemma NoLeadingSpace(s: string, i: nat)
    requires i <= |s| && AllSpace(s[..i]) && (s != "" ==> !IsSpace(s[0]))
    ensures i == 0
  {
    FirstOfPrefix(s, i);
    assert s[0..i] == s[..i];
  }

  lemma LastIsCut(s: string, i: nat, j: nat)
    requires i <= j <= |s| && s != "" && AllSpace(s[j..]) && IsTrimmed(s[i..j]) && IsSpace(s[|s| - 1]) && !IsSpace(s[0])
    requires i == 0 && (j == |s| ==> s[i..j] == s)
    ensures j < |s| && AllSpace(s[..|s| - 1][j..])
  {
    assert s[..|s| - 1][j..] == s[j..|s| - 1];
    SpaceInside(s, j, |s| - 1);
  }

  lemma SpaceInside(s: string, j: nat, k: nat)
    requires j <= k <= |s| && AllSpace(s[j..])
    ensures AllSpace(s[j..k])
  {
    assert s[j..k] == s[j..][..k - j];
  }

  lemma NoTrailingSpace(s: string, j: nat)
    requires j <= |s| && AllSpace(s[j..]) && (s != "" ==> !IsSpace(s[|s| - 1]))
    ensures j == |s|
  {
    LastOfSuffix(s, j);
  }

  lemma LastOfSuffix(s: string, j: nat)
    requires j <= |s|
    ensures j < |s| ==> s[j..][|s| - 1 - j] == s[|s| - 1]
  {
  }

  lemma FirstOfPrefix(s: string, j: nat)
    requires j <= |s|
    ensures j > 0 ==> s[0..j][0] == s[0]
  {
  }

  lemma SpaceOnly(s: string, i: nat, j: nat)
    requires i == 0 && i <= j <= |s| && s != "" && IsSpace(s[0]) && AllSpace(s[j..]) && IsTrimmed(s[i..j])
    ensures s[i..j] == "" && AllSpace(s[1..][0..])
  {
    FirstOfPrefix(s, j);
    forall k | 0 <= k < |s[1..][0..]| ensures IsSpace(s[1..][0..][k]) {
      assert s[1..][0..][k] == s[j..][k + 1];
    }
  }

  // ---------------------------------------------------------------- qualities

  function Pow10(k: nat): (p: nat)
    ensures p > 0
  {
    if k == 0 then 1 else 10 * Pow10(k - 1)
  }

  /** A decimal fraction: its digits as one number, and the power of ten it is divided by. */
  datatype Fraction = Fraction(negative: bool, digits: nat, scale: nat)

  /** A decimal number without exponent: a sign, digits, a dot, digits, at least one digit in all. */
  function ParseNumber(s: string): Option<Fraction> {
    var body := if s != "" && (s[0] == '-' || s[0] == '+') then s[1..] else s;
    ParseUnsigned(s != "" && s[0] == '-', body)
  }

  function ParseUnsigned(negative: bool, body: string): Option<Fraction> {
    var pieces := Split(body, '.');
    if |pieces| > 2 then None
    else
      var whole, fraction := pieces[0], if |pieces| == 2 then pieces[1] else "";
      if whole + fraction == "" || !AllDigits(whole + fraction) then None
      else Some(Fraction(negative, NumberOf(whole + fraction), Pow10(|fraction|)))
  }

  /** How a number is written: a sign or none, digits, and perhaps a dot and more digits; at least one
      digit in all. */
  predicate IsNumber(s: string, sign: string, whole: string, dotted: bool, fraction: string) {
    && (sign == "" || sign == "+" || sign == "-") && AllDigits(whole + fraction) && whole + fraction != ""
    && (!dotted ==> fraction == "") && s == sign + Body(whole, dotted, fraction)
  }

  function Body(whole: string, dotted: bool, fraction: string): string {
    if dotted then whole + "." + fraction else whole
  }

  /** Exactly these texts are read, as the number they write. */
  lemma NumberIff(s: string)
    ensures ParseNumber(s).Some? <==>
      exists sign, whole, dotted, fraction :: IsNumber(s, sign, whole, dotted, fraction)
    ensures forall sign, whole, dotted, fraction :: IsNumber(s, sign, whole, dotted, fraction) ==>
      ParseNumber(s) == Some(Fraction(sign == "-", NumberOf(whole + fraction), Pow10(|fraction|)))
  {
    forall sign, whole, dotted, fraction | IsNumber(s, sign, whole, dotted, fraction)
      ensures ParseNumber(s) == Some(Fraction(sign == "-", NumberOf(whole + fraction), Pow10(|fraction|)))
    {
      NumberRead(s, sign, whole, dotted, fraction);
    }
    if ParseNumber(s).Some? {
      NumberWritten(s);
    }
  }

  lemma NumberWritten(s: string)
    requires ParseNumber(s).Some?
    ensures exists sign, whole, dotted, fraction :: IsNumber(s, sign, whole, dotted, fraction)
  {
    hide ParseUnsigned, AllDigits, Body;
    var signed := s != "" && (s[0] == '-' || s[0] == '+');
    var sign, body := if signed then s[..1] else "", if signed then s[1..] else s;
    var whole, dotted, fraction := UnsignedWritten(s != "" && s[0] == '-', body);
    assert s == sign + body;
    assert IsNumber(s, sign, whole, dotted, fraction);
  }

  lemma UnsignedWritten(negative: bool, body: string) returns (whole: string, dotted: bool, fraction: string)
    requires ParseUnsigned(negative, body).Some?
    ensures AllDigits(whole + fraction) && whole + fraction != "" && (!dotted ==> fraction == "")
    ensures body == Body(whole, dotted, fraction)
  {
    hide AllDigits, NumberOf, Pow10;
    var pieces := Split(body, '.');
    whole, dotted, fraction := pieces[0], |pieces| == 2, if |pieces| == 2 then pieces[1] else "";
    if dotted {
      assert pieces[1..] == [fraction] && Join([fraction], ".") == fraction;
    }
  }

  lemma NumberRead(s: string, sign: string, whole: string, dotted: bool, fraction: string)
    requires IsNumber(s, sign, whole, dotted, fraction)
    ensures ParseNumber(s) == Some(Fraction(sign == "-", NumberOf(whole + fraction), Pow10(|fraction|)))
  {
    hide ParseUnsigned, Body, NumberOf, Pow10, AllDigits;
    DigitsOnly(whole, fraction);
    UnsignedRead(sign == "-", whole, dotted, fraction);
    SignTaken(sign, Body(whole, dotted, fraction), s);
  }

  lemma SignTaken(sign: string, body: string, s: string)
    requires s == sign + body && (sign == "" || sign == "+" || sign == "-")
    requires body != "" && body[0] != '+' && body[0] != '-'
    ensures (s != "" && s[0] == '-') == (sign == "-")
    ensures (if s != "" && (s[0] == '-' || s[0] == '+') then s[1..] else s) == body
  {
    assert sign == "" ==> s == body;
  }

  lemma UnsignedRead(negative: bool, whole: string, dotted: bool, fraction: string)
    requires '.' !in whole && '.' !in fraction && (!dotted ==> fraction == "")
    requires AllDigits(whole) && AllDigits(whole + fraction) && whole + fraction != ""
    ensures var body := Body(whole, dotted, fraction);
      && body != "" && body[0] != '+' && body[0] != '-'
      && ParseUnsigned(negative, body) == Some(Fraction(negative, NumberOf(whole + fraction), Pow10(|fraction|)))
  {
    hide NumberOf, Pow10;
    if dotted {
      assert [whole, fraction][1..] == [fraction] && Join([fraction], ".") == fraction;
      SplitUndoesJoin([whole, fraction], '.');
    } else {
      assert Join([whole], ".") == whole;
      SplitUndoesJoin([whole], '.');
      assert whole + "" == whole;
    }
  }

  lemma DigitsOnly(whole: string, fraction: string)
    requires AllDigits(whole + fraction)
    ensures AllDigits(whole) && AllDigits(fraction) && '.' !in whole && '.' !in fraction
  {
    assert forall i :: 0 <= i < |whole| ==> whole[i] == (whole + fraction)[i];
    assert forall i :: 0 <= i < |fraction| ==> fraction[i] == (whole + fraction)[|whole| + i];
  }

  /** Clamped to [0, 1], then rounded to thousandths, half up. */
  function Thousandths(f: Fraction): (q: nat)
    requires f.scale > 0
    ensures q <= 1000
  {
    if f.negative then 0
    else if f.digits >= f.scale then 1000
    else
      RoundsBelow(f.digits, f.scale);
      (2000 * f.digits + f.scale) / (2 * f.scale)
  }

  lemma RoundsBelow(n: nat, d: nat)
    requires n < d
    ensures (2000 * n + d) / (2 * d) <= 1000
  {
    var r := (2000 * n + d) / (2 * d);
    assert r * (2 * d) <= 2000 * n + d;
    Monotone(r, 1001, 2 * d);
  }

  lemma Monotone(a: nat, b: nat, k: nat)
    ensures a >= b ==> a * k >= b * k
  {
  }

  /** The result is the number of thousandths nearest to the fraction, or to 0 or 1 if it is below or
      above. */
  lemma ThousandthsIsNearest(f: Fraction)
    requires f.scale > 0
    ensures var clamped := if f.negative then 0 else if f.digits > f.scale then f.scale else f.digits;
      var error := 1000 * clamped - Thousandths(f) * f.scale;
      0 <= 2 * error + f.scale < 2 * f.scale
  {
    if !f.negative && f.digits < f.scale {
      var d := f.scale;
      var n := 2000 * f.digits + d;
      assert n == (n / (2 * d)) * (2 * d) + n % (2 * d);
    }
  }

  /** A number of thousandths as a decimal number without trailing zeros. */
  function PrintQuality(q: nat): string {
    if q % 1000 == 0 then Decimal(q / 1000) else Decimal(q / 1000) + "." + PrintFraction(q % 1000)
  }

  function PrintFraction(r: nat): string
    requires r < 1000
  {
    if r % 100 == 0 then [Digit(r / 100)]
    else if r % 10 == 0 then [Digit(r / 100), Digit(r / 10 % 10)]
    else [Digit(r / 100), Digit(r / 10 % 10), Digit(r % 10)]
  }

  function ParseQuality(s: string): Option<nat> {
    if !("q=" <= s) then None
    else
      match ParseNumber(s[2..])
      case None => None
      case Some(f) => Some(Thousandths(f))
  }

  // ---------------------------------------------------------------- decoding

  function DecodeLocale<L>(c: Locales<L>, s: string): Option<Option<L>> {
    if Trim(s) == "*" then Some(None)
    else
      match c.parse(Trim(s))
      case None => None
      case Some(l) => Some(Some(l))
  }

  function DecodePart<L>(c: Locales<L>, part: string): Option<Part<L>> {
    var pieces := Split(part, ';');
    match DecodeLocale(c, pieces[0])
    case None => None
    case Some(locale) =>
      if |pieces| == 1 then Some(Part(locale, 1000))
      else
        match ParseQuality(Trim(pieces[1]))
        case None => None
        case Some(q) => if |pieces| > 2 then None else Some(Part(locale, q))
  }

  /** `text` is what is left of `s` without the white space around it. */
  ghost predicate Around(s: string, text: string) { IsTrimmed(text) && exists i, j :: AroundAt(s, text, i, j) }

  predicate AroundAt(s: string, text: string, i: nat, j: nat) {
    i <= j <= |s| && text == s[i..j] && AllSpace(s[..i]) && AllSpace(s[j..])
  }

  /** How a part is written: a locale or `*`, and perhaps a semicolon and a quality; white space around
      each. Without a quality it is 1. */
  ghost predicate IsPart<L>(c: Locales<L>, part: string, locale: string, quality: Option<string>, p: Part<L>) {
    && (exists a, b :: PartText(part, a, b, locale, quality))
    && (if locale == "*" then p.locale.None? else p.locale.Some? && c.parse(locale) == p.locale)
    && (if quality.Some?
        then ParseNumber(quality.value).Some? && p.quality == Thousandths(ParseNumber(quality.value).value)
        else p.quality == 1000)
  }

  ghost predicate PartText(part: string, a: string, b: string, locale: string, quality: Option<string>) {
    && Around(a, locale) && ';' !in a && ';' !in b
    && if quality.Some? then part == a + ";" + b && Around(b, "q=" + quality.value) else part == a
  }

  function DecodeParts<L>(c: Locales<L>, pieces: seq<string>): Option<seq<Part<L>>> {
    if pieces == [] then Some([])
    else
      match DecodeParts(c, pieces[..|pieces| - 1])
      case None => None
      case Some(parts) =>
        match DecodePart(c, pieces[|pieces| - 1])
        case None => None
        case Some(p) => Some(parts + [p])
  }

  /** The comma-separated pieces of all header lines, in order. */
  function Pieces(values: seq<string>): seq<string> {
    if values == [] then [] else Pieces(values[..|values| - 1]) + Split(values[|values| - 1], ',')
  }

  function Rank<L>(p: Part<L>): int { 0 - p.quality }

  function Decode<L>(c: Locales<L>, values: seq<string>): Option<seq<Part<L>>> {
    match DecodeParts(c, Pieces(values))
    case None => None
    case Some(parts) => Some(StableSort(parts, Rank))
  }

  function Iter<L>(parts: seq<Part<L>>): seq<L> {
    if parts == [] || parts[0].locale.None? then [] else [parts[0].locale.value] + Iter(parts[1..])
  }

  // ---------------------------------------------------------------- encoding

  function EncodePart<L>(c: Locales<L>, p: Part<L>): string {
    (if p.locale.Some? then c.print_(p.locale.value) else "*")
    + if p.quality != 1000 then ";q=" + PrintQuality(p.quality) else ""
  }

  function Encoded<L>(c: Locales<L>, parts: seq<Part<L>>): (r: seq<string>)
    ensures |r| == |parts| && forall i :: 0 <= i < |parts| ==> r[i] == EncodePart(c, parts[i])
  {
    seq(|parts|, i requires 0 <= i < |parts| => EncodePart(c, parts[i]))
  }

  function Encode<L>(c: Locales<L>, parts: seq<Part<L>>): string { Join(Encoded(c, parts), ", ") }

  // ---------------------------------------------------------------- qualities round trip

  lemma ParseWhole(w: string)
    requires w != "" && AllDigits(w)
    ensures ParseNumber(w) == Some(Fraction(false, NumberOf(w), 1))
  {
    assert Join([w], ".") == w;
    SplitUndoesJoin([w], '.');
    assert w + "" == w;
  }

  lemma ParseDecimal(w: string, f: string)
    requires w != "" && AllDigits(w) && AllDigits(f)
    ensures AllDigits(w + f)
    ensures ParseNumber(w + "." + f) == Some(Fraction(false, NumberOf(w + f), Pow10(|f|)))
  {
    assert [w, f][1..] == [f];
    assert Join([w, f], ".") == w + "." + f;
    SplitUndoesJoin([w, f], '.');
    assert (w + "." + f)[0] == w[0];
  }

  lemma FractionDigits(r: nat)
    requires r < 1000
    ensures var f := PrintFraction(r);
      1 <= |f| <= 3 && AllDigits(f) && NumberOf(f) * 1000 == r * Pow10(|f|)
  {
    var a, b, c := r / 100, r / 10 % 10, r % 10;
    assert r == 100 * a + 10 * b + c;
    ThreeDigits(a, b, c);
    SmallPowers();
    if r % 100 == 0 {
      assert b == 0 && c == 0;
    } else if r % 10 == 0 {
      assert c == 0;
    }
    hide Digit, NumberOf, Pow10, AllDigits;
  }

  lemma ThreeDigits(a: nat, b: nat, c: nat)
    requires a < 10 && b < 10 && c < 10
    ensures AllDigits([Digit(a)]) && NumberOf([Digit(a)]) == a
    ensures AllDigits([Digit(a), Digit(b)]) && NumberOf([Digit(a), Digit(b)]) == 10 * a + b
    ensures AllDigits([Digit(a), Digit(b), Digit(c)])
    ensures NumberOf([Digit(a), Digit(b), Digit(c)]) == 100 * a + 10 * b + c
  {
    EmptyIsZero();
    hide Digit, NumberOf, AllDigits;
    NumberOfSnoc("", a);
    assert "" + [Digit(a)] == [Digit(a)];
    NumberOfSnoc([Digit(a)], b);
    assert [Digit(a)] + [Digit(b)] == [Digit(a), Digit(b)];
    NumberOfSnoc([Digit(a), Digit(b)], c);
    assert [Digit(a), Digit(b)] + [Digit(c)] == [Digit(a), Digit(b), Digit(c)];
  }

  lemma EmptyIsZero()
    ensures AllDigits("") && NumberOf("") == 0
  {
  }

  lemma SmallPowers()
    ensures Pow10(1) == 10 && Pow10(2) == 100 && Pow10(3) == 1000
  {
  }

  lemma ExactThousandths(n: nat, scale: nat, r: nat)
    requires scale == 10 || scale == 100 || scale == 1000
    requires r < 1000 && n * 1000 == r * scale
    ensures Thousandths(Fraction(false, n, scale)) == r
  {
  }

  lemma {:induction false} LeadingZero(f: string)
    requires AllDigits(f)
    ensures AllDigits("0" + f) && NumberOf("0" + f) == NumberOf(f)
  {
    if f != "" {
      LeadingZero(f[..|f| - 1]);
      assert ("0" + f)[..|"0" + f| - 1] == "0" + f[..|f| - 1];
    }
  }

  lemma FractionRoundTrip(r: nat)
    requires r < 1000
    ensures ParseQuality("q=" + ("0" + "." + PrintFraction(r))) == Some(r)
  {
    var f := PrintFraction(r);
    var s := "0" + "." + f;
    assert ("q=" + s)[2..] == s && "q=" <= "q=" + s;
    FractionDigits(r);
    SmallPowers();
    LeadingZero(f);
    ParseDecimal("0", f);
    hide PrintFraction, ParseNumber, NumberOf, Pow10, Thousandths;
    ExactThousandths(NumberOf("0" + f), Pow10(|f|), r);
  }

  /** Every number of thousandths up to 1000 survives printing and parsing. */
  lemma QualityRoundTrip(q: nat)
    requires q <= 1000
    ensures ParseQuality("q=" + PrintQuality(q)) == Some(q)
  {
    hide ParseQuality, PrintFraction;
    assert Decimal(0) == "0" && Decimal(1) == "1";
    if q == 0 || q == 1000 {
      WholeRoundTrip();
    } else {
      FractionRoundTrip(q);
    }
  }

  lemma WholeRoundTrip()
    ensures ParseQuality("q=" + "0") == Some(0) && ParseQuality("q=" + "1") == Some(1000)
  {
    assert ("q=" + "0")[2..] == "0" && ("q=" + "1")[2..] == "1";
    ParseWhole("0");
    ParseWhole("1");
    assert "0"[..0] == "" && "1"[..0] == "";
    assert NumberOf("0") == 0 && NumberOf("1") == 1;
  }

  // ---------------------------------------------------------------- parts round trip

  predicate Plain(s: string) { forall i :: 0 <= i < |s| ==> s[i] != ',' && s[i] != ';' && !IsSpace(s[i]) }

  lemma PrintedQualityIsPlain(q: nat)
    ensures Plain(PrintQuality(q))
  {
    DecimalIsNumber(q / 1000);
    FractionDigits(q % 1000);
    hide Decimal, PrintFraction, NumberOf;
  }

  function LocaleText<L>(c: Locales<L>, p: Part<L>): string {
    if p.locale.Some? then c.print_(p.locale.value) else "*"
  }

  lemma LocaleRoundTrip<L(!new)>(c: Locales<L>, p: Part<L>, lead: string)
    requires Lawful(c) && AllSpace(lead)
    ensures LocaleText(c, p) != "" && Plain(LocaleText(c, p))
    ensures DecodeLocale(c, lead + LocaleText(c, p)) == Some(p.locale)
  {
    var text := LocaleText(c, p);
    assert p.locale.Some? ==> IsTag(text) && c.parse(text) == p.locale;
    assert forall i :: 0 <= i < |text| ==> !IsSpace(text[i]);
    assert (lead + text)[|lead|..|lead + text|] == text && (lead + text)[..|lead|] == lead;
    TrimIsUnique(lead + text, |lead|, |lead + text|);
  }

  lemma PartRoundTrip<L(!new)>(c: Locales<L>, p: Part<L>, lead: string)
    requires Lawful(c) && p.quality <= 1000 && AllSpace(lead)
    ensures ',' !in EncodePart(c, p)
    ensures DecodePart(c, lead + EncodePart(c, p)) == Some(p)
  {
    hide DecodeLocale, PrintQuality, ParseQuality, Trim, Lawful, Split;
    LocaleRoundTrip(c, p, lead);
    var text := LocaleText(c, p);
    hide LocaleText;
    assert ';' !in lead + text;
    EncodedPart(c, p);
    hide EncodePart;
    if p.quality == 1000 {
      assert Join([lead + text], ";") == lead + text;
      SplitUndoesJoin([lead + text], ';');
    } else {
      QualityRoundTrip(p.quality);
      PrintedQualityIsPlain(p.quality);
      var q := "q=" + PrintQuality(p.quality);
      TwoPieces(lead + text, q);
      assert lead + (text + ";" + q) == lead + text + ";" + q;
      assert q[0..|q|] == q && q[..0] == "" && q[|q|..] == "";
      TrimIsUnique(q, 0, |q|);
    }
  }

  lemma EncodedPart<L>(c: Locales<L>, p: Part<L>)
    ensures p.quality == 1000 ==> EncodePart(c, p) == LocaleText(c, p)
    ensures p.quality != 1000 ==> EncodePart(c, p) == LocaleText(c, p) + ";" + ("q=" + PrintQuality(p.quality))
  {
    hide PrintQuality;
    assert ";q=" + PrintQuality(p.quality) == ";" + ("q=" + PrintQuality(p.quality));
  }

  lemma TwoPieces(a: string, b: string)
    requires ';' !in a && ';' !in b
    ensures Split(a + ";" + b, ';') == [a, b]
  {
    assert [a, b][1..] == [b];
    assert Join([a, b], ";") == a + ";" + b;
    SplitUndoesJoin([a, b], ';');
  }

  // ---------------------------------------------------------------- headers round trip

  /** The pieces with a space in front. */
  function Lead(ps: seq<string>): (r: seq<string>)
    ensures |r| == |ps| && forall i :: 0 <= i < |ps| ==> r[i] == " " + ps[i]
  {
    seq(|ps|, i requires 0 <= i < |ps| => " " + ps[i])
  }

  lemma {:induction false} LeadJoin(ps: seq<string>)
    requires ps != []
    ensures " " + Join(ps, ", ") == Join(Lead(ps), ",")
  {
    if |ps| > 1 {
      LeadJoin(ps[1..]);
      assert Lead(ps)[1..] == Lead(ps[1..]);
      calc {
        " " + Join(ps, ", ");
        " " + (ps[0] + ", " + Join(ps[1..], ", "));
        " " + ps[0] + "," + (" " + Join(ps[1..], ", "));
      }
    }
  }

  function Spaced(ps: seq<string>): (r: seq<string>)
    requires ps != []
  {
    [ps[0]] + Lead(ps[1..])
  }

  lemma SpacedJoin(ps: seq<string>)
    requires ps != []
    ensures Join(ps, ", ") == Join(Spaced(ps), ",")
  {
    if |ps| == 1 {
      assert Spaced(ps) == ps;
    } else {
      LeadJoin(ps[1..]);
      assert Spaced(ps)[1..] == Lead(ps[1..]);
      calc {
        Join(ps, ", ");
        ps[0] + ", " + Join(ps[1..], ", ");
        ps[0] + "," + (" " + Join(ps[1..], ", "));
      }
    }
  }

  lemma {:induction false} DecodePiecewise<L>(c: Locales<L>, pieces: seq<string>, parts: seq<Part<L>>)
    requires |pieces| == |parts| && forall i :: 0 <= i < |parts| ==> DecodePart(c, pieces[i]) == Some(parts[i])
    ensures DecodeParts(c, pieces) == Some(parts)
  {
    hide DecodePart;
    if parts != [] {
      DecodePiecewise(c, pieces[..|pieces| - 1], parts[..|parts| - 1]);
      assert parts[..|parts| - 1] + [parts[|parts| - 1]] == parts;
    }
  }

  lemma {:induction false} QualitiesAreBounded<L>(c: Locales<L>, pieces: seq<string>)
    requires DecodeParts(c, pieces).Some?
    ensures forall p :: p in DecodeParts(c, pieces).value ==> p.quality <= 1000
  {
    hide DecodeLocale, ParseNumber, Thousandths, Trim;
    if pieces != [] {
      QualitiesAreBounded(c, pieces[..|pieces| - 1]);
    }
  }

  /** Fit to be a decoded header: qualities of at most 1, best first. */
  ghost predicate Ordered<L(!new)>(parts: seq<Part<L>>) {
    && (forall i :: 0 <= i < |parts| ==> parts[i].quality <= 1000)
    && forall i, j :: 0 <= i < j < |parts| ==> parts[i].quality >= parts[j].quality
  }

  lemma SortKeepsOrdered<L(!new)>(parts: seq<Part<L>>)
    requires Ordered(parts)
    ensures StableSort(parts, Rank) == parts
  {
    assert Ascending(parts, Rank);
    assert StablySorted(parts, Rank, parts);
    StableSortIsUnique(parts, Rank, parts);
  }

  /** Whatever is decoded is ordered; equal qualities stay in header order, across lines. */
  lemma DecodeSorts<L(!new)>(c: Locales<L>, values: seq<string>)
    requires Decode(c, values).Some?
    ensures Ordered(Decode(c, values).value)
    ensures var parts := DecodeParts(c, Pieces(values));
      parts.Some? && StablySorted(parts.value, Rank, Decode(c, values).value)
  {
    var parts := DecodeParts(c, Pieces(values)).value;
    var r := StableSort(parts, Rank);
    SortIsStable(parts, Rank);
    QualitiesAreBounded(c, Pieces(values));
    forall i | 0 <= i < |r| ensures r[i].quality <= 1000 {
      assert r[i] in multiset(r);
      assert r[i] in parts;
    }
    forall i, j | 0 <= i < j < |r| ensures r[i].quality >= r[j].quality {
      assert Rank(r[i]) <= Rank(r[j]);
    }
  }

  lemma EncodedPieces<L(!new)>(c: Locales<L>, parts: seq<Part<L>>)
    requires Lawful(c) && parts != [] && forall i :: 0 <= i < |parts| ==> parts[i].quality <= 1000
    ensures DecodeParts(c, Pieces([Encode(c, parts)])) == Some(parts)
  {
    hide DecodePart, EncodePart, DecodeParts, Split, Lawful;
    var es := Encoded(c, parts);
    var pieces := Spaced(es);
    forall i | 0 <= i < |parts| ensures ',' !in pieces[i] && DecodePart(c, pieces[i]) == Some(parts[i]) {
      var lead := if i == 0 then "" else " ";
      PartRoundTrip(c, parts[i], lead);
      assert pieces[i] == lead + es[i];
    }
    SpacedJoin(es);
    SplitUndoesJoin(pieces, ',');
    OneLine(Encode(c, parts));
    DecodePiecewise(c, pieces, parts);
  }

  lemma OneLine(value: string)
    ensures Pieces([value]) == Split(value, ',')
  {
    assert [value][..0] == [];
    assert Pieces([]) == [];
  }

  /** Decoding undoes encoding exactly for the non-empty values that decoding can produce. */
  lemma RoundTripIff<L(!new)>(c: Locales<L>, parts: seq<Part<L>>)
    requires Lawful(c)
    ensures Decode(c, [Encode(c, parts)]) == Some(parts) <==> parts != [] && Ordered(parts)
  {
    if parts != [] && Ordered(parts) {
      EncodedPieces(c, parts);
      SortKeepsOrdered(parts);
    }
    if Decode(c, [Encode(c, parts)]) == Some(parts) {
      DecodeSorts(c, [Encode(c, parts)]);
      EmptyIsInvalid(c);
    }
  }

  /** An empty header line is an error. */
  lemma EmptyIsInvalid<L(!new)>(c: Locales<L>)
    requires Lawful(c)
    ensures Decode(c, [Encode(c, [])]).None?
  {
    assert Encode(c, []) == "";
    OneLine("");
    assert Split("", ',') == [""] && Split("", ';') == [""];
    assert Trim("") == "";
    assert DecodePart(c, "").None?;
    assert [""][..0] == [];
    assert DecodeParts(c, [""]).None?;
  }

  lemma {:induction false} LinesArePieces(values: seq<string>)
    requires values != []
    ensures Pieces(values) == Split(Join(values, ","), ',')
  {
    var front, last := values[..|values| - 1], values[|values| - 1];
    if front == [] {
      OneLine(last);
      assert values == [last];
    } else {
      LinesArePieces(front);
      assert values == front + [last];
      JoinAppend(front, [last], ",");
      SplitAcrossSeparator(Join(front, ","), last, ',');
    }
  }

  /** Several header lines mean what one line with all of them, joined by commas, means. */
  lemma LinesCombine<L(!new)>(c: Locales<L>, values: seq<string>)
    requires values != []
    ensures Decode(c, values) == Decode(c, [Join(values, ",")])
  {
    LinesArePieces(values);
    OneLine(Join(values, ","));
  }

  /** `iter` yields the locales before the first `*`. */
  lemma {:induction false} IterStopsAtStar<L>(parts: seq<Part<L>>)
    ensures var n := |Iter(parts)|;
      && n <= |parts|
      && (forall i :: 0 <= i < n ==> parts[i].locale == Some(Iter(parts)[i]))
      && (n < |parts| ==> parts[n].locale.None?)
  {
    if parts != [] && parts[0].locale.Some? {
      IterStopsAtStar(parts[1..]);
    }
  }

  // ---------------------------------------------------------------- the loops

  method DecodeOne<L>(c: Locales<L>, part: string) returns (r: Option<Part<L>>)
    ensures r == DecodePart(c, part)
  {
    var it := Split(part, ';');
    var text := TrimBytes(it[0]);
    TrimmedText(it[0], text);
    var locale := None;
    if text != "*" {
      var parsed := c.parse(text);
      if parsed.None? { return None; }
      locale := Some(parsed.value);
    }
    if |it| == 1 { return Some(Part(locale, 1000)); }
    var quality := TrimBytes(it[1]);
    TrimmedText(it[1], quality);
    var q := ParseQuality(quality);
    if q.None? || |it| > 2 { return None; }
    return Some(Part(locale, q.value));
  }

  lemma TrimmedText(s: string, t: string)
    requires IsTrimmed(t)
    requires exists i, j :: 0 <= i <= j <= |s| && t == s[i..j] && AllSpace(s[..i]) && AllSpace(s[j..])
    ensures t == Trim(s)
  {
    var i, j :| 0 <= i <= j <= |s| && t == s[i..j] && AllSpace(s[..i]) && AllSpace(s[j..]);
    TrimIsUnique(s, i, j);
  }

  lemma {:induction false} TrimIsAround(s: string)
    ensures Around(s, Trim(s))
    decreases |s|
  {
    hide Around;
    if s != "" && IsSpace(s[0]) {
      TrimIsAround(s[1..]);
      SpaceInFront(s, Trim(s));
    } else if s != "" && IsSpace(s[|s| - 1]) {
      TrimIsAround(s[..|s| - 1]);
      SpaceBehind(s, Trim(s));
    } else {
      NoSpaceAround(s);
    }
  }

  lemma NoSpaceAround(s: string)
    requires IsTrimmed(s)
    ensures Around(s, s)
  {
    assert s[0..|s|] == s && s[..0] == "" && s[|s|..] == "";
    assert AroundAt(s, s, 0, |s|);
  }

  lemma SpaceInFront(s: string, text: string)
    requires s != "" && IsSpace(s[0]) && Around(s[1..], text)
    ensures Around(s, text)
  {
    hide IsTrimmed, AroundAt;
    var i, j :| AroundAt(s[1..], text, i, j);
    OneInFront(s, text, i, j);
  }

  lemma OneInFront(s: string, text: string, i: nat, j: nat)
    requires s != "" && IsSpace(s[0]) && AroundAt(s[1..], text, i, j)
    ensures AroundAt(s, text, i + 1, j + 1)
  {
    hide IsSpace;
    var rest := s[1..];
    assert s[i + 1..j + 1] == rest[i..j] && s[j + 1..] == rest[j..];
    var lead := s[..i + 1];
    forall k | 0 <= k < |lead| ensures IsSpace(lead[k]) {
      assert k > 0 ==> lead[k] == rest[..i][k - 1];
    }
  }

  lemma SpaceBehind(s: string, text: string)
    requires s != "" && IsSpace(s[|s| - 1]) && Around(s[..|s| - 1], text)
    ensures Around(s, text)
  {
    hide IsTrimmed, AroundAt;
    var i, j :| AroundAt(s[..|s| - 1], text, i, j);
    OneBehind(s, text, i, j);
  }

  lemma OneBehind(s: string, text: string, i: nat, j: nat)
    requires s != "" && IsSpace(s[|s| - 1]) && AroundAt(s[..|s| - 1], text, i, j)
    ensures AroundAt(s, text, i, j)
  {
    hide IsSpace;
    var rest := s[..|s| - 1];
    assert s[i..j] == rest[i..j] && s[..i] == rest[..i];
    forall k | 0 <= k < |s[j..]| ensures IsSpace(s[j..][k]) {
      assert k < |rest[j..]| ==> s[j..][k] == rest[j..][k];
    }
  }

  lemma AroundIff(s: string, text: string)
    ensures Around(s, text) <==> text == Trim(s)
  {
    TrimIsAround(s);
    if Around(s, text) {
      var i, j :| AroundAt(s, text, i, j);
      TrimIsUnique(s, i, j);
    }
  }

  /** Exactly the parts written like this are decoded. */
  lemma PartIff<L(!new)>(c: Locales<L>, part: string, p: Part<L>)
    ensures DecodePart(c, part) == Some(p) <==> exists locale, quality :: IsPart(c, part, locale, quality, p)
  {
    hide Trim, Around, ParseNumber, Thousandths, Split;
    if DecodePart(c, part) == Some(p) {
      PartWrittenSo(c, part, p);
    }
    if locale, quality :| IsPart(c, part, locale, quality, p) {
      PartReadSo(c, part, locale, quality, p);
    }
  }

  lemma PartWrittenSo<L(!new)>(c: Locales<L>, part: string, p: Part<L>)
    requires DecodePart(c, part) == Some(p)
    ensures exists locale, quality :: IsPart(c, part, locale, quality, p)
  {
    hide Trim, Around, ParseNumber, Thousandths, Split;
    var pieces := Split(part, ';');
    var a, b := pieces[0], if |pieces| == 1 then "" else pieces[1];
    AroundIff(a, Trim(a));
    if |pieces| == 1 {
      assert pieces == [a] && Join([a], ";") == a;
      assert PartText(part, a, b, Trim(a), None);
      assert IsPart(c, part, Trim(a), None, p);
    } else {
      AroundIff(b, Trim(b));
      var number := Trim(b)[2..];
      assert Trim(b) == "q=" + number;
      assert pieces == [a, b] && pieces[1..] == [b] && Join([b], ";") == b;
      assert part == a + ";" + b;
      assert PartText(part, a, b, Trim(a), Some(number));
      assert IsPart(c, part, Trim(a), Some(number), p);
    }
  }

  lemma PartReadSo<L(!new)>(c: Locales<L>, part: string, locale: string, quality: Option<string>, p: Part<L>)
    requires IsPart(c, part, locale, quality, p)
    ensures DecodePart(c, part) == Some(p)
  {
    hide Trim, Around, ParseNumber, Thousandths, Split;
    var a, b :| PartText(part, a, b, locale, quality);
    AroundIff(a, locale);
    if quality.Some? {
      var q := "q=" + quality.value;
      AroundIff(b, q);
      TwoPieces(a, b);
      assert "q=" <= q && q[2..] == quality.value;
    } else {
      assert Join([a], ";") == a;
      SplitUndoesJoin([a], ';');
    }
  }

  /** All lines together are decoded if and only if each of their pieces is, into the same number of parts. */
  lemma {:induction false} PartsIff<L>(c: Locales<L>, pieces: seq<string>, parts: seq<Part<L>>)
    ensures DecodeParts(c, pieces) == Some(parts) <==>
      |parts| == |pieces| && forall i :: 0 <= i < |pieces| ==> DecodePart(c, pieces[i]) == Some(parts[i])
  {
    hide DecodePart;
    if pieces != [] && parts != [] {
      PartsIff(c, pieces[..|pieces| - 1], parts[..|parts| - 1]);
      assert parts == parts[..|parts| - 1] + [parts[|parts| - 1]];
      var all := DecodeParts(c, pieces);
      if all == Some(parts) {
        assert DecodeParts(c, pieces[..|pieces| - 1]).value == parts[..|parts| - 1];
      }
    }
  }

  /** A header of three parts, of which the second is the best. */
  lemma HeaderExample<L(!new)>(c: Locales<L>, french: L, english: L)
    requires Lawful(c) && c.print_(french) == "fr" && c.print_(english) == "en-US"
    ensures Decode(c, ["fr;q=0.8, en-US, *;q=0.5"])
         == Some([Part(Some(english), 1000), Part(Some(french), 800), Part(None, 500)])
  {
    var a, b, d: Part<L> := Part(Some(french), 800), Part(Some(english), 1000), Part(None, 500);
    ExampleText(c, a, b, d);
    EncodedPieces(c, [a, b, d]);
    hide Encode, DecodeParts, Lawful, StableSort, Pieces;
    SecondIsBest(a, b, d);
  }

  lemma SecondIsBest<L>(a: Part<L>, b: Part<L>, d: Part<L>)
    requires b.quality > a.quality > d.quality
    ensures StableSort([a, b, d], Rank) == [b, a, d]
  {
    assert [a, b, d][1..] == [b, d] && [b, d][1..] == [d] && [d][1..] == [];
    assert StableSort([d], Rank) == [d];
    assert StableSort([b, d], Rank) == [b, d];
    assert Insert(a, [d], Rank) == [a, d];
    assert Insert(a, [b, d], Rank) == [b] + Insert(a, [d], Rank);
  }

  lemma ExampleText<L>(c: Locales<L>, a: Part<L>, b: Part<L>, d: Part<L>)
    requires a.locale.Some? && c.print_(a.locale.value) == "fr" && a.quality == 800
    requires b.locale.Some? && c.print_(b.locale.value) == "en-US" && b.quality == 1000
    requires d == Part(None, 500)
    ensures Encode(c, [a, b, d]) == "fr;q=0.8, en-US, *;q=0.5"
  {
    ExampleParts(c, a, b, d);
    hide EncodePart;
    var es := Encoded(c, [a, b, d]);
    assert es == [es[0], es[1], es[2]];
    JoinOfThree(es[0], es[1], es[2]);
  }

  lemma ExampleParts<L>(c: Locales<L>, a: Part<L>, b: Part<L>, d: Part<L>)
    requires a.locale.Some? && c.print_(a.locale.value) == "fr" && a.quality == 800
    requires b.locale.Some? && c.print_(b.locale.value) == "en-US" && b.quality == 1000
    requires d == Part(None, 500)
    ensures EncodePart(c, a) == "fr;q=0.8" && EncodePart(c, b) == "en-US" && EncodePart(c, d) == "*;q=0.5"
  {
    assert Decimal(0) == "0";
    assert PrintQuality(800) == "0.8" && PrintQuality(500) == "0.5";
    hide PrintQuality;
  }

  lemma JoinOfThree(a: string, b: string, c: string)
    ensures Join([a, b, c], ", ") == a + ", " + (b + ", " + c)
  {
    assert [a, b, c][1..] == [b, c] && [b, c][1..] == [c];
    assert Join([c], ", ") == c && Join([b, c], ", ") == b + ", " + c;
  }

  lemma {:induction false} DecodeFailure<L>(c: Locales<L>, pieces: seq<string>, n: nat)
    requires n <= |pieces| && DecodeParts(c, pieces[..n]).None?
    ensures DecodeParts(c, pieces).None?
  {
    if n < |pieces| {
      assert pieces[..|pieces| - 1][..n] == pieces[..n];
      DecodeFailure(c, pieces[..|pieces| - 1], n);
    } else {
      assert pieces[..n] == pieces;
    }
  }

  lemma {:induction false} PiecesPrefix(values: seq<string>, n: nat)
    requires n <= |values|
    ensures Pieces(values[..n]) <= Pieces(values)
  {
    if n < |values| {
      assert values[..|values| - 1][..n] == values[..n];
      PiecesPrefix(values[..|values| - 1], n);
    } else {
      assert values[..n] == values;
    }
  }

  method DecodeHeader<L>(c: Locales<L>, values: seq<string>) returns (r: Option<seq<Part<L>>>)
    ensures r == Decode(c, values)
  {
    hide DecodePart, StableSort, Split;
    var parts: seq<Part<L>> := [];
    for i := 0 to |values|
      invariant DecodeParts(c, Pieces(values[..i])) == Some(parts)
    {
      var more := DecodeLine(c, Pieces(values[..i]), parts, values[i]);
      assert values[..i + 1][..i] == values[..i];
      if more.None? {
        PiecesPrefix(values, i + 1);
        assert Pieces(values)[..|Pieces(values[..i + 1])|] == Pieces(values[..i + 1]);
        DecodeFailure(c, Pieces(values), |Pieces(values[..i + 1])|);
        return None;
      }
      parts := more.value;
    }
    assert values[..|values|] == values;
    return Some(StableSort(parts, Rank));
  }

  method DecodeLine<L>(c: Locales<L>, ghost before: seq<string>, parts: seq<Part<L>>, value: string)
    returns (r: Option<seq<Part<L>>>)
    requires DecodeParts(c, before) == Some(parts)
    ensures r == DecodeParts(c, before + Split(value, ','))
  {
    hide DecodePart, Split, DecodeParts;
    var pieces := Split(value, ',');
    var all := parts;
    assert before + pieces[..0] == before;
    for j := 0 to |pieces|
      invariant DecodeParts(c, before + pieces[..j]) == Some(all)
    {
      var part := DecodeOne(c, pieces[j]);
      DecodeNext(c, before, pieces, j, all);
      if part.None? {
        return None;
      }
      all := all + [part.value];
    }
    assert pieces[..|pieces|] == pieces;
    return Some(all);
  }

  lemma DecodeNext<L>(c: Locales<L>, before: seq<string>, pieces: seq<string>, j: nat, all: seq<Part<L>>)
    requires j < |pieces| && DecodeParts(c, before + pieces[..j]) == Some(all)
    ensures DecodePart(c, pieces[j]).None? ==> DecodeParts(c, before + pieces).None?
    ensures DecodePart(c, pieces[j]).Some? ==>
      DecodeParts(c, before + pieces[..j + 1]) == Some(all + [DecodePart(c, pieces[j]).value])
  {
    hide DecodePart;
    var upTo := before + pieces[..j + 1];
    assert upTo[..|upTo| - 1] == before + pieces[..j] && upTo[|upTo| - 1] == pieces[j];
    if DecodePart(c, pieces[j]).None? {
      assert (before + pieces)[..|upTo|] == upTo;
      DecodeFailure(c, before + pieces, |upTo|);
    }
  }

  lemma {:induction false} JoinSnoc(pieces: seq<string>, last: string, glue: string)
    ensures Join(pieces + [last], glue) == if pieces == [] then last else Join(pieces, glue) + glue + last
  {
    if pieces == [] {
      assert pieces + [last] == [last];
    } else {
      JoinAppend(pieces, [last], glue);
    }
  }

  lemma NothingEncoded<L>(c: Locales<L>, parts: seq<Part<L>>)
    requires parts == []
    ensures Encode(c, parts) == ""
  {
  }

  method EncodeHeader<L>(c: Locales<L>, parts: seq<Part<L>>) returns (value: string)
    ensures value == Encode(c, parts)
  {
    hide PrintQuality, Encode;
    value := "";
    NothingEncoded(c, parts[..0]);
    var first := true;
    for i := 0 to |parts|
      invariant value == Encode(c, parts[..i]) && first == (i == 0)
    {
      if first {
        first := false;
      } else {
        value := value + ", ";
      }
      ghost var lead := value;
      if parts[i].locale.Some? {
        value := value + c.print_(parts[i].locale.value);
      } else {
        value := value + "*";
      }
      if parts[i].quality != 1000 {
        value := value + ";q=";
        value := value + PrintQuality(parts[i].quality);
      }
      PartWritten(c, parts[i], lead, value);
      EncodeSnoc(c, parts, i);
    }
    assert parts[..|parts|] == parts;
  }

  /** The statements of the loop write one part. */
  lemma PartWritten<L>(c: Locales<L>, p: Part<L>, lead: string, value: string)
    requires var named := lead + if p.locale.Some? then c.print_(p.locale.value) else "*";
      value == if p.quality != 1000 then named + ";q=" + PrintQuality(p.quality) else named
    ensures value == lead + EncodePart(c, p)
  {
    hide PrintQuality;
  }

  lemma EncodeSnoc<L>(c: Locales<L>, parts: seq<Part<L>>, i: nat)
    requires i < |parts|
    ensures Encode(c, parts[..i + 1])
         == (if i == 0 then "" else Encode(c, parts[..i]) + ", ") + EncodePart(c, parts[i])
  {
    hide EncodePart;
    assert Encoded(c, parts[..i + 1]) == Encoded(c, parts[..i]) + [EncodePart(c, parts[i])];
    hide Join;
    JoinSnoc(Encoded(c, parts[..i]), EncodePart(c, parts[i]), ", ");
    assert "" + EncodePart(c, parts[i]) == EncodePart(c, parts[i]);
  }
}
