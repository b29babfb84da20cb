/** Translated messages (crates/i18n/src/sprintf): texts with `%` placeholders. The parser is the
    grammar of grammar.pest, whose choices are ordered and whose repetitions are greedy. */
module Sprintf {
  import opened Text

  const USIZE_MAX: nat := 0xFFFF_FFFF_FFFF_FFFF

  datatype TypeSpecifier =
    | BinaryNumber | CharacterAsciiValue | DecimalNumber | IntegerNumber | ScientificNotation
    | UnsignedDecimalNumber | FloatingPointNumber | FloatingPointNumberWithSignificantDigits | OctalNumber
    | StringValue | TrueOrFalse | TypeOfArgument | PrimitiveValue
    | HexadecimalNumberLowercase | HexadecimalNumberUppercase | JsonValue

  datatype Argument = Indexed(index: nat) | Named(name: string)

  datatype Padding = ZeroPadding | CharPadding(c: char)

  datatype Placeholder = Placeholder(
    argument: Option<Argument>, plusSign: bool, padding: Option<Padding>, leftAlign: bool,
    width: Option<nat>, precision: Option<nat>, typeSpecifier: TypeSpecifier)

  datatype Part = PercentPart | TextPart(text: string) | PlaceholderPart(placeholder: Placeholder)

  type Message = seq<Part>

  /** `Message::from_literal`. */
  function FromLiteral(literal: string): Message { [TextPart(literal)] }

  // ---------------------------------------------------------------- printing

  function Letter(t: TypeSpecifier): char {
    match t
    case BinaryNumber => 'b'
    case CharacterAsciiValue => 'c'
    case DecimalNumber => 'd'
    case IntegerNumber => 'i'
    case ScientificNotation => 'e'
    case UnsignedDecimalNumber => 'u'
    case FloatingPointNumber => 'f'
    case FloatingPointNumberWithSignificantDigits => 'g'
    case OctalNumber => 'o'
    case StringValue => 's'
    case TrueOrFalse => 't'
    case TypeOfArgument => 'T'
    case PrimitiveValue => 'v'
    case HexadecimalNumberLowercase => 'x'
    case HexadecimalNumberUppercase => 'X'
    case JsonValue => 'j'
  }

  function PrintArgument(a: Option<Argument>): string {
    match a
    case None => ""
    case Some(Indexed(i)) => Decimal(i) + "$"
    case Some(Named(n)) => "(" + n + ")"
  }

  function PrintFlag(flag: bool, c: char): string { if flag then [c] else "" }

  function PrintPadding(p: Option<Padding>): string {
    match p
    case None => ""
    case Some(ZeroPadding) => "0"
    case Some(CharPadding(c)) => ['\'', c]
  }

  function PrintWidth(w: Option<nat>): string { if w.Some? then Decimal(w.value) else "" }

  function PrintPrecision(p: Option<nat>): string { if p.Some? then "." + Decimal(p.value) else "" }

  function PrintPlaceholder(p: Placeholder): string {
    var tail := PrintWidth(p.width) + (PrintPrecision(p.precision) + [Letter(p.typeSpecifier)]);
    var flags := PrintFlag(p.plusSign, '+') + (PrintPadding(p.padding) + (PrintFlag(p.leftAlign, '-') + tail));
    "%" + (PrintArgument(p.argument) + flags)
  }

  function PrintPart(p: Part): string {
    match p
    case PercentPart => "%%"
    case TextPart(t) => t
    case PlaceholderPart(p) => PrintPlaceholder(p)
  }

  function Print(m: Message): string {
    if m == [] then "" else PrintPart(m[0]) + Print(m[1..])
  }

  /** `Display` for a message: its parts one after the other. */
  method Display(m: Message) returns (text: string)
    ensures text == Print(m)
  {
    hide Print, PrintPart;
    text := "";
    assert m[0..] == m && "" + Print(m) == Print(m);
    for i := 0 to |m|
      invariant text + Print(m[i..]) == Print(m)
    {
      PrintStep(text, m, i);
      text := text + PrintPart(m[i]);
    }
    assert text + "" == text && Print(m[|m|..]) == "" by { NothingPrinted(m[|m|..]); }
  }

  lemma PrintStep(text: string, m: Message, i: nat)
    requires i < |m|
    ensures text + Print(m[i..]) == (text + PrintPart(m[i])) + Print(m[i + 1..])
  {
    hide PrintPart;
    assert m[i..][1..] == m[i + 1..];
  }

  lemma NothingPrinted(m: Message)
    requires m == []
    ensures Print(m) == ""
  {
  }

  // ---------------------------------------------------------------- parsing

  /** How many leading characters satisfy `p`. */
  function Span(s: string, p: char -> bool): (n: nat)
    ensures n <= |s| && (forall i :: 0 <= i < n ==> p(s[i])) && (n < |s| ==> !p(s[n]))
  {
    if s == "" || !p(s[0]) then 0 else 1 + Span(s[1..], p)
  }

  predicate IsNonZeroDigit(c: char) { '1' <= c <= '9' }

  predicate IsIdentStart(c: char) { 'a' <= c <= 'z' || 'A' <= c <= 'Z' || c == '_' }

  predicate IsIdentChar(c: char) { IsIdentStart(c) || IsDigit(c) }

  predicate IsPlain(c: char) { c != '%' }

  predicate Begins(s: string, p: char -> bool) { s != "" && p(s[0]) }

  /** The length of the `number` that `s` begins with, or zero. */
  function NumberLength(s: string): (n: nat)
    ensures n <= |s| && AllDigits(s[..n]) && (n > 0 ==> IsNonZeroDigit(s[0]))
    ensures Begins(s, IsNonZeroDigit) <==> n > 0
    ensures 0 < n < |s| ==> !IsDigit(s[n])
  {
    if Begins(s, IsNonZeroDigit) then Span(s, IsDigit) else 0
  }

  /** The length of the `ident` that `s` begins with, or zero. */
  function IdentLength(s: string): (n: nat)
    ensures n <= |s| && (n > 0 ==> IsIdent(s[..n]))
  {
    if Begins(s, IsIdentStart) then Span(s, IsIdentChar) else 0
  }

  predicate IsIdent(s: string) { Begins(s, IsIdentStart) && forall i :: 0 <= i < |s| ==> IsIdentChar(s[i]) }

  /** What an optional rule found, and what is left. */
  datatype Taken<T> = Taken(found: T, rest: string)

  function TakeArgument(s: string): (t: Taken<Option<Argument>>)
    ensures |t.rest| <= |s|
  {
    var n := NumberLength(s);
    if n > 0 && n < |s| && s[n] == '$' then Taken(Some(Indexed(NumberOf(s[..n]))), s[n + 1..])
    else if s != "" && s[0] == '(' then
      var k := IdentLength(s[1..]);
      if k > 0 && k + 1 < |s| && s[k + 1] == ')' then Taken(Some(Named(s[1..k + 1])), s[k + 2..]) else Taken(None, s)
    else Taken(None, s)
  }

  function TakeFlag(s: string, c: char): (t: Taken<bool>)
    ensures |t.rest| <= |s|
  {
    if s != "" && s[0] == c then Taken(true, s[1..]) else Taken(false, s)
  }

  function TakePadding(s: string): (t: Taken<Option<Padding>>)
    ensures |t.rest| <= |s|
  {
    if s != "" && s[0] == '0' then Taken(Some(ZeroPadding), s[1..])
    else if |s| > 1 && s[0] == '\'' then Taken(Some(CharPadding(s[1])), s[2..])
    else Taken(None, s)
  }

  function TakeWidth(s: string): (t: Taken<Option<nat>>)
    ensures |t.rest| <= |s|
  {
    var n := NumberLength(s);
    if n > 0 then Taken(Some(NumberOf(s[..n])), s[n..]) else Taken(None, s)
  }

  function TakePrecision(s: string): (t: Taken<Option<nat>>)
    ensures |t.rest| <= |s|
  {
    if s != "" && s[0] == '.' && TakeWidth(s[1..]).found.Some? then TakeWidth(s[1..]) else Taken(None, s)
  }

  function TypeOf(c: char): Option<TypeSpecifier> {
    if c == 'b' then Some(BinaryNumber)
    else if c == 'c' then Some(CharacterAsciiValue)
    else if c == 'd' then Some(DecimalNumber)
    else if c == 'i' then Some(IntegerNumber)
    else if c == 'e' then Some(ScientificNotation)
    else if c == 'u' then Some(UnsignedDecimalNumber)
    else if c == 'f' then Some(FloatingPointNumber)
    else if c == 'g' then Some(FloatingPointNumberWithSignificantDigits)
    else if c == 'o' then Some(OctalNumber)
    else if c == 's' then Some(StringValue)
    else if c == 't' then Some(TrueOrFalse)
    else if c == 'T' then Some(TypeOfArgument)
    else if c == 'v' then Some(PrimitiveValue)
    else if c == 'x' then Some(HexadecimalNumberLowercase)
    else if c == 'X' then Some(HexadecimalNumberUppercase)
    else if c == 'j' then Some(JsonValue)
    else None
  }

  /** The numbers fit the machine's integers. */
  predicate Fits(p: Placeholder) {
    && (p.argument.Some? && p.argument.value.Indexed? ==> p.argument.value.index <= USIZE_MAX)
    && (p.width.Some? ==> p.width.value <= USIZE_MAX)
    && (p.precision.Some? ==> p.precision.value <= USIZE_MAX)
  }

  /** A placeholder after its `%`. */
  function ParsePlaceholder(s: string): (r: Option<Taken<Placeholder>>)
    ensures r.Some? ==> |r.value.rest| < |s|
  {
    var argument := TakeArgument(s);
    var plus := TakeFlag(argument.rest, '+');
    var padding := TakePadding(plus.rest);
    var left := TakeFlag(padding.rest, '-');
    ParseSize(argument.found, plus.found, padding.found, left.found, left.rest)
  }

  /** The rest of a placeholder: its width, its precision and its type. */
  function ParseSize(argument: Option<Argument>, plus: bool, padding: Option<Padding>, left: bool, s: string)
    : (r: Option<Taken<Placeholder>>)
    ensures r.Some? ==> |r.value.rest| < |s|
  {
    var width := TakeWidth(s);
    var precision := TakePrecision(width.rest);
    if precision.rest == "" || TypeOf(precision.rest[0]).None? then None
    else
      var p := Placeholder(argument, plus, padding, left, width.found, precision.found,
                           TypeOf(precision.rest[0]).value);
      if Fits(p) then Some(Taken(p, precision.rest[1..])) else None
  }

  /** `Message::from_str`. */
  function Parse(s: string): Option<Message>
    decreases |s|
  {
    if s == "" then Some([])
    else if s[0] != '%' then
      var n := Span(s, IsPlain);
      Then(TextPart(s[..n]), Parse(s[n..]))
    else if |s| > 1 && s[1] == '%' then Then(PercentPart, Parse(s[2..]))
    else
      match ParsePlaceholder(s[1..])
      case None => None
      case Some(t) => Then(PlaceholderPart(t.found), Parse(t.rest))
  }

  function Then(p: Part, m: Option<Message>): Option<Message> {
    if m.Some? then Some([p] + m.value) else None
  }

  // ---------------------------------------------------------------- what was taken is what is printed

  lemma ArgumentTaken(s: string)
    ensures PrintArgument(TakeArgument(s).found) + TakeArgument(s).rest == s
  {
    hide NumberOf, Decimal, NumberLength, IdentLength;
    var n := NumberLength(s);
    if n > 0 && n < |s| && s[n] == '$' {
      NumberPrintsBack(s[..n]);
      Around(s, n);
    } else if s != "" && s[0] == '(' {
      var k := IdentLength(s[1..]);
      if k > 0 && k + 1 < |s| && s[k + 1] == ')' {
        Around(s, k + 1);
        assert s[..k + 1] == "(" + s[1..k + 1];
      }
    }
  }

  lemma Around(s: string, n: nat)
    requires n < |s|
    ensures s == s[..n] + [s[n]] + s[n + 1..]
  {
  }

  lemma FlagTaken(s: string, c: char)
    ensures PrintFlag(TakeFlag(s, c).found, c) + TakeFlag(s, c).rest == s
  {
  }

  lemma PaddingTaken(s: string)
    ensures PrintPadding(TakePadding(s).found) + TakePadding(s).rest == s
  {
  }

  lemma WidthTaken(s: string)
    ensures PrintWidth(TakeWidth(s).found) + TakeWidth(s).rest == s
  {
    var n := NumberLength(s);
    if n > 0 {
      NumberPrintsBack(s[..n]);
      assert s == s[..n] + s[n..];
    }
  }

  lemma PrecisionTaken(s: string)
    ensures PrintPrecision(TakePrecision(s).found) + TakePrecision(s).rest == s
  {
    hide TakeWidth, Decimal;
    if s != "" && s[0] == '.' {
      WidthTaken(s[1..]);
    }
  }

  lemma LetterOfType(c: char)
    requires TypeOf(c).Some?
    ensures Letter(TypeOf(c).value) == c
  {
  }

  lemma TypeOfLetter(t: TypeSpecifier)
    ensures TypeOf(Letter(t)) == Some(t)
  {
  }

  /** Digits that do not begin with zero are the decimal form of their number. */
  lemma {:induction false} NumberPrintsBack(s: string)
    requires s != "" && AllDigits(s) && s[0] != '0'
    ensures Decimal(NumberOf(s)) == s && NumberOf(s) > 0
    decreases |s|
  {
    hide Decimal, Digit, NumberOf, AllDigits;
    var front, d := LastDigit(s);
    if front == "" {
      OneDigit(d);
      ZeroDigit(d);
    } else {
      assert front[0] == s[0];
      NumberPrintsBack(front);
      DecimalSnoc(NumberOf(front), d);
    }
  }

  lemma LastDigit(s: string) returns (front: string, d: nat)
    requires s != "" && AllDigits(s)
    ensures d < 10 && s == front + [Digit(d)] && AllDigits(front) && |front| < |s|
    ensures NumberOf(s) == NumberOf(front) * 10 + d
  {
    front, d := s[..|s| - 1], s[|s| - 1] as nat - '0' as nat;
    DigitIsDigit(d);
    assert s == front + [Digit(d)];
    hide NumberOf;
    NumberOfSnoc(front, d);
  }

  lemma ZeroDigit(d: nat)
    requires d < 10
    ensures Digit(d) == '0' <==> d == 0
  {
    DigitIsDigit(d);
  }

  lemma OneDigit(d: nat)
    requires d < 10
    ensures Decimal(d) == "" + [Digit(d)] && NumberOf("") == 0
  {
  }

  lemma DecimalSnoc(n: nat, d: nat)
    requires n > 0 && d < 10
    ensures Decimal(n * 10 + d) == Decimal(n) + [Digit(d)]
  {
    assert (n * 10 + d) / 10 == n && (n * 10 + d) % 10 == d;
  }

  lemma PlaceholderTaken(s: string)
    requires ParsePlaceholder(s).Some?
    ensures "%" + s == PrintPlaceholder(ParsePlaceholder(s).value.found) + ParsePlaceholder(s).value.rest
  {
    hide TakeArgument, TakeFlag, TakePadding, TakeWidth, TakePrecision, TypeOf, Letter;
    hide PrintArgument, PrintFlag, PrintPadding, PrintWidth, PrintPrecision, Fits;
    var argument := TakeArgument(s);
    var plus := TakeFlag(argument.rest, '+');
    var padding := TakePadding(plus.rest);
    var left := TakeFlag(padding.rest, '-');
    var width := TakeWidth(left.rest);
    var precision := TakePrecision(width.rest);
    ArgumentTaken(s);
    FlagTaken(argument.rest, '+');
    PaddingTaken(plus.rest);
    FlagTaken(padding.rest, '-');
    WidthTaken(left.rest);
    PrecisionTaken(width.rest);
    var letter, tail := precision.rest[0], precision.rest[1..];
    assert precision.rest == [letter] + tail;
    LetterOfType(letter);
    Regroup(PrintArgument(argument.found), PrintFlag(plus.found, '+'), PrintPadding(padding.found),
            PrintFlag(left.found, '-'), PrintWidth(width.found), PrintPrecision(precision.found), [letter], tail);
  }

  lemma Regroup(a: string, b: string, c: string, d: string, e: string, f: string, g: string, h: string)
    ensures "%" + (a + (b + (c + (d + (e + (f + (g + h)))))))
         == ("%" + (a + (b + (c + (d + (e + (f + g))))))) + h
  {
    assert f + (g + h) == (f + g) + h;
    assert e + ((f + g) + h) == (e + (f + g)) + h;
    assert d + ((e + (f + g)) + h) == (d + (e + (f + g))) + h;
    assert c + ((d + (e + (f + g))) + h) == (c + (d + (e + (f + g)))) + h;
    assert b + ((c + (d + (e + (f + g)))) + h) == (b + (c + (d + (e + (f + g))))) + h;
  }

  /** Printing what was parsed gives the text back, for every text that parses. */
  lemma {:induction false} PrintUndoesParse(s: string)
    requires Parse(s).Some?
    ensures Print(Parse(s).value) == s
    decreases |s|
  {
    if s != "" {
      hide Parse, Print, PrintPart, ParsePlaceholder;
      var p, rest := FirstParsed(s);
      PrintUndoesParse(rest);
      PrintCons(p, Parse(rest).value);
    }
  }

  /** What is parsed begins with a part that prints as the beginning of the text. */
  lemma FirstParsed(s: string) returns (p: Part, rest: string)
    requires s != "" && Parse(s).Some?
    ensures |rest| < |s| && Parse(rest).Some? && Parse(s).value == [p] + Parse(rest).value
    ensures PrintPart(p) + rest == s
  {
    hide Parse, PrintPart, Span, ParsePlaceholder;
    if s[0] != '%' {
      var n := Span(s, IsPlain);
      TextFirst(s);
      p, rest := TextPart(s[..n]), s[n..];
    } else if |s| > 1 && s[1] == '%' {
      PercentFirst(s);
      p, rest := PercentPart, s[2..];
    } else {
      PlaceholderFirst(s);
      var t := ParsePlaceholder(s[1..]).value;
      p, rest := PlaceholderPart(t.found), t.rest;
    }
  }

  lemma TextFirst(s: string)
    requires s != "" && s[0] != '%'
    ensures var n := Span(s, IsPlain);
      n > 0 && Parse(s) == Then(TextPart(s[..n]), Parse(s[n..])) && PrintPart(TextPart(s[..n])) + s[n..] == s
  {
    hide Parse, PrintPart, Then, Span;
    TextParsed(s);
    TextAsIs(s[..Span(s, IsPlain)], s[Span(s, IsPlain)..]);
    assert IsPlain(s[0]);
  }

  lemma TextParsed(s: string)
    requires s != "" && s[0] != '%'
    ensures var n := Span(s, IsPlain); Parse(s) == Then(TextPart(s[..n]), Parse(s[n..]))
  {
    hide ParsePlaceholder, Then, Span;
  }

  lemma TextAsIs(t: string, rest: string)
    ensures PrintPart(TextPart(t)) + rest == t + rest
  {
  }

  lemma PercentFirst(s: string)
    requires |s| > 1 && s[0] == '%' && s[1] == '%'
    ensures Parse(s) == Then(PercentPart, Parse(s[2..])) && PrintPart(PercentPart) + s[2..] == s
  {
    hide ParsePlaceholder;
  }

  lemma PlaceholderFirst(s: string)
    requires s != "" && s[0] == '%' && (|s| > 1 ==> s[1] != '%') && Parse(s).Some?
    ensures ParsePlaceholder(s[1..]).Some?
    ensures var t := ParsePlaceholder(s[1..]).value;
      && |t.rest| < |s| && Parse(s) == Then(PlaceholderPart(t.found), Parse(t.rest))
      && PrintPart(PlaceholderPart(t.found)) + t.rest == s
  {
    hide ParsePlaceholder, PrintPlaceholder;
    PlaceholderTaken(s[1..]);
    assert s == "%" + s[1..];
  }

  lemma PrintCons(p: Part, m: Message)
    ensures Print([p] + m) == PrintPart(p) + Print(m)
  {
    hide PrintPart;
    assert ([p] + m)[1..] == m;
  }

  // ---------------------------------------------------------------- what parses back

  predicate NormalPlaceholder(p: Placeholder) {
    NormalArgument(p.argument) && Fits(p) && p.width != Some(0) && p.precision != Some(0)
  }

  predicate NormalArgument(a: Option<Argument>) {
    a.Some? ==> if a.value.Indexed? then a.value.index > 0 else IsIdent(a.value.name)
  }

  predicate NormalPart(p: Part) {
    match p
    case PercentPart => true
    case TextPart(t) => t != "" && '%' !in t
    case PlaceholderPart(p) => NormalPlaceholder(p)
  }

  /** No text is empty, contains a `%` or follows another text; no width, precision or index is zero;
      names are identifiers. */
  predicate Normal(m: Message) {
    && (forall i :: 0 <= i < |m| ==> NormalPart(m[i]))
    && forall i :: 0 < i < |m| ==> !(m[i - 1].TextPart? && m[i].TextPart?)
  }

  lemma TakenIsNormal(s: string)
    ensures NormalArgument(TakeArgument(s).found)
  {
    hide IsIdent, NumberOf;
    var n := NumberLength(s);
    if n > 0 { NumberPrintsBack(s[..n]); }
    if s != "" {
      assert s[1..][..IdentLength(s[1..])] == s[1..IdentLength(s[1..]) + 1];
    }
  }

  lemma TakenIsPositive(s: string)
    ensures TakeWidth(s).found != Some(0)
  {
    hide NumberOf;
    var n := NumberLength(s);
    if n > 0 { NumberPrintsBack(s[..n]); }
  }

  lemma PrecisionIsPositive(s: string)
    ensures TakePrecision(s).found != Some(0)
  {
    hide TakeWidth;
    if s != "" { TakenIsPositive(s[1..]); }
  }

  lemma ParsedPlaceholderIsNormal(s: string)
    requires ParsePlaceholder(s).Some?
    ensures NormalPlaceholder(ParsePlaceholder(s).value.found)
  {
    var argument := TakeArgument(s);
    var plus := TakeFlag(argument.rest, '+');
    var padding := TakePadding(plus.rest);
    var left := TakeFlag(padding.rest, '-');
    var width := TakeWidth(left.rest);
    hide TakeArgument, TakeFlag, TakePadding, TakeWidth, TakePrecision, TypeOf, IsIdent;
    TakenIsNormal(s);
    TakenIsPositive(left.rest);
    PrecisionIsPositive(width.rest);
  }

  lemma {:induction false} ParsedIsNormal(s: string)
    requires Parse(s).Some?
    ensures Normal(Parse(s).value)
    ensures Parse(s).value != [] && Parse(s).value[0].TextPart? ==> s != "" && s[0] != '%'
    decreases |s|
  {
    hide ParsePlaceholder, NormalPlaceholder;
    if s != "" {
      if s[0] != '%' {
        var n := Span(s, IsPlain);
        ParsedIsNormal(s[n..]);
        NormalCons(TextPart(s[..n]), Parse(s[n..]).value);
      } else if |s| > 1 && s[1] == '%' {
        ParsedIsNormal(s[2..]);
        NormalCons(PercentPart, Parse(s[2..]).value);
      } else {
        var t := ParsePlaceholder(s[1..]).value;
        ParsedIsNormal(t.rest);
        ParsedPlaceholderIsNormal(s[1..]);
        NormalCons(PlaceholderPart(t.found), Parse(t.rest).value);
      }
    }
  }

  lemma NormalCons(p: Part, m: Message)
    ensures Normal([p] + m) <==> NormalPart(p) && Normal(m) && !(p.TextPart? && m != [] && m[0].TextPart?)
  {
    hide NormalPart;
    var all := [p] + m;
    assert all[0] == p && forall i :: 0 <= i < |m| ==> all[i + 1] == m[i];
    if Normal(all) {
      forall i | 0 <= i < |m| ensures NormalPart(m[i]) {
        assert NormalPart(all[i + 1]);
      }
      forall i | 0 < i < |m| ensures !(m[i - 1].TextPart? && m[i].TextPart?) {
        assert !(all[i].TextPart? && all[i + 1].TextPart?);
      }
      if m != [] { assert !(all[0].TextPart? && all[1].TextPart?); }
    }
  }

  // ---------------------------------------------------------------- what is printed is taken

  lemma {:induction false} SpanExact(a: string, b: string, p: char -> bool)
    requires (forall i :: 0 <= i < |a| ==> p(a[i])) && !Begins(b, p)
    ensures Span(a + b, p) == |a|
  {
    if a == "" {
      assert a + b == b;
    } else {
      assert (a + b)[1..] == a[1..] + b;
      SpanExact(a[1..], b, p);
    }
  }

  lemma {:induction false} DecimalBegins(n: nat)
    requires n > 0
    ensures Begins(Decimal(n), IsNonZeroDigit) && AllDigits(Decimal(n))
  {
    DecimalIsNumber(n);
    if n < 10 {
      DigitIsDigit(n);
    } else {
      DecimalBegins(n / 10);
    }
  }

  lemma NumberExact(n: nat, b: string)
    requires n > 0 && !Begins(b, IsDigit)
    ensures var s := Decimal(n) + b;
      NumberLength(s) == |Decimal(n)| && s[..|Decimal(n)|] == Decimal(n) && s[|Decimal(n)|..] == b
    ensures AllDigits(Decimal(n)) && NumberOf(Decimal(n)) == n
  {
    DecimalBegins(n);
    DecimalIsNumber(n);
    SpanExact(Decimal(n), b, IsDigit);
  }

  /** What the sizes and the type of a placeholder may begin with. */
  predicate IsSize(c: char) { TypeOf(c).Some? || c == '.' || IsDigit(c) }

  lemma SizeChars(c: char)
    requires IsSize(c)
    ensures c !in "-+'(%$"
  {
    TypeIsLetter(c);
    hide TypeOf;
  }

  lemma TypeIsLetter(c: char)
    ensures TypeOf(c).Some? ==> IsIdentStart(c)
  {
  }

  lemma PrecisionPrinted(p: Option<nat>, rest: string)
    requires rest != "" && TypeOf(rest[0]).Some?
    ensures var s := PrintPrecision(p) + rest;
      && (if p == Some(0) then TakePrecision(s) == Taken(None, s) else TakePrecision(s) == Taken(p, rest))
      && s[0] == if p.Some? then '.' else rest[0]
  {
    TypeIsLetter(rest[0]);
    hide TypeOf, TakeWidth, Decimal;
    var s := PrintPrecision(p) + rest;
    if p.Some? {
      assert s[1..] == PrintWidth(p) + rest;
      WidthPrinted(p, rest);
    } else {
      assert s == rest;
    }
  }

  lemma WidthPrinted(w: Option<nat>, rest: string)
    requires rest != "" && !IsDigit(rest[0])
    ensures var s := PrintWidth(w) + rest;
      && (if w == Some(0) then TakeWidth(s) == Taken(None, s) && s[0] == '0' else TakeWidth(s) == Taken(w, rest))
      && (w.Some? ==> IsDigit(s[0]) && (w.value > 0 ==> s[0] != '0')) && (w.None? ==> s == rest)
      && (NumberLength(s) < |s| ==> rest[0] != '$' ==> s[NumberLength(s)] != '$')
  {
    var s := PrintWidth(w) + rest;
    if w == Some(0) {
      assert Decimal(0) == "0";
    } else if w.Some? {
      NumberExact(w.value, rest);
      DecimalBegins(w.value);
    } else {
      assert s == rest;
    }
  }

  lemma FlagPrinted(flag: bool, c: char, rest: string)
    requires rest != "" && rest[0] != c
    ensures TakeFlag(PrintFlag(flag, c) + rest, c) == Taken(flag, rest)
    ensures (PrintFlag(flag, c) + rest)[0] == if flag then c else rest[0]
  {
    assert "" + rest == rest;
  }

  lemma PaddingPrinted(p: Option<Padding>, rest: string)
    requires rest != "" && (p.None? ==> rest[0] != '0' && rest[0] != '\'')
    ensures TakePadding(PrintPadding(p) + rest) == Taken(p, rest)
    ensures var c := (PrintPadding(p) + rest)[0]; if p.Some? then c == '0' || c == '\'' else c == rest[0]
  {
    assert "" + rest == rest;
  }

  /** Without an argument, what follows is not mistaken for one: a width is not followed by `$`. */
  lemma ArgumentPrinted(a: Option<Argument>, rest: string)
    requires rest != "" && rest[0] != '(' && rest[0] != '%'
    requires NumberLength(rest) < |rest| ==> rest[NumberLength(rest)] != '$'
    requires NormalArgument(a)
    ensures TakeArgument(PrintArgument(a) + rest) == Taken(a, rest)
    ensures PrintArgument(a) + rest != "" && (PrintArgument(a) + rest)[0] != '%'
  {
    hide TakeArgument, Decimal, IsIdent, NumberLength;
    match a
    case None => NoArgumentPrinted(rest);
    case Some(Indexed(i)) => IndexPrinted(i, rest);
    case Some(Named(n)) => NamePrinted(n, rest);
  }

  lemma NoArgumentPrinted(rest: string)
    requires rest != "" && rest[0] != '(' && rest[0] != '%'
    requires NumberLength(rest) < |rest| ==> rest[NumberLength(rest)] != '$'
    ensures TakeArgument(PrintArgument(None) + rest) == Taken(None, rest)
    ensures PrintArgument(None) + rest != "" && (PrintArgument(None) + rest)[0] != '%'
  {
    assert PrintArgument(None) + rest == rest;
    hide NumberLength, IdentLength, IsIdent;
  }

  lemma IndexPrinted(i: nat, rest: string)
    requires i > 0
    ensures TakeArgument(PrintArgument(Some(Indexed(i))) + rest) == Taken(Some(Indexed(i)), rest)
    ensures var s := PrintArgument(Some(Indexed(i))) + rest; s != "" && s[0] != '%'
  {
    hide Decimal, NumberLength, NumberOf, IdentLength, IsIdent;
    var s := PrintArgument(Some(Indexed(i))) + rest;
    NumberExact(i, "$" + rest);
    DecimalBegins(i);
    assert s == Decimal(i) + ("$" + rest);
    assert s[|Decimal(i)|] == '$' && s[|Decimal(i)| + 1..] == rest;
  }

  lemma NamePrinted(n: string, rest: string)
    requires IsIdent(n)
    ensures TakeArgument(PrintArgument(Some(Named(n))) + rest) == Taken(Some(Named(n)), rest)
    ensures var s := PrintArgument(Some(Named(n))) + rest; s != "" && s[0] != '%'
  {
    hide IdentLength, NumberLength, IsIdent;
    var s := PrintArgument(Some(Named(n))) + rest;
    assert s[0] == '(' && s[1..] == n + (")" + rest);
    IdentExact(n, ")" + rest);
    assert s[1..|n| + 1] == n && s[|n| + 1] == ')' && s[|n| + 2..] == rest;
  }

  lemma IdentExact(n: string, b: string)
    requires IsIdent(n) && !Begins(b, IsIdentChar)
    ensures n != "" && IdentLength(n + b) == |n|
  {
    SpanExact(n, b, IsIdentChar);
    assert (n + b)[0] == n[0];
  }

  /** Up to the width a printed placeholder is taken as it was, unless a zero width could be taken for
      padding. */
  lemma FlagsPrinted(p: Placeholder, size: string)
    requires NormalArgument(p.argument) && size != "" && IsSize(size[0])
    requires size[0] == '0' ==> p.padding.Some? || p.leftAlign
    requires NumberLength(size) < |size| ==> size[NumberLength(size)] != '$'
    ensures var s := PrintArgument(p.argument) + (PrintFlag(p.plusSign, '+')
                       + (PrintPadding(p.padding) + (PrintFlag(p.leftAlign, '-') + size)));
      && s != "" && s[0] != '%'
      && ParsePlaceholder(s) == ParseSize(p.argument, p.plusSign, p.padding, p.leftAlign, size)
  {
    SizeChars(size[0]);
    hide TakeArgument, TakeFlag, TakePadding, ParseSize, NormalArgument, IsSize, NumberLength;
    hide PrintArgument, PrintFlag, PrintPadding;
    var t3 := PrintFlag(p.leftAlign, '-') + size;
    var t2 := PrintPadding(p.padding) + t3;
    var t1 := PrintFlag(p.plusSign, '+') + t2;
    FlagPrinted(p.leftAlign, '-', size);
    PaddingPrinted(p.padding, t3);
    FlagPrinted(p.plusSign, '+', t2);
    NoDollar(p, size);
    ArgumentPrinted(p.argument, t1);
  }

  lemma NoDollar(p: Placeholder, size: string)
    requires size != "" && IsSize(size[0])
    requires NumberLength(size) < |size| ==> size[NumberLength(size)] != '$'
    ensures var s := PrintFlag(p.plusSign, '+') + (PrintPadding(p.padding) + (PrintFlag(p.leftAlign, '-') + size));
      && s != "" && s[0] != '(' && s[0] != '%'
      && (NumberLength(s) < |s| ==> s[NumberLength(s)] != '$')
  {
    SizeChars(size[0]);
    hide IsSize, NumberLength, PrintPadding;
    var t3 := PrintFlag(p.leftAlign, '-') + size;
    var t2 := PrintPadding(p.padding) + t3;
    var s := PrintFlag(p.plusSign, '+') + t2;
    PaddingBegins(p.padding, t3);
    if !p.plusSign && p.padding.None? && !p.leftAlign {
      assert s == size;
    } else {
      assert p.plusSign || s == t2;
      NoNumber(s);
    }
  }

  lemma PaddingBegins(p: Option<Padding>, rest: string)
    requires rest != ""
    ensures var s := PrintPadding(p) + rest; s != "" && if p.Some? then s[0] == '0' || s[0] == '\'' else s == rest
  {
  }

  lemma NoNumber(s: string)
    requires s != "" && s[0] in "+0'-"
    ensures NumberLength(s) == 0
  {
  }

  /** The sizes of a printed placeholder are taken as they were, if none is zero and all fit. */
  lemma SizePrinted(p: Placeholder, rest: string)
    ensures var s := PrintWidth(p.width) + (PrintPrecision(p.precision) + ([Letter(p.typeSpecifier)] + rest));
      && s != "" && IsSize(s[0]) && (s[0] == '0' <==> p.width == Some(0))
      && (NumberLength(s) < |s| ==> s[NumberLength(s)] != '$')
      && ParseSize(p.argument, p.plusSign, p.padding, p.leftAlign, s)
           == if p.width != Some(0) && p.precision != Some(0) && Fits(p) then Some(Taken(p, rest)) else None
  {
    hide ParseSize, IsSize, Letter, TypeOf, PrintWidth, PrintPrecision, NumberLength, Fits;
    LetterPrinted(p.typeSpecifier, rest);
    var t6 := [Letter(p.typeSpecifier)] + rest;
    var t5 := PrintPrecision(p.precision) + t6;
    PrecisionPrinted(p.precision, t6);
    SizeBegins(p.width, t5);
    if p.width == Some(0) {
      ZeroWidthFails(p, t5);
    } else if p.precision == Some(0) {
      ZeroPrecisionFails(p, t5);
    } else {
      SizeTaken(p, rest);
    }
  }

  lemma LetterPrinted(t: TypeSpecifier, rest: string)
    ensures var s := [Letter(t)] + rest;
      && TypeOf(s[0]) == Some(t) && s[1..] == rest && !IsDigit(s[0]) && s[0] != '$' && s[0] != '.'
  {
    TypeOfLetter(t);
    TypeIsLetter(Letter(t));
    hide TypeOf, Letter;
  }

  lemma SizeBegins(w: Option<nat>, rest: string)
    requires rest != "" && (TypeOf(rest[0]).Some? || rest[0] == '.') && !IsDigit(rest[0]) && rest[0] != '$'
    ensures var s := PrintWidth(w) + rest;
      && s != "" && IsSize(s[0]) && (s[0] == '0' <==> w == Some(0))
      && (NumberLength(s) < |s| ==> s[NumberLength(s)] != '$')
  {
    hide TypeOf, NumberLength, PrintWidth, TakeWidth;
    WidthPrinted(w, rest);
  }

  lemma ZeroWidthFails(p: Placeholder, rest: string)
    requires p.width == Some(0) && rest != "" && !IsDigit(rest[0])
    ensures ParseSize(p.argument, p.plusSign, p.padding, p.leftAlign, PrintWidth(p.width) + rest) == None
  {
    assert TypeOf('0').None?;
    hide TakeWidth, PrintWidth, TypeOf, TakePrecision, Fits;
    WidthPrinted(p.width, rest);
    ZeroIsNoPrecision(PrintWidth(p.width) + rest);
  }

  lemma ZeroPrecisionFails(p: Placeholder, rest: string)
    requires p.width != Some(0) && rest != "" && rest[0] == '.' && TakePrecision(rest) == Taken(None, rest)
    ensures ParseSize(p.argument, p.plusSign, p.padding, p.leftAlign, PrintWidth(p.width) + rest) == None
  {
    assert TypeOf('.').None?;
    hide TakeWidth, PrintWidth, TypeOf, TakePrecision, Fits;
    WidthPrinted(p.width, rest);
  }

  lemma SizeTaken(p: Placeholder, rest: string)
    requires p.width != Some(0) && p.precision != Some(0)
    ensures var s := PrintWidth(p.width) + (PrintPrecision(p.precision) + ([Letter(p.typeSpecifier)] + rest));
      ParseSize(p.argument, p.plusSign, p.padding, p.leftAlign, s) == if Fits(p) then Some(Taken(p, rest)) else None
  {
    hide TakeWidth, PrintWidth, TypeOf, TakePrecision, PrintPrecision, Fits, Letter;
    LetterPrinted(p.typeSpecifier, rest);
    var t6 := [Letter(p.typeSpecifier)] + rest;
    PrecisionPrinted(p.precision, t6);
    WidthPrinted(p.width, PrintPrecision(p.precision) + t6);
  }

  lemma ZeroIsNoPrecision(s: string)
    requires s != "" && s[0] == '0'
    ensures TakePrecision(s) == Taken(None, s)
  {
  }

  /** A placeholder whose argument is proper reads back unless a size is zero or too large; a zero width
      with nothing in front of it is read as padding. */
  lemma PlaceholderPrinted(p: Placeholder, rest: string)
    requires NormalArgument(p.argument)
    ensures var s := PrintPlaceholder(p) + rest;
      && |s| > 1 && s[0] == '%' && s[1] != '%'
      && ParsePlaceholder(s[1..]) == if ReadablePlaceholder(p) then Some(Taken(Tidy(p), rest)) else None
  {
    hide ParsePlaceholder, PrintPlaceholder, NormalArgument, Fits;
    TidyPrints(p);
    TidyPlaceholderPrinted(Tidy(p), rest);
  }

  /** A zero width that would be read as padding, as padding. */
  function Tidy(p: Placeholder): Placeholder {
    if p.width == Some(0) && p.padding.None? && !p.leftAlign
    then p.(width := None, padding := Some(ZeroPadding))
    else p
  }

  predicate ReadablePlaceholder(p: Placeholder) {
    && NormalArgument(p.argument) && Fits(p) && p.precision != Some(0)
    && (p.width == Some(0) ==> p.padding.None? && !p.leftAlign)
  }

  lemma TidyPrints(p: Placeholder)
    ensures PrintPlaceholder(Tidy(p)) == PrintPlaceholder(p)
    ensures NormalPlaceholder(Tidy(p)) <==> ReadablePlaceholder(p)
  {
    if p.width == Some(0) && p.padding.None? && !p.leftAlign {
      assert Decimal(0) == "0";
      var tail := PrintPrecision(p.precision) + [Letter(p.typeSpecifier)];
      assert "" + ("" + ("0" + tail)) == "0" + ("" + ("" + tail));
    }
  }

  lemma TidyPlaceholderPrinted(p: Placeholder, rest: string)
    requires NormalArgument(p.argument) && (p.width == Some(0) ==> p.padding.Some? || p.leftAlign)
    ensures var s := PrintPlaceholder(p) + rest;
      && |s| > 1 && s[0] == '%' && s[1] != '%'
      && ParsePlaceholder(s[1..]) == if NormalPlaceholder(p) then Some(Taken(p, rest)) else None
  {
    var size := PrintWidth(p.width) + (PrintPrecision(p.precision) + ([Letter(p.typeSpecifier)] + rest));
    SizePrinted(p, rest);
    FlagsPrinted(p, size);
    Regroup(PrintArgument(p.argument), PrintFlag(p.plusSign, '+'), PrintPadding(p.padding), PrintFlag(p.leftAlign, '-'),
            PrintWidth(p.width), PrintPrecision(p.precision), [Letter(p.typeSpecifier)], rest);
    hide ParsePlaceholder, ParseSize, NormalArgument, Fits, IsSize, NumberLength;
    hide PrintArgument, PrintFlag, PrintPadding, PrintWidth, PrintPrecision, Letter;
    var t0 := PrintArgument(p.argument) + (PrintFlag(p.plusSign, '+')
                + (PrintPadding(p.padding) + (PrintFlag(p.leftAlign, '-') + size)));
    assert PrintPlaceholder(p) + rest == "%" + t0;
    assert ("%" + t0)[1..] == t0;
  }

  lemma {:induction false} NormalParsesBack(m: Message)
    requires Normal(m)
    ensures Parse(Print(m)) == Some(m)
    ensures m != [] && !m[0].TextPart? ==> Begins(Print(m), IsPercent)
  {
    hide NormalPlaceholder, ParsePlaceholder, PrintPlaceholder;
    if m != [] {
      var rest := m[1..];
      assert m == [m[0]] + rest;
      NormalCons(m[0], rest);
      NormalParsesBack(rest);
      var s, r := Print(m), Print(rest);
      match m[0]
      case PercentPart =>
        assert s[2..] == r;
      case TextPart(t) =>
        assert !Begins(r, IsPlain);
        SpanExact(t, r, IsPlain);
        assert s[..|t|] == t && s[|t|..] == r;
      case PlaceholderPart(p) =>
        NormalIsTidy(p);
        PlaceholderPrinted(p, r);
    }
  }

  lemma NormalIsTidy(p: Placeholder)
    requires NormalPlaceholder(p)
    ensures NormalArgument(p.argument) && ReadablePlaceholder(p) && Tidy(p) == p
  {
  }

  predicate IsPercent(c: char) { c == '%' }

  /** Parsing undoes printing exactly for the normal messages. */
  lemma ParseUndoesPrintIff(m: Message)
    ensures Parse(Print(m)) == Some(m) <==> Normal(m)
  {
    if Normal(m) {
      NormalParsesBack(m);
    }
    if Parse(Print(m)) == Some(m) {
      ParsedIsNormal(Print(m));
    }
  }

  // ---------------------------------------------------------------- messages that are not normal

  /** No text contains a `%`, and names are identifiers. */
  predicate Spelt(m: Message) {
    forall i :: 0 <= i < |m| ==> SpeltPart(m[i])
  }

  predicate SpeltPart(p: Part) {
    match p
    case PercentPart => true
    case TextPart(t) => '%' !in t
    case PlaceholderPart(p) => p.argument.Some? && p.argument.value.Named? ==> IsIdent(p.argument.value.name)
  }

  /** Of each placeholder: no index and no precision is zero, numbers fit, and a zero width has neither
      padding nor alignment in front of it. */
  predicate Readable(m: Message) {
    forall i :: 0 <= i < |m| && m[i].PlaceholderPart? ==> ReadablePlaceholder(m[i].placeholder)
  }

  /** A text in front of a message, in one part with a text that comes first. */
  function JoinText(t: string, m: Message): Message {
    if t == "" then m
    else if m != [] && m[0].TextPart? then [TextPart(t + m[0].text)] + m[1..]
    else [TextPart(t)] + m
  }

  /** Texts in a row joined, empty ones dropped, zero widths as padding. */
  function NormalForm(m: Message): Message {
    if m == [] then []
    else
      var rest := NormalForm(m[1..]);
      match m[0]
      case PercentPart => [PercentPart] + rest
      case TextPart(t) => JoinText(t, rest)
      case PlaceholderPart(p) => [PlaceholderPart(Tidy(p))] + rest
  }

  lemma TextJoins(t: string, s: string)
    requires '%' !in t
    ensures Parse(t + s) == if Parse(s).Some? then Some(JoinText(t, Parse(s).value)) else None
  {
    hide Parse, Span;
    if t == "" {
      assert t + s == s;
    } else if !Begins(s, IsPlain) {
      TextTaken(t, s);
      if Parse(s).Some? { ParsedIsNormal(s); }
    } else {
      var n := Span(s, IsPlain);
      assert s == s[..n] + s[n..] && t + s == (t + s[..n]) + s[n..];
      TextTaken(t + s[..n], s[n..]);
      TextTaken(s[..n], s[n..]);
      if Parse(s[n..]).Some? { TextOnText(t, s[..n], Parse(s[n..]).value); }
    }
  }

  lemma TextOnText(t: string, u: string, m: Message)
    ensures JoinText(t, [TextPart(u)] + m) == [TextPart(t + u)] + m
  {
    assert ([TextPart(u)] + m)[1..] == m;
    assert "" + u == u;
  }

  /** A text up to the next `%` is one part. */
  lemma TextTaken(t: string, s: string)
    requires t != "" && '%' !in t && !Begins(s, IsPlain)
    ensures Parse(t + s) == Then(TextPart(t), Parse(s))
  {
    hide ParsePlaceholder;
    SpanExact(t, s, IsPlain);
    assert (t + s)[..|t|] == t && (t + s)[|t|..] == s;
  }

  lemma ZeroIndexFails(p: Placeholder, rest: string)
    requires p.argument == Some(Indexed(0))
    ensures var s := PrintPlaceholder(p) + rest;
      |s| > 1 && s[0] == '%' && s[1] != '%' && ParsePlaceholder(s[1..]) == None
  {
    assert Decimal(0) == "0";
    hide PrintFlag, PrintPadding, PrintWidth, PrintPrecision, Letter;
    var s := (PrintPlaceholder(p) + rest)[1..];
    assert s[0] == '0' && s[1] == '$';
    assert TakePadding(s).rest == s[1..] && TypeOf('$').None?;
  }

  lemma PartPrinted(p: Placeholder, rest: string)
    requires SpeltPart(PlaceholderPart(p))
    ensures Parse(PrintPlaceholder(p) + rest)
         == if ReadablePlaceholder(p) then Then(PlaceholderPart(Tidy(p)), Parse(rest)) else None
  {
    hide ParsePlaceholder, PrintPlaceholder, IsIdent;
    if p.argument == Some(Indexed(0)) {
      ZeroIndexFails(p, rest);
    } else {
      PlaceholderPrinted(p, rest);
    }
  }

  /** A message without `%` in its texts, whose names are identifiers, is read back in its normal form
      if it is readable, and not at all otherwise. */
  lemma {:induction false} ReadsAsNormalForm(m: Message)
    requires Spelt(m)
    ensures Parse(Print(m)) == if Readable(m) then Some(NormalForm(m)) else None
  {
    if m != [] {
      hide ReadablePlaceholder, PrintPlaceholder, ParsePlaceholder, SpeltPart;
      var rest := m[1..];
      ReadsAsNormalForm(rest);
      assert Readable(m) <==> Readable(rest) && (m[0].PlaceholderPart? ==> ReadablePlaceholder(m[0].placeholder)) by {
        ReadableCons(m);
      }
      FirstPartRead(m[0], Print(rest));
    }
  }

  lemma ReadableCons(m: Message)
    requires m != []
    ensures Readable(m) <==> Readable(m[1..]) && (m[0].PlaceholderPart? ==> ReadablePlaceholder(m[0].placeholder))
  {
    hide ReadablePlaceholder;
    assert m == [m[0]] + m[1..];
    if Readable(m[1..]) && (m[0].PlaceholderPart? ==> ReadablePlaceholder(m[0].placeholder)) {
      forall i | 0 <= i < |m| && m[i].PlaceholderPart? ensures ReadablePlaceholder(m[i].placeholder) {
        if i > 0 { assert m[i] == m[1..][i - 1]; }
      }
    }
  }

  /** What is read when the part is printed in front of what reads as `m`. */
  function ReadBefore(p: Part, m: Option<Message>): Option<Message> {
    match p
    case PercentPart => Then(PercentPart, m)
    case TextPart(t) => if m.Some? then Some(JoinText(t, m.value)) else None
    case PlaceholderPart(q) => if ReadablePlaceholder(q) then Then(PlaceholderPart(Tidy(q)), m) else None
  }

  lemma FirstPartRead(p: Part, s: string)
    requires SpeltPart(p)
    ensures Parse(PrintPart(p) + s) == ReadBefore(p, Parse(s))
  {
    hide ReadablePlaceholder, PrintPlaceholder, ParsePlaceholder, IsIdent;
    match p
    case PercentPart => assert ("%%" + s)[2..] == s;
    case TextPart(t) => TextJoins(t, s);
    case PlaceholderPart(q) => PartPrinted(q, s);
  }

  // ---------------------------------------------------------------- the letters

  const TYPES: seq<TypeSpecifier> := [
    BinaryNumber, CharacterAsciiValue, DecimalNumber, IntegerNumber, ScientificNotation, UnsignedDecimalNumber,
    FloatingPointNumber, FloatingPointNumberWithSignificantDigits, OctalNumber, StringValue, TrueOrFalse,
    TypeOfArgument, PrimitiveValue, HexadecimalNumberLowercase, HexadecimalNumberUppercase, JsonValue]

  /** A placeholder of which only the type is given. */
  function Bare(t: TypeSpecifier): Placeholder { Placeholder(None, false, None, false, None, None, t) }

  /** Which letter after a `%` stands for which type. */
  lemma TypeLetters(i: nat)
    requires i < 16
    ensures Parse("%" + ["bcdieufgostTvxXj"[i]]) == Some([PlaceholderPart(Bare(TYPES[i]))])
  {
    LettersInOrder(i);
    var t := TYPES[i];
    BareText(t);
    hide Parse, Print, Letter;
    NormalParsesBack([PlaceholderPart(Bare(t))]);
  }

  lemma LettersInOrder(i: nat)
    requires i < 16
    ensures Letter(TYPES[i]) == "bcdieufgostTvxXj"[i]
  {
    var letters := "bcdieufgostTvxXj";
    assert letters[0] == 'b' && letters[1] == 'c' && letters[2] == 'd' && letters[3] == 'i' && letters[4] == 'e';
    assert letters[5] == 'u' && letters[6] == 'f' && letters[7] == 'g' && letters[8] == 'o' && letters[9] == 's';
    assert letters[10] == 't' && letters[11] == 'T' && letters[12] == 'v' && letters[13] == 'x' && letters[14] == 'X';
    assert letters[15] == 'j';
  }

  lemma BareText(t: TypeSpecifier)
    ensures Normal([PlaceholderPart(Bare(t))]) && Print([PlaceholderPart(Bare(t))]) == "%" + [Letter(t)]
  {
    hide Letter;
    assert [PlaceholderPart(Bare(t))][1..] == [];
    assert "" + [Letter(t)] == [Letter(t)];
  }

  /** Numbers are read up to the largest of 64 bits. */
  lemma WidthLimit(n: nat)
    requires n > 0
    ensures Parse("%" + (Decimal(n) + "d")).Some? <==> n < 0x1_0000_0000_0000_0000
  {
    var p := Bare(DecimalNumber).(width := Some(n));
    hide Parse, Decimal;
    PartPrinted(p, "");
    assert PrintPlaceholder(p) == "%" + (Decimal(n) + "d") by {
      assert "" + ("" + ("" + (Decimal(n) + ("" + "d")))) == Decimal(n) + "d";
    }
    assert PrintPlaceholder(p) + "" == PrintPlaceholder(p);
    EmptyLiteral();
  }

  /** A text with every element of a placeholder in it. */
  lemma ParseExample()
    ensures Parse("%2$+'*-10.3d%%%(_N4me)05s!")
         == Some([PlaceholderPart(Placeholder(Some(Indexed(2)), true, Some(CharPadding('*')), true, Some(10), Some(3),
                                              DecimalNumber)),
                  PercentPart,
                  PlaceholderPart(Placeholder(Some(Named("_N4me")), false, Some(ZeroPadding), false, Some(5), None,
                                              StringValue)),
                  TextPart("!")])
  {
    var p := Placeholder(Some(Indexed(2)), true, Some(CharPadding('*')), true, Some(10), Some(3), DecimalNumber);
    var q := Placeholder(Some(Named("_N4me")), false, Some(ZeroPadding), false, Some(5), None, StringValue);
    ExampleTexts(p, q);
    var m := [PlaceholderPart(p), PercentPart, PlaceholderPart(q), TextPart("!")];
    hide Parse, Print, PrintPlaceholder, Normal, NormalPlaceholder;
    ExamplePrint(p, q);
    NormalParsesBack(m);
  }

  lemma ExampleTexts(p: Placeholder, q: Placeholder)
    requires p == Placeholder(Some(Indexed(2)), true, Some(CharPadding('*')), true, Some(10), Some(3), DecimalNumber)
    requires q == Placeholder(Some(Named("_N4me")), false, Some(ZeroPadding), false, Some(5), None, StringValue)
    ensures NormalPlaceholder(p) && PrintPlaceholder(p) == "%2$+'*-10.3d"
    ensures NormalPlaceholder(q) && PrintPlaceholder(q) == "%(_N4me)05s"
  {
    assert Decimal(2) == "2" && Decimal(3) == "3" && Decimal(5) == "5" && Decimal(1) == "1";
    assert Decimal(10) == Decimal(1) + ['0'] == "10";
    hide Decimal;
  }

  lemma ExamplePrint(p: Placeholder, q: Placeholder)
    requires NormalPlaceholder(p) && PrintPlaceholder(p) == "%2$+'*-10.3d"
    requires NormalPlaceholder(q) && PrintPlaceholder(q) == "%(_N4me)05s"
    ensures var m := [PlaceholderPart(p), PercentPart, PlaceholderPart(q), TextPart("!")];
      Normal(m) && Print(m) == "%2$+'*-10.3d%%%(_N4me)05s!"
  {
    hide NormalPlaceholder, PrintPlaceholder, Print;
    var none: Message := [];
    NothingPrinted(none);
    PrintCons(TextPart("!"), none);
    PrintCons(PlaceholderPart(q), [TextPart("!")] + none);
    PrintCons(PercentPart, [PlaceholderPart(q)] + ([TextPart("!")] + none));
    PrintCons(PlaceholderPart(p), [PercentPart] + ([PlaceholderPart(q)] + ([TextPart("!")] + none)));
    assert [PlaceholderPart(p)] + ([PercentPart] + ([PlaceholderPart(q)] + ([TextPart("!")] + none)))
        == [PlaceholderPart(p), PercentPart, PlaceholderPart(q), TextPart("!")];
  }

  /** The message inserted for a missing key is not normal: it prints as nothing and reads back as a
      message without parts. */
  lemma EmptyLiteral()
    ensures Print(FromLiteral("")) == "" && Parse("") == Some([]) && FromLiteral("") != []
  {
    assert FromLiteral("")[1..] == [];
  }
}
