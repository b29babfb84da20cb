/** The PROXY protocol preamble of a connection (crates/listener/src/proxy_protocol/v1.rs and
    acceptor.rs) and the stream that gives back what was read too far (crates/listener/src/rewind.rs).
    Bytes are written as characters. Parsing addresses and ports is a parameter. */
module ProxyStream {
  import opened Text

  datatype FieldError = InvalidUtf8 | InvalidAddress | InvalidPort

  datatype ParseError =
    | NoCrLf
    | NoProxyPreamble
    | NoProtocol
    | InvalidProtocol
    | NoSourceAddress
    | NoDestinationAddress
    | NoSourcePort
    | NoDestinationPort
    | TooManyFields
    | InvalidField(error: FieldError)

  datatype Info<A> =
    | Tcp(source: A, sourcePort: nat, destination: A, destinationPort: nat)
    | Udp(source: A, sourcePort: nat, destination: A, destinationPort: nat)
    | Unknown

  /** The field parsers of the standard library. */
  datatype Fields<!A> = Fields(
    v4: string -> Result<A, FieldError>, v6: string -> Result<A, FieldError>, port: string -> Result<nat, FieldError>)

  datatype Parsed<A> = NotEnoughBytes | Invalid(error: ParseError) | Header(info: Info<A>, length: nat)

  // ---------------------------------------------------------------- finding the end of the line

  predicate CrLfAt(s: string, i: nat) { i + 2 <= |s| && s[i] == '\r' && s[i + 1] == '\n' }

  /** The first CRLF among the first 108 pairs of bytes, searching from `i`. */
  function Find(s: string, i: nat): (r: Option<nat>)
    ensures r.Some? ==> r.value + 2 <= |s|
    decreases 108 - i
  {
    if i >= 108 || i + 2 > |s| then None
    else if CrLfAt(s, i) then Some(i)
    else Find(s, i + 1)
  }

  /** `p` is where the first CRLF begins, and it is among the first 108 pairs. */
  ghost predicate IsFirst(s: string, p: nat) { p < 108 && CrLfAt(s, p) && forall i :: 0 <= i < p ==> !CrLfAt(s, i) }

  lemma {:induction false} FindIsFirst(s: string, i: nat, p: nat)
    requires forall j :: 0 <= j < i ==> !CrLfAt(s, j)
    ensures Find(s, i) == Some(p) <==> IsFirst(s, p)
    decreases 108 - i
  {
    if i < 108 && i + 2 <= |s| && !CrLfAt(s, i) {
      FindIsFirst(s, i + 1, p);
    }
  }

  // ---------------------------------------------------------------- parsing

  /** `splitn(6, ' ')`: the sixth piece is whatever remains. */
  function SplitN(s: string): (r: seq<string>)
    ensures 1 <= |r| <= 6
  {
    var pieces := Split(s, ' ');
    if |pieces| <= 6 then pieces else pieces[..5] + [Join(pieces[5..], " ")]
  }

  function Addressed<A>(f: Fields<A>, parse: string -> Result<A, FieldError>, it: seq<string>, udp: bool)
    : Result<Info<A>, ParseError>
  {
    if |it| <= 2 then Err(NoSourceAddress)
    else
      match parse(it[2])
      case Err(e) => Err(InvalidField(e))
      case Ok(source) =>
        if |it| <= 3 then Err(NoDestinationAddress)
        else
          match parse(it[3])
          case Err(e) => Err(InvalidField(e))
          case Ok(destination) => Ports(f, it, udp, source, destination)
  }

  function Ports<A>(f: Fields<A>, it: seq<string>, udp: bool, source: A, destination: A): Result<Info<A>, ParseError> {
    if |it| <= 4 then Err(NoSourcePort)
    else
      match f.port(it[4])
      case Err(e) => Err(InvalidField(e))
      case Ok(sourcePort) =>
        if |it| <= 5 then Err(NoDestinationPort)
        else
          match f.port(it[5])
          case Err(e) => Err(InvalidField(e))
          case Ok(destinationPort) =>
            if |it| > 6 then Err(TooManyFields)
            else if udp then Ok(Udp(source, sourcePort, destination, destinationPort))
            else Ok(Tcp(source, sourcePort, destination, destinationPort))
  }

  /** The line before the CRLF. */
  function ParseLine<A>(f: Fields<A>, line: string): Result<Info<A>, ParseError> {
    var it := SplitN(line);
    if it[0] != "PROXY" then Err(NoProxyPreamble)
    else if |it| == 1 then Err(NoProtocol)
    else if it[1] == "TCP4" then Addressed(f, f.v4, it, false)
    else if it[1] == "TCP6" then Addressed(f, f.v6, it, false)
    else if it[1] == "UDP4" then Addressed(f, f.v4, it, true)
    else if it[1] == "UDP6" then Addressed(f, f.v6, it, true)
    else if it[1] == "UNKNOWN" then Ok(Unknown)
    else Err(InvalidProtocol)
  }

  /** `ProxyProtocolV1Info::parse`; the length of a header is what the buffer is advanced by. */
  function Parse<A>(f: Fields<A>, buf: string): Parsed<A> {
    if |buf| < 15 then NotEnoughBytes
    else
      match Find(buf, 0)
      case None => if |buf| < 108 then NotEnoughBytes else Invalid(NoCrLf)
      case Some(crlf) =>
        match ParseLine(f, buf[..crlf])
        case Err(e) => Invalid(e)
        case Ok(info) => Header(info, crlf + 2)
  }

  /** Extra fields are never reported as such: they end up in the sixth piece. */
  lemma NeverTooManyFields<A>(f: Fields<A>, buf: string)
    ensures Parse(f, buf) != Invalid(TooManyFields)
    ensures forall line :: ParseLine(f, line) != Err(NoCrLf)
  {
    hide SplitN, Find;
  }

  /** The field parser that goes with a protocol. */
  function AddressOf<A>(f: Fields<A>, protocol: string): Option<string -> Result<A, FieldError>> {
    if protocol == "TCP4" || protocol == "UDP4" then Some(f.v4)
    else if protocol == "TCP6" || protocol == "UDP6" then Some(f.v6)
    else None
  }

  /** The sixth field and everything after it. */
  function LastField(fields: seq<string>): string
    requires |fields| > 5
  {
    Join(fields[5..], " ")
  }

  /** The first four fields of an address line can be read, as far as there are so many. */
  predicate Sound<A>(f: Fields<A>, address: string -> Result<A, FieldError>, fields: seq<string>, n: nat) {
    && (n > 2 && |fields| > 2 ==> address(fields[2]).Ok?)
    && (n > 3 && |fields| > 3 ==> address(fields[3]).Ok?)
    && (n > 4 && |fields| > 4 ==> f.port(fields[4]).Ok?)
    && (n > 5 && |fields| > 5 ==> f.port(LastField(fields)).Ok?)
  }

  /** Line by line, in terms of all the fields between single spaces. Without the word PROXY in front
      there is no preamble; without a second field no protocol; UNKNOWN ends the reading. */
  lemma PreambleIff<A>(f: Fields<A>, line: string)
    ensures var fields := Split(line, ' ');
      && (ParseLine(f, line) == Err(NoProxyPreamble) <==> fields[0] != "PROXY")
      && (ParseLine(f, line) == Err(NoProtocol) <==> fields == ["PROXY"])
      && (ParseLine(f, line) == Ok(Unknown) <==> |fields| > 1 && fields[0] == "PROXY" && fields[1] == "UNKNOWN")
      && (ParseLine(f, line) == Err(InvalidProtocol) <==>
            |fields| > 1 && fields[0] == "PROXY" && fields[1] !in {"TCP4", "TCP6", "UDP4", "UDP6", "UNKNOWN"})
  {
    PiecesOf(line);
    Protocols();
    hide SplitN, Addressed;
    var it := SplitN(line);
    AddressedErrors(f, f.v4, it, false);
    AddressedErrors(f, f.v6, it, false);
    AddressedErrors(f, f.v4, it, true);
    AddressedErrors(f, f.v6, it, true);
  }

  lemma AddressedErrors<A>(f: Fields<A>, address: string -> Result<A, FieldError>, it: seq<string>, udp: bool)
    ensures Addressed(f, address, it, udp)
      !in {Err(NoProxyPreamble), Err(NoProtocol), Err(InvalidProtocol), Ok(Unknown)}
  {
  }

  lemma PiecesOf(line: string)
    ensures var fields, it := Split(line, ' '), SplitN(line);
      && |it| == (if |fields| <= 6 then |fields| else 6)
      && (forall i :: 0 <= i < |it| && i < 5 ==> it[i] == fields[i])
      && (|it| == 6 ==> it[5] == LastField(fields))
  {
    var fields := Split(line, ' ');
    if |fields| == 6 {
      assert fields[5..] == [fields[5]];
    }
  }

  /** A line of a known protocol is an error for the first field that is missing or cannot be read, and
      an address pair if there is none: source and destination address, source and destination port. */
  lemma AddressLineIff<A>(f: Fields<A>, line: string, a: A, p: nat, b: A, q: nat)
    requires var fields := Split(line, ' '); |fields| > 1 && fields[0] == "PROXY" && AddressOf(f, fields[1]).Some?
    ensures var fields := Split(line, ' '); var address := AddressOf(f, fields[1]).value;
      && (ParseLine(f, line) == Err(NoSourceAddress) <==> |fields| == 2)
      && (ParseLine(f, line) == Err(NoDestinationAddress) <==> |fields| == 3 && Sound(f, address, fields, 3))
      && (ParseLine(f, line) == Err(NoSourcePort) <==> |fields| == 4 && Sound(f, address, fields, 4))
      && (ParseLine(f, line) == Err(NoDestinationPort) <==> |fields| == 5 && Sound(f, address, fields, 5))
      && (ParseLine(f, line).Ok? <==> |fields| > 5 && Sound(f, address, fields, 6))
    ensures var fields := Split(line, ' '); var address := AddressOf(f, fields[1]).value;
      (ParseLine(f, line) == Ok(Tcp(a, p, b, q)) || ParseLine(f, line) == Ok(Udp(a, p, b, q)) <==>
         && |fields| > 5 && address(fields[2]) == Ok(a) && address(fields[3]) == Ok(b)
         && f.port(fields[4]) == Ok(p) && f.port(LastField(fields)) == Ok(q))
    ensures var fields := Split(line, ' ');
      ParseLine(f, line).Ok? ==> if fields[1] in {"TCP4", "TCP6"} then ParseLine(f, line).value.Tcp?
                                 else ParseLine(f, line).value.Udp?
  {
    PiecesOf(line);
    Protocols();
    hide SplitN;
    var it, fields := SplitN(line), Split(line, ' ');
    AddressedIff(f, AddressOf(f, fields[1]).value, it, fields, fields[1] in {"UDP4", "UDP6"}, a, p, b, q);
  }

  lemma AddressedIff<A>(f: Fields<A>, address: string -> Result<A, FieldError>, it: seq<string>, fields: seq<string>,
                        udp: bool, a: A, p: nat, b: A, q: nat)
    requires 2 <= |it| == (if |fields| <= 6 then |fields| else 6)
    requires forall i :: 0 <= i < |it| && i < 5 ==> it[i] == fields[i]
    requires |it| == 6 ==> it[5] == LastField(fields)
    ensures var r := Addressed(f, address, it, udp);
      && (r == Err(NoSourceAddress) <==> |fields| == 2)
      && (r == Err(NoDestinationAddress) <==> |fields| == 3 && Sound(f, address, fields, 3))
      && (r == Err(NoSourcePort) <==> |fields| == 4 && Sound(f, address, fields, 4))
      && (r == Err(NoDestinationPort) <==> |fields| == 5 && Sound(f, address, fields, 5))
      && (r.Ok? <==> |fields| > 5 && Sound(f, address, fields, 6))
      && (r == Ok(if udp then Udp(a, p, b, q) else Tcp(a, p, b, q)) <==>
            && |fields| > 5 && address(fields[2]) == Ok(a) && address(fields[3]) == Ok(b)
            && f.port(fields[4]) == Ok(p) && f.port(LastField(fields)) == Ok(q))
      && (r.Ok? ==> if udp then r.value.Udp? else r.value.Tcp?)
      && r != Err(NoProxyPreamble) && r != Err(NoProtocol) && r != Err(InvalidProtocol)
  {
    hide LastField;
  }

  /** Which error a field that cannot be read gives: that of the first such field. */
  lemma FieldErrorIff<A>(f: Fields<A>, line: string, e: FieldError)
    requires var fields := Split(line, ' '); |fields| > 1 && fields[0] == "PROXY" && AddressOf(f, fields[1]).Some?
    ensures var fields := Split(line, ' '); var address := AddressOf(f, fields[1]).value;
      ParseLine(f, line) == Err(InvalidField(e)) <==>
        || (|fields| > 2 && address(fields[2]) == Err(e))
        || (|fields| > 3 && Sound(f, address, fields, 3) && address(fields[3]) == Err(e))
        || (|fields| > 4 && Sound(f, address, fields, 4) && f.port(fields[4]) == Err(e))
        || (|fields| > 5 && Sound(f, address, fields, 5) && f.port(LastField(fields)) == Err(e))
  {
    PiecesOf(line);
    Protocols();
    hide SplitN, LastField;
  }

  lemma Protocols()
    ensures "TCP4" != "TCP6" && "TCP4" != "UDP4" && "TCP4" != "UDP6" && "TCP4" != "UNKNOWN"
    ensures "TCP6" != "UDP4" && "TCP6" != "UDP6" && "TCP6" != "UNKNOWN"
    ensures "UDP4" != "UDP6" && "UDP4" != "UNKNOWN" && "UDP6" != "UNKNOWN"
  {
    assert "TCP4"[3] != "TCP6"[3] && "UDP4"[3] != "UDP6"[3] && "TCP4"[3] != "UDP6"[3];
    assert "TCP4"[0] != "UDP4"[0] && "TCP6"[0] != "UDP6"[0] && "TCP6"[0] != "UDP4"[0];
    assert |"UNKNOWN"| == 7;
  }

  /** When the parser waits, and when it gives up for want of a CRLF. */
  lemma WaitsIff<A>(f: Fields<A>, buf: string)
    ensures Parse(f, buf) == NotEnoughBytes <==> |buf| < 15 || (|buf| < 108 && forall p :: !IsFirst(buf, p))
    ensures Parse(f, buf) == Invalid(NoCrLf) <==> |buf| >= 108 && forall p :: !IsFirst(buf, p)
  {
    hide ParseLine, Find, IsFirst;
    NothingFound(buf);
    if Find(buf, 0).Some? {
      NeverTooManyFields(f, buf);
    }
  }

  /** Otherwise the line before the first CRLF decides, and a header ends behind it. */
  lemma LineDecides<A>(f: Fields<A>, buf: string, p: nat)
    requires |buf| >= 15 && IsFirst(buf, p)
    ensures p <= |buf|
    ensures ParseLine(f, buf[..p]).Err? ==> Parse(f, buf) == Invalid(ParseLine(f, buf[..p]).error)
    ensures ParseLine(f, buf[..p]).Ok? ==> Parse(f, buf) == Header(ParseLine(f, buf[..p]).value, p + 2)
  {
    hide ParseLine;
    FindIsFirst(buf, 0, p);
  }

  /** What is accepted begins with the preamble. */
  lemma HeaderHasPreamble<A>(f: Fields<A>, buf: string)
    requires Parse(f, buf).Header?
    ensures "PROXY " <= buf
  {
    hide ParseLine, Find, IsFirst;
    var p := Find(buf, 0).value;
    FindIsFirst(buf, 0, p);
    var line := buf[..p];
    PreambleIff(f, line);
    var fields := Split(line, ' ');
    assert line == fields[0] + " " + Join(fields[1..], " ");
    assert "PROXY " <= line;
  }

  /** The shortest header is not a byte too short: fifteen bytes suffice, and fewer never do if the field
      parsers refuse the empty text. */
  lemma ShortestHeader<A>(f: Fields<A>, line: string)
    ensures Parse(f, "PROXY UNKNOWN\r\n") == Header(Unknown, 15)
    ensures ParseLine(f, line).Ok? && f.v4("").Err? && f.v6("").Err? && f.port("").Err? ==> |line| + 2 >= 15
  {
    hide ParseLine, Parse, IsFirst;
    ShortestLine(f);
    ShortestIsFound();
    LineDecides(f, "PROXY UNKNOWN\r\n", 13);
    if ParseLine(f, line).Ok? && f.v4("").Err? && f.v6("").Err? && f.port("").Err? {
      LongEnough(f, line);
    }
  }

  lemma ShortestIsFound()
    ensures var short := "PROXY UNKNOWN\r\n"; |short| == 15 && IsFirst(short, 13) && short[..13] == "PROXY UNKNOWN"
  {
    var line, short := "PROXY UNKNOWN", "PROXY UNKNOWN\r\n";
    assert short == line + "\r\n";
    forall i | 0 <= i < 13 ensures !CrLfAt(short, i) {
      assert short[i] == line[i] && '\r' !in line;
    }
  }

  lemma ShortestLine<A>(f: Fields<A>)
    ensures ParseLine(f, "PROXY UNKNOWN") == Ok(Unknown)
  {
    var fields := ["PROXY", "UNKNOWN"];
    assert fields[1..] == ["UNKNOWN"] && Join(["UNKNOWN"], " ") == "UNKNOWN";
    assert Join(fields, " ") == "PROXY" + " " + "UNKNOWN" == "PROXY UNKNOWN";
    SplitUndoesJoin(fields, ' ');
    PreambleIff(f, "PROXY UNKNOWN");
  }

  lemma LongEnough<A>(f: Fields<A>, line: string)
    requires ParseLine(f, line).Ok? && f.v4("").Err? && f.v6("").Err? && f.port("").Err?
    ensures |line| >= 13
  {
    var fields := Split(line, ' ');
    PreambleIff(f, line);
    assert line == fields[0] + " " + Join(fields[1..], " ");
    if ParseLine(f, line) == Ok(Unknown) {
      JoinIsLonger(fields[1..]);
    } else {
      NotUnknown(f, line);
      var info := ParseLine(f, line).value;
      AddressLineIff(f, line, info.source, info.sourcePort, info.destination, info.destinationPort);
      hide ParseLine;
      assert fields[2] != "" && fields[3] != "" && fields[4] != "";
      assert fields[1..][0] == fields[1] && fields[1..][1..] == fields[2..];
      assert fields[2..][0] == fields[2] && fields[2..][1..] == fields[3..];
      assert fields[3..][0] == fields[3] && fields[3..][1..] == fields[4..];
      assert Join(fields[1..], " ") == fields[1] + " " + Join(fields[2..], " ");
      assert Join(fields[2..], " ") == fields[2] + " " + Join(fields[3..], " ");
      assert Join(fields[3..], " ") == fields[3] + " " + Join(fields[4..], " ");
      JoinIsLonger(fields[4..]);
    }
  }

  lemma NotUnknown<A>(f: Fields<A>, line: string)
    requires ParseLine(f, line).Ok? && ParseLine(f, line) != Ok(Unknown)
    ensures var fields := Split(line, ' ');
      |fields| > 1 && fields[0] == "PROXY" && AddressOf(f, fields[1]).Some? && |fields[1]| == 4
    ensures !ParseLine(f, line).value.Unknown?
  {
    PiecesOf(line);
    hide SplitN;
  }

  lemma JoinIsLonger(pieces: seq<string>)
    requires pieces != []
    ensures |Join(pieces, " ")| >= |pieces[0]|
  {
  }

  // ---------------------------------------------------------------- accepting

  datatype Outcome<A> =
    | Waiting
    | Rejected(error: ParseError)
    | Accepted(info: Info<A>, leftover: string, rest: seq<string>)

  function Concat(chunks: seq<string>): string {
    if chunks == [] then "" else chunks[0] + Concat(chunks[1..])
  }

  /** Reading chunk after chunk until the parser decides. */
  function AcceptFrom<A>(f: Fields<A>, buf: string, chunks: seq<string>): Outcome<A>
    decreases chunks
  {
    if chunks == [] then Waiting
    else
      var more := buf + chunks[0];
      match Parse(f, more)
      case NotEnoughBytes => AcceptFrom(f, more, chunks[1..])
      case Invalid(e) => Rejected(e)
      case Header(info, n) =>
        HeaderFits(f, more);
        Accepted(info, more[n..], chunks[1..])
  }

  lemma HeaderFits<A>(f: Fields<A>, buf: string)
    ensures Parse(f, buf).Header? ==> Parse(f, buf).length <= |buf|
  {
    if Find(buf, 0).Some? {
      FindIsFirst(buf, 0, Find(buf, 0).value);
    }
  }

  /** The outcome of reading in pieces is that of seeing the whole stream at once. */
  ghost predicate Agrees<A>(o: Outcome<A>, whole: Parsed<A>, s: string) {
    match whole
    case NotEnoughBytes => o == Waiting
    case Invalid(e) => o == Rejected(e)
    case Header(info, n) => o.Accepted? && o.info == info && n <= |s| && o.leftover + Concat(o.rest) == s[n..]
  }

  /** Some read ends after exactly `n` bytes. */
  ghost predicate CutAt(seen: nat, chunks: seq<string>, n: nat)
    decreases chunks
  {
    chunks != [] && (seen + |chunks[0]| == n || CutAt(seen + |chunks[0]|, chunks[1..], n))
  }

  /** A CRLF in the last place where it is looked for. */
  ghost predicate AtTheLimit(s: string) { IsFirst(s, 107) }

  lemma FirstInPrefix(s: string, n: nat, p: nat)
    requires n <= |s|
    ensures IsFirst(s[..n], p) <==> IsFirst(s, p) && p + 2 <= n
  {
    assert forall i :: 0 <= i && i + 2 <= n ==> CrLfAt(s[..n], i) == CrLfAt(s, i);
  }

  lemma NothingFound(s: string)
    ensures Find(s, 0).None? <==> forall p :: !IsFirst(s, p)
  {
    forall p: nat ensures Find(s, 0) == Some(p) <==> IsFirst(s, p) {
      FindIsFirst(s, 0, p);
    }
  }

  /** What the parser decides on a part of the stream stands, except at the limit after 108 bytes. */
  lemma DecisionStands<A>(f: Fields<A>, s: string, n: nat)
    requires n <= |s| && Parse(f, s[..n]) != NotEnoughBytes && !(AtTheLimit(s) && n == 108)
    ensures Parse(f, s) == Parse(f, s[..n])
  {
    hide ParseLine, Find, IsFirst;
    if Find(s[..n], 0).Some? {
      var p := Find(s[..n], 0).value;
      FindIsFirst(s[..n], 0, p);
      FirstInPrefix(s, n, p);
      FindIsFirst(s, 0, p);
      FirstIsInside(s[..n], p);
      assert s[..n][..p] == s[..p];
    } else {
      NothingFound(s[..n]);
      NothingFound(s);
      forall p ensures !IsFirst(s, p) {
        FirstInPrefix(s, n, p);
        FirstIsInside(s, p);
      }
    }
  }

  lemma FirstIsInside(s: string, p: nat)
    ensures IsFirst(s, p) ==> p + 2 <= |s| && p < 108
    ensures IsFirst(s, p) && p == 107 ==> AtTheLimit(s)
  {
  }

  /** At the limit the parser waits until 107 bytes, gives up at 108 and would have been content with 109. */
  lemma TheLimit<A>(f: Fields<A>, s: string, n: nat)
    requires AtTheLimit(s) && n <= 108
    ensures n <= |s| && Parse(f, s[..n]) == if n < 108 then NotEnoughBytes else Invalid(NoCrLf)
    ensures Parse(f, s) != Invalid(NoCrLf) && Parse(f, s) != NotEnoughBytes
  {
    hide ParseLine, Find;
    NothingFound(s[..n]);
    forall p ensures !IsFirst(s[..n], p) {
      FirstInPrefix(s, n, p);
    }
    FindIsFirst(s, 0, 107);
    NeverTooManyFields(f, s);
  }

  lemma {:induction false} AcceptAgreesFrom<A>(f: Fields<A>, buf: string, chunks: seq<string>)
    requires Parse(f, buf) == NotEnoughBytes
    ensures var s := buf + Concat(chunks);
      Agrees(AcceptFrom(f, buf, chunks), Parse(f, s), s) <==> !(AtTheLimit(s) && CutAt(|buf|, chunks, 108))
    decreases chunks
  {
    hide Parse, AtTheLimit;
    var s := buf + Concat(chunks);
    if chunks == [] {
      assert s == buf;
    } else {
      var more := buf + chunks[0];
      assert s == more + Concat(chunks[1..]);
      assert s[..|more|] == more;
      if Parse(f, more) == NotEnoughBytes {
        AcceptAgreesFrom(f, more, chunks[1..]);
        if AtTheLimit(s) && |more| == 108 { TheLimit(f, s, 108); }
      } else {
        Decided(f, s, buf, chunks);
      }
    }
  }

  lemma Decided<A>(f: Fields<A>, s: string, buf: string, chunks: seq<string>)
    requires chunks != [] && s == buf + Concat(chunks) && s[..|buf + chunks[0]|] == buf + chunks[0]
    requires Parse(f, buf + chunks[0]) != NotEnoughBytes
    ensures Agrees(AcceptFrom(f, buf, chunks), Parse(f, s), s) <==> !(AtTheLimit(s) && CutAt(|buf|, chunks, 108))
  {
    hide Parse, AtTheLimit;
    var more := buf + chunks[0];
    HeaderFits(f, more);
    if AtTheLimit(s) && |more| <= 108 {
      TheLimit(f, s, |more|);
    } else {
      DecisionStands(f, s, |more|);
      if AtTheLimit(s) { NoLaterCut(|more|, chunks[1..], 108); }
      assert Parse(f, s).Header? ==> more[Parse(f, s).length..] + Concat(chunks[1..]) == s[Parse(f, s).length..];
    }
  }

  lemma {:induction false} NoLaterCut(seen: nat, chunks: seq<string>, n: nat)
    requires seen > n
    ensures !CutAt(seen, chunks, n)
    decreases chunks
  {
    if chunks != [] { NoLaterCut(seen + |chunks[0]|, chunks[1..], n); }
  }

  /** How the bytes arrive makes no difference to what is accepted, to the information found or to the
      bytes left for the application, with one exception: a line of exactly 107 bytes is turned
      away if a read ends between the CR and the LF. */
  lemma ChunkingIsIrrelevantIff<A>(f: Fields<A>, chunks: seq<string>)
    ensures var s := Concat(chunks);
      Agrees(AcceptFrom(f, "", chunks), Parse(f, s), s) <==> !(AtTheLimit(s) && CutAt(0, chunks, 108))
  {
    assert "" + Concat(chunks) == Concat(chunks);
    AcceptAgreesFrom(f, "", chunks);
  }

  /** The exception exists: this stream is accepted in one piece and rejected in two. */
  lemma LimitExample<A>(f: Fields<A>)
    ensures var line := "PROXY UNKNOWN " + seq(93, _ => 'x');
      && AcceptFrom(f, "", [line + "\r\n"]) == Accepted(Unknown, "", [])
      && AcceptFrom(f, "", [line + "\r", "\n"]) == Rejected(NoCrLf)
  {
    hide Parse, AtTheLimit;
    var x: string := seq(93, _ => 'x');
    var line := "PROXY UNKNOWN " + x;
    LimitLine(f, x);
    OneRead(f, line + "\r\n");
    TheLimit(f, line + "\r\n", 108);
    assert (line + "\r\n")[..108] == line + "\r";
    FirstReadRejected(f, line + "\r", ["\n"]);
    assert [line + "\r"] + ["\n"] == [line + "\r", "\n"];
  }

  lemma OneRead<A>(f: Fields<A>, s: string)
    requires Parse(f, s) == Header(Unknown, |s|)
    ensures AcceptFrom(f, "", [s]) == Accepted(Unknown, "", [])
  {
    hide Parse;
    assert "" + s == s && s[|s|..] == "";
  }

  lemma FirstReadRejected<A>(f: Fields<A>, s: string, rest: seq<string>)
    requires Parse(f, s) == Invalid(NoCrLf)
    ensures AcceptFrom(f, "", [s] + rest) == Rejected(NoCrLf)
  {
    hide Parse;
    assert "" + s == s;
  }

  lemma LimitLine<A>(f: Fields<A>, x: string)
    requires |x| == 93 && forall i :: 0 <= i < 93 ==> x[i] == 'x'
    ensures AtTheLimit("PROXY UNKNOWN " + x + "\r\n")
    ensures Parse(f, "PROXY UNKNOWN " + x + "\r\n") == Header(Unknown, 109)
  {
    var line := "PROXY UNKNOWN " + x;
    var s := line + "\r\n";
    assert |line| == 107;
    forall i | 0 <= i < 107 ensures s[i] != '\r' {
      assert s[i] == line[i];
    }
    assert IsFirst(s, 107);
    FindIsFirst(s, 0, 107);
    assert s[..107] == line;
    hide ParseLine, Find, IsFirst;
    UnknownLine(f, x);
  }

  lemma UnknownLine<A>(f: Fields<A>, x: string)
    requires ' ' !in x
    ensures ParseLine(f, "PROXY UNKNOWN " + x) == Ok(Unknown)
  {
    var pieces := ["PROXY", "UNKNOWN", x];
    assert pieces[1..] == ["UNKNOWN", x] && pieces[1..][1..] == [x];
    assert Join([x], " ") == x;
    assert Join(pieces[1..], " ") == "UNKNOWN " + x;
    assert Join(pieces, " ") == "PROXY UNKNOWN " + x;
    SplitUndoesJoin(pieces, ' ');
  }

  // ---------------------------------------------------------------- streams

  /** A connection: the chunks in which its bytes arrive. */
  class Stream {
    var chunks: seq<string>

    constructor (c: seq<string>)
      ensures chunks == c
    {
      chunks := c;
    }

    /** `read_buf` into a growing buffer: the next chunk, or nothing at the end. */
    method ReadBuf(buf: string) returns (more: string)
      modifies this
      ensures old(chunks) == [] ==> more == buf && chunks == []
      ensures old(chunks) != [] ==> more == buf + old(chunks)[0] && chunks == old(chunks)[1..]
    {
      if chunks == [] { return buf; }
      more := buf + chunks[0];
      chunks := chunks[1..];
    }

    /** `poll_read` into a buffer of limited size. */
    method PollRead(remaining: nat) returns (data: string)
      modifies this
      ensures |data| <= remaining && old(Concat(chunks)) == data + Concat(chunks)
      ensures old(Concat(chunks)) != "" && remaining > 0 ==> data != "" || |chunks| < |old(chunks)|
    {
      if chunks == [] { return ""; }
      var first := chunks[0];
      if |first| <= remaining {
        chunks := chunks[1..];
        return first;
      }
      data := first[..remaining];
      chunks := [first[remaining..]] + chunks[1..];
      assert data + first[remaining..] == first;
      assert data + (first[remaining..] + Concat(chunks[1..])) == first + Concat(chunks[1..]);
    }
  }

  class Rewind {
    var pre: Option<string>
    const inner: Stream

    constructor NewBuffered(io: Stream, buf: string)
      ensures pre == Some(buf) && inner == io
    {
      pre, inner := Some(buf), io;
    }

    /** The bytes still to come. */
    ghost function Remaining(): string
      reads this, inner
    {
      (if pre.Some? then pre.value else "") + Concat(inner.chunks)
    }

    method PollRead(remaining: nat) returns (data: string)
      modifies this, inner
      ensures |data| <= remaining && old(Remaining()) == data + Remaining()
      ensures old(pre).Some? && old(pre).value != "" ==> inner.chunks == old(inner.chunks)
      ensures old(pre).Some? && old(pre).value != "" && remaining > 0 ==> data != ""
    {
      var taken := pre;
      pre := None;
      if taken.Some? && taken.value != "" {
        var copy := if |taken.value| <= remaining then |taken.value| else remaining;
        data := taken.value[..copy];
        var prefix := taken.value[copy..];
        if prefix != "" {
          pre := Some(prefix);
        }
        assert taken.value == data + prefix;
        assert data + prefix + Concat(inner.chunks) == data + (prefix + Concat(inner.chunks));
        return;
      }
      data := inner.PollRead(remaining);
      assert "" + Concat(inner.chunks) == Concat(inner.chunks);
      assert old("" + Concat(inner.chunks)) == old(Concat(inner.chunks));
    }

    /** Whatever the sizes of the buffers, the data read is the beginning of the bytes to come. */
    method ReadAll(sizes: seq<nat>) returns (data: string)
      modifies this, inner
      ensures old(Remaining()) == data + Remaining()
    {
      data := "";
      assert old(Remaining()) == "" + Remaining();
      for i := 0 to |sizes|
        invariant old(Remaining()) == data + Remaining()
      {
        ghost var was := Remaining();
        var more := PollRead(sizes[i]);
        assert data + (more + Remaining()) == data + more + Remaining();
        data := data + more;
      }
    }
  }

  /** `ProxyAcceptor::accept`: the loop that reads until the preamble is decided. Waiting stands for a
      stream that ends before. */
  method Accept<A>(f: Fields<A>, stream: Stream) returns (outcome: Outcome<A>, rewind: Rewind?)
    modifies stream
    ensures outcome == AcceptFrom(f, "", old(stream.chunks))
    ensures outcome.Accepted? <==> rewind != null
    ensures rewind != null ==>
      fresh(rewind) && rewind.inner == stream && rewind.pre == Some(outcome.leftover) && stream.chunks == outcome.rest
  {
    hide Parse;
    var buf := "";
    rewind := null;
    while stream.chunks != []
      invariant AcceptFrom(f, "", old(stream.chunks)) == AcceptFrom(f, buf, stream.chunks)
      decreases stream.chunks
    {
      buf := stream.ReadBuf(buf);
      var parsed := Parse(f, buf);
      if parsed.Invalid? { return Rejected(parsed.error), null; }
      if parsed.Header? {
        HeaderFits(f, buf);
        rewind := new Rewind.NewBuffered(stream, buf[parsed.length..]);
        return Accepted(parsed.info, buf[parsed.length..], stream.chunks), rewind;
      }
    }
    return Waiting, null;
  }

  /** Accepting, then reading with buffers of any sizes: the application gets the bytes after the
      preamble, in order, none lost and none twice, however they arrived. */
  method AcceptThenRead<A>(f: Fields<A>, stream: Stream, sizes: seq<nat>) returns (outcome: Outcome<A>, data: string)
    modifies stream
    ensures outcome == AcceptFrom(f, "", old(stream.chunks))
    ensures outcome.Accepted? ==>
      && Parse(f, old(Concat(stream.chunks))).Header?
      && Parse(f, old(Concat(stream.chunks))).info == outcome.info
      && Parse(f, old(Concat(stream.chunks))).length <= |old(Concat(stream.chunks))|
      && data <= old(Concat(stream.chunks))[Parse(f, old(Concat(stream.chunks))).length..]
  {
    hide Parse, AtTheLimit;
    data := "";
    ghost var s, chunks := Concat(stream.chunks), stream.chunks;
    var rewind;
    outcome, rewind := Accept(f, stream);
    AcceptedAgrees(f, chunks);
    if rewind != null {
      data := rewind.ReadAll(sizes);
    }
  }

  /** What is accepted is always right; only a rejection can be due to the chunking. */
  lemma AcceptedAgrees<A>(f: Fields<A>, chunks: seq<string>)
    ensures AcceptFrom(f, "", chunks).Accepted? ==>
      Agrees(AcceptFrom(f, "", chunks), Parse(f, Concat(chunks)), Concat(chunks))
  {
    hide Parse, AtTheLimit;
    assert Parse(f, "") == NotEnoughBytes by { TooShort(f); }
    ChunkingIsIrrelevantIff(f, chunks);
    if AtTheLimit(Concat(chunks)) && CutAt(0, chunks, 108) {
      assert "" + Concat(chunks) == Concat(chunks);
      CutRejects(f, "", chunks);
    }
  }

  lemma TooShort<A>(f: Fields<A>)
    ensures Parse(f, "") == NotEnoughBytes
  {
  }

  lemma {:induction false} CutRejects<A>(f: Fields<A>, buf: string, chunks: seq<string>)
    requires AtTheLimit(buf + Concat(chunks)) && CutAt(|buf|, chunks, 108)
    ensures AcceptFrom(f, buf, chunks) == Rejected(NoCrLf)
    decreases chunks
  {
    hide Parse, AtTheLimit;
    var more, s := buf + chunks[0], buf + Concat(chunks);
    assert s == more + Concat(chunks[1..]) && s[..|more|] == more;
    if |more| > 108 { NoLaterCut(|more|, chunks[1..], 108); }
    TheLimit(f, s, |more|);
    if |more| < 108 { CutRejects(f, more, chunks[1..]); }
  }
}
