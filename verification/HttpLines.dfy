/** Which lines HttpParser refuses, which end a message, and which callback each of them makes. */
module HttpLines {
  import opened Ascii
  import opened HttpGrammar

  /** A colon that no NUL stands before. */
  ghost predicate ColonAt(line: string, i: int) {
    0 <= i < |line| && line[i] == ':' && ':' !in line[..i] && '\0' !in line[..i]
  }

  lemma {:induction false} FindColonIff(line: string)
    ensures match FindColon(line)
      case None => forall i :: !ColonAt(line, i)
      case Some(i) => ColonAt(line, i)
    decreases |line|
  {
    if line != "" && line[0] != '\0' && line[0] != ':' {
      var rest := line[1..];
      FindColonIff(rest);
      forall i | 0 < i < |line| ensures ColonAt(line, i) <==> ColonAt(rest, i - 1) {
        assert line[..i] == [line[0]] + rest[..i - 1];
      }
      assert !ColonAt(line, 0);
    } else if line != "" {
      forall i | 0 < i < |line| ensures !ColonAt(line, i) {
        assert line[..i][0] == line[0];
      }
    }
  }

  /** The header line splits into this name and this value. */
  ghost predicate Splits(line: string, name: string, value: string) {
    exists i :: ColonAt(line, i) && name == line[..i] && value == SkipSpaces(line[i + 1..])
  }

  /** A length that is no number, or a coding that is neither chunked nor identity. */
  predicate BadHeader(cb: Callbacks, name: string, value: string) {
    || (EqualsNoCase(name, "Content-Length") && value != "" && ParseUnsigned(value, cb.overflow) == None)
    || (EqualsNoCase(name, "Transfer-Encoding") && !EqualsNoCase(value, "chunked") && !EqualsNoCase(value, "identity"))
  }

  /** The parser itself refuses the line. */
  ghost predicate Refused(cb: Callbacks, p: Parser, line: string) {
    match p.state
    case Headers =>
      line != "" && (|| (forall i :: !ColonAt(line, i))
                     || exists name, value :: Splits(line, name, value) && BadHeader(cb, name, value))
    case ChunkSize => line == "" || ParseHex(line) == None
    case ChunkTerm => line != ""
    case _ => false
  }

  /** What a line tells the subclass, and what that answers. */
  ghost predicate Tells(cb: Callbacks, p: Parser, line: string, events: seq<Event>, reply: Reply) {
    match p.state
    case Leader => events == [LeaderLine(line)] && reply == cb.leader(line)
    case Headers =>
      if line == "" then
        events == [HeadersDone(p.chunked, p.dataSize)] && reply == cb.headersDone(p.chunked, p.dataSize).1
      else exists name, value ::
        Splits(line, name, value) && events == [Header(name, value)] && reply == cb.header(name, value)
    case _ => events == [] && reply == if p.state == Trailers && line == "" then Finish(NoError) else Continue
  }

  /**
   Every line is refused with a protocol error, or told to the subclass, whose answer is that of the parser; only a
   Content-Length without a value is read past.
   */
  lemma RefusesIff(cb: Callbacks, p: Parser, line: string)
    requires InLine(p)
    ensures match LineStep(cb, p, line)
      case PastTheLine =>
        p.state == Headers && exists name :: Splits(line, name, "") && EqualsNoCase(name, "Content-Length")
      case Line(q, events, reply) =>
        if Refused(cb, p, line) then events == [] && reply == Finish(Protocol) else Tells(cb, p, line, events, reply)
  {
    hide FindColon, SkipSpaces, ParseHex, ParseUnsigned, HexPrefixValue, EqualsNoCase;
    if p.state == Headers && line != "" {
      FindColonIff(line);
      if FindColon(line).Some? {
        OneSplit(line, FindColon(line).value);
        HeaderTells(cb, p, line[..FindColon(line).value], SkipSpaces(line[FindColon(line).value + 1..]));
      }
    }
  }

  lemma OneSplit(line: string, i: int)
    requires ColonAt(line, i)
    ensures Splits(line, line[..i], SkipSpaces(line[i + 1..]))
    ensures forall name, value :: Splits(line, name, value) ==> name == line[..i] && value == SkipSpaces(line[i + 1..])
  {
    forall j | ColonAt(line, j) ensures i == j {
    }
  }

  lemma HeaderTells(cb: Callbacks, p: Parser, name: string, value: string)
    ensures match HeaderStep(cb, p, name, value)
      case PastTheLine => EqualsNoCase(name, "Content-Length") && value == ""
      case Line(q, events, reply) =>
        if BadHeader(cb, name, value) then events == [] && reply == Finish(Protocol)
        else events == [Header(name, value)] && reply == cb.header(name, value)
  {
    hide ParseUnsigned;
    assert |"Transfer-Encoding"| != |"Content-Length"|;
  }

  /** And where it leads: the order of the states. */
  lemma NextState(cb: Callbacks, p: Parser, line: string)
    requires InLine(p) && !Refused(cb, p, line) && LineStep(cb, p, line).Line?
    ensures LineStep(cb, p, line).parser.state ==
      match p.state
      case Leader => Headers
      case Headers => if line != "" then Headers else if p.chunked then ChunkSize else Data
      case ChunkSize => if ParseHex(line) == Some(0) then Trailers else Data
      case ChunkTerm => if p.chunked then ChunkSize else Data
      case Trailers => Trailers
    ensures p.state == ChunkSize ==> Some(LineStep(cb, p, line).parser.dataSize) == ParseHex(line)
    ensures p.state != Headers ==> LineStep(cb, p, line).parser.chunked == p.chunked
  {
    hide ParseHex, ParseUnsigned, EqualsNoCase, FindColon, SkipSpaces;
    if p.state == Headers && line != "" {
      FindColonIff(line);
    }
  }
}
