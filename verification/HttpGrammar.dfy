/**
 The reference meaning of HttpParser: an automaton that takes an HTTP stream one byte at a time.

 A Config holds the three fields of the parser, the bytes of the line in progress, every callback made so far, and
 how many bytes belong to finished protocol elements. Nothing in it depends on how the stream was cut into buffers.
 */
module HttpGrammar {
  import opened Ascii

  /** SIZE_UNKNOWN is static_cast<size_t>(-1). */
  const SIZE_UNKNOWN: Size := MAX_SIZE

  datatype State = Leader | Headers | ChunkSize | ChunkTerm | Trailers | Data | Complete

  datatype HttpError =
    | NoError | Protocol | Disconnected | ConnectFailed | SocketError | Overflow | StreamFailed | Auth
    | CertificateExpired | Other(code: int)

  /** PR_CONTINUE, PR_BLOCK, and PR_COMPLETE with the error it reports. */
  datatype Reply = Continue | Block | Finish(error: HttpError)

  const EACCES: int := 13
  const CERT_EXPIRED: int := -2146893016

  /** HandleStreamClose, unless the close is a valid end of the message. */
  function CloseError(code: int): HttpError {
    if code == 0 then Disconnected
    else if code == EACCES then Auth
    else if code == CERT_EXPIRED then CertificateExpired
    else SocketError
  }

  /** The error that stands for the code of a stream that has been closed or has failed. */
  predicate Reports(error: HttpError, code: int) {
    if code == 0 then error == Disconnected
    else if code == 13 then error == Auth
    else if code == -2146893016 then error == CertificateExpired
    else error == SocketError
  }

  /** One callback. Document data is logged byte by byte, so that the log does not show how it was delivered. */
  datatype Event =
    | LeaderLine(line: string)
    | Header(name: string, value: string)
    | HeadersDone(chunked: bool, size: Size)
    | DataByte(b: char)

  /** What the callbacks other than ProcessData answer, and what sscanf yields for a number over 32 bits. */
  datatype Callbacks = Callbacks(
    leader: string -> Reply,
    header: (string, string) -> Reply,
    headersDone: (bool, Size) -> (Size, Reply),
    overflow: string -> Size)

  datatype Parser = Parser(state: State, chunked: bool, dataSize: Size)

  /**
   Overread: a Content-Length header without a value, on which sscanf reads beyond the line. What happens then
   depends on memory that the parser does not own.
   */
  datatype Status = Running | Stopped(error: HttpError) | Overread

  datatype Config = Config(parser: Parser, line: string, log: seq<Event>, used: nat, status: Status)

  /** The automaton after reset(). */
  const Start := Config(Parser(Leader, false, SIZE_UNKNOWN), "", [], 0, Running)

  predicate InLine(p: Parser) {
    p.state != Data && p.state != Complete
  }

  datatype LineResult = Line(parser: Parser, events: seq<Event>, reply: Reply) | PastTheLine

  /** Index of the first ':' of the line, which strchrn looks for no further than a NUL. */
  function FindColon(line: string): (i: Option<nat>)
    ensures i.Some? ==> i.value < |line| && line[i.value] == ':' && ':' !in line[..i.value]
  {
    if line == "" || line[0] == '\0' then None
    else if line[0] == ':' then Some(0)
    else match FindColon(line[1..])
      case None => None
      case Some(i) => assert line[..i + 1] == [line[0]] + line[1..][..i]; Some(i + 1)
  }

  function HeaderStep(cb: Callbacks, p: Parser, name: string, value: string): LineResult {
    if EqualsNoCase(name, "Content-Length") then
      if value == "" then PastTheLine
      else
        (match ParseUnsigned(value, cb.overflow)
         case None => Line(p, [], Finish(Protocol))
         case Some(n) => Line(p.(dataSize := n), [Header(name, value)], cb.header(name, value)))
    else if EqualsNoCase(name, "Transfer-Encoding") then
      if EqualsNoCase(value, "chunked") then
        Line(p.(chunked := true), [Header(name, value)], cb.header(name, value))
      else if EqualsNoCase(value, "identity") then
        Line(p.(chunked := false), [Header(name, value)], cb.header(name, value))
      else
        Line(p, [], Finish(Protocol))
    else
      Line(p, [Header(name, value)], cb.header(name, value))
  }

  /** HttpParser::ProcessLine on a line without its terminator and trailing white space. */
  function LineStep(cb: Callbacks, p: Parser, line: string): LineResult
    requires InLine(p)
  {
    match p.state
    case Leader => Line(p.(state := Headers), [LeaderLine(line)], cb.leader(line))
    case Headers =>
      if line != "" then
        (match FindColon(line)
         case None => Line(p, [], Finish(Protocol))
         case Some(i) => HeaderStep(cb, p, line[..i], SkipSpaces(line[i + 1..])))
      else
        var (size, reply) := cb.headersDone(p.chunked, p.dataSize);
        var state := if p.chunked then ChunkSize else Data;
        Line(Parser(state, p.chunked, size), [HeadersDone(p.chunked, p.dataSize)], reply)
    case ChunkSize =>
      if line == "" then Line(p, [], Finish(Protocol))
      else
        (match ParseHex(line)
         case None => Line(p.(dataSize := HexPrefixValue(line)), [], Finish(Protocol))
         case Some(n) => Line(p.(dataSize := n, state := if n == 0 then Trailers else Data), [], Continue))
    case ChunkTerm =>
      if line != "" then Line(p, [], Finish(Protocol))
      else Line(p.(state := if p.chunked then ChunkSize else Data), [], Continue)
    case Trailers => Line(p, [], if line == "" then Finish(NoError) else Continue)
  }

  /** The number that strtoul stores even when the line goes on after it. */
  function HexPrefixValue(line: string): Size {
    if line == "" then 0
    else match ParseHex(line)
      case Some(n) => n
      case None => HexPrefixValue(line[..|line| - 1])
  }

  /** What the loop of Process does without taking a byte, when the data of a body or of a chunk is used up. */
  function Settle(c: Config): Config {
    if c.status.Running? && c.parser.state == Data && c.parser.dataSize == 0 then
      if c.parser.chunked then c.(parser := c.parser.(state := ChunkTerm)) else c.(status := Stopped(NoError))
    else c
  }

  function EndLine(cb: Callbacks, c: Config): Config
    requires InLine(c.parser)
  {
    var used := c.used + |c.line| + 1;
    match LineStep(cb, c.parser, TrimRight(c.line))
    case PastTheLine => c.(status := Overread)
    case Line(p, events, reply) =>
      Config(p, "", c.log + events, used, if reply.Finish? then Stopped(reply.error) else Running)
  }

  /** Document data of `p` may go on for `n` more bytes. */
  predicate Accepts(p: Parser, n: nat) {
    p.state == Data && (p.dataSize == SIZE_UNKNOWN || n <= p.dataSize)
  }

  function Shrink(p: Parser, n: nat): Parser
    requires Accepts(p, n)
  {
    if p.dataSize == SIZE_UNKNOWN then p else p.(dataSize := p.dataSize - n)
  }

  function Take(cb: Callbacks, c: Config, b: char): Config {
    if !c.status.Running? || c.parser.state == Complete then c
    else if InLine(c.parser) then
      if b == '\n' then EndLine(cb, c) else c.(line := c.line + [b])
    else if c.parser.dataSize == 0 then c
    else c.(parser := Shrink(c.parser, 1), log := c.log + [DataByte(b)], used := c.used + 1)
  }

  /** The configuration after the bytes `s`. */
  function Parse(cb: Callbacks, c: Config, s: string): Config {
    if s == "" then Settle(c) else Settle(Take(cb, Parse(cb, c, s[..|s| - 1]), s[|s| - 1]))
  }

  /** The last byte of `s` has ended a line whose callback blocks. */
  ghost predicate LineBlocks(cb: Callbacks, c: Config, s: string) {
    s != "" && s[|s| - 1] == '\n' && var d := Parse(cb, c, s[..|s| - 1]);
      d.status.Running? && InLine(d.parser) &&
      match LineStep(cb, d.parser, TrimRight(d.line)) case PastTheLine => false case Line(_, _, reply) => reply == Block
  }

  function DataBytes(s: string): (events: seq<Event>)
    ensures |events| == |s| && forall i :: 0 <= i < |s| ==> events[i] == DataByte(s[i])
  {
    seq(|s|, i requires 0 <= i < |s| => DataByte(s[i]))
  }

  /** `c` after the document bytes `s`. */
  function AfterData(c: Config, s: string): Config
    requires Accepts(c.parser, |s|)
  {
    c.(parser := Shrink(c.parser, |s|), log := c.log + DataBytes(s), used := c.used + |s|)
  }

  // ---------------------------------------------------------------- laws of the automaton

  lemma {:induction false} ParseConcat(cb: Callbacks, c: Config, s: string, t: string)
    ensures Parse(cb, c, s + t) == Parse(cb, Parse(cb, c, s), t)
    decreases |t|
  {
    if t == "" {
      assert s + t == s;
      ParseSettled(cb, c, s);
    } else {
      assert (s + t)[..|s + t| - 1] == s + t[..|t| - 1];
      ParseConcat(cb, c, s, t[..|t| - 1]);
    }
  }

  lemma {:induction false} ParseSettled(cb: Callbacks, c: Config, s: string)
    ensures Settle(Parse(cb, c, s)) == Parse(cb, c, s)
  {
  }

  /** Only what Settle leaves of the start matters. */
  lemma {:induction false} ParseFromSettled(cb: Callbacks, c: Config, s: string)
    ensures Parse(cb, c, s) == Parse(cb, Settle(c), s)
    decreases |s|
  {
    if s != "" {
      ParseFromSettled(cb, c, s[..|s| - 1]);
    }
  }

  lemma {:induction false} ParseStopped(cb: Callbacks, c: Config, s: string)
    requires !c.status.Running?
    ensures Parse(cb, c, s) == c
    decreases |s|
  {
    if s != "" {
      ParseStopped(cb, c, s[..|s| - 1]);
    }
  }

  /** Bytes without a newline only lengthen the line in progress. */
  lemma {:induction false} ParseInLine(cb: Callbacks, c: Config, s: string)
    requires c.status.Running? && InLine(c.parser) && '\n' !in s
    ensures Parse(cb, c, s) == c.(line := c.line + s)
    decreases |s|
  {
    if s == "" {
      assert c.line + s == c.line;
    } else {
      ParseInLine(cb, c, s[..|s| - 1]);
      assert s == s[..|s| - 1] + [s[|s| - 1]];
      assert c.line + s == c.line + s[..|s| - 1] + [s[|s| - 1]];
    }
  }

  lemma ParseLine(cb: Callbacks, c: Config, s: string)
    requires c.status.Running? && InLine(c.parser) && '\n' !in s && c.line == ""
    ensures Parse(cb, c, s + "\n") == Settle(EndLine(cb, c.(line := s)))
  {
    ParseInLine(cb, c, s);
    ParseConcat(cb, c, s, "\n");
    assert c.line + s == s;
    assert "\n"[..0] == "";
  }

  lemma {:induction false} ParseData(cb: Callbacks, c: Config, s: string)
    requires c.status.Running? && Accepts(c.parser, |s|)
    ensures Parse(cb, c, s) == Settle(AfterData(c, s))
    decreases |s|
  {
    hide EndLine, DataBytes;
    if s == "" {
      assert c.log + DataBytes(s) == c.log;
    } else {
      var t := s[..|s| - 1];
      ParseData(cb, c, t);
      assert DataBytes(s) == DataBytes(t) + [DataByte(s[|s| - 1])];
      assert c.log + DataBytes(s) == c.log + DataBytes(t) + [DataByte(s[|s| - 1])];
      assert Settle(AfterData(c, t)) == AfterData(c, t);
      assert Take(cb, AfterData(c, t), s[|s| - 1]) == AfterData(c, s);
    }
  }

  lemma DataBytesConcat(log: seq<Event>, s: string, t: string)
    ensures log + DataBytes(s) + DataBytes(t) == log + DataBytes(s + t)
    ensures log + DataBytes("") == log
  {
    assert DataBytes(s + t) == DataBytes(s) + DataBytes(t);
  }

  lemma ParseNothing(cb: Callbacks, c: Config)
    ensures Parse(cb, c, "") == Settle(c)
  {
  }

  // ---------------------------------------------------------------- cutting the stream

  /** The line in progress has no newline yet, and there is one only where lines are read. */
  predicate Open(c: Config) {
    c.status.Running? ==> '\n' !in c.line && (c.parser.state == Data ==> c.line == "")
  }

  lemma {:induction false} ParseOpen(cb: Callbacks, c: Config, s: string)
    requires Open(c)
    ensures Open(Parse(cb, c, s))
    decreases |s|
  {
    hide LineStep;
    if s != "" {
      ParseOpen(cb, c, s[..|s| - 1]);
    }
  }

  /**
   Split invariance: to go on from the parser's fields with the unprocessed tail and then `t` is the same as to have
   had `s + t` in one piece. Parser, callbacks, count of processed bytes and result all agree.
   */
  lemma SplitInvariance(cb: Callbacks, c: Config, s: string, t: string)
    requires Open(c) && c.parser.state != Complete
    requires Parse(cb, c, s).status.Running?
    ensures var mid := Parse(cb, c, s);
      Parse(cb, mid.(line := ""), mid.line + t) == Parse(cb, c, s + t)
  {
    hide LineStep;
    var mid := Parse(cb, c, s);
    ParseOpen(cb, c, s);
    ParseSettled(cb, c, s);
    ParseConcat(cb, c, s, t);
    ParseConcat(cb, mid.(line := ""), mid.line, t);
    if InLine(mid.parser) {
      ParseInLine(cb, mid.(line := ""), mid.line);
      assert "" + mid.line == mid.line;
    } else {
      NeverComplete(cb, c, s);
    }
  }

  lemma {:induction false} NeverComplete(cb: Callbacks, c: Config, s: string)
    requires c.parser.state != Complete
    ensures Parse(cb, c, s).parser.state != Complete
    decreases |s|
  {
    hide LineStep;
    if s != "" {
      var d := Parse(cb, c, s[..|s| - 1]);
      NeverComplete(cb, c, s[..|s| - 1]);
      if InLine(d.parser) {
        LineNeverCompletes(cb, d.parser, TrimRight(d.line));
      }
    }
  }

  lemma LineNeverCompletes(cb: Callbacks, p: Parser, line: string)
    requires InLine(p)
    ensures LineStep(cb, p, line).Line? ==> LineStep(cb, p, line).parser.state != Complete
  {
  }

  /** A Content-Length header without a value. */
  predicate EmptyLength(line: string) {
    var trimmed := TrimRight(line);
    match FindColon(trimmed)
    case None => false
    case Some(i) => EqualsNoCase(trimmed[..i], "Content-Length") && SkipSpaces(trimmed[i + 1..]) == ""
  }

  /** Byte number `i` ends such a line among the headers. */
  ghost predicate EndsEmptyLength(cb: Callbacks, c: Config, s: string, i: int)
    requires 0 <= i < |s|
  {
    var d := Parse(cb, c, s[..i]);
    d.status.Running? && d.parser.state == Headers && s[i] == '\n' && EmptyLength(d.line)
  }

  lemma TakeOverreads(cb: Callbacks, c: Config, b: char)
    requires !c.status.Overread?
    ensures Take(cb, c, b).status.Overread? <==>
      c.status.Running? && c.parser.state == Headers && b == '\n' && EmptyLength(c.line)
  {
    hide FindColon, TrimRight, SkipSpaces;
    assert FindColon("") == None by { NoColon(); }
  }

  lemma NoColon()
    ensures FindColon("") == None
  {
  }

  /** On any stream, the parser reads behind a line exactly when that is a Content-Length header without a value. */
  lemma {:induction false} OverreadIff(cb: Callbacks, c: Config, s: string)
    requires !c.status.Overread?
    ensures Parse(cb, c, s).status.Overread? <==> exists i :: 0 <= i < |s| && EndsEmptyLength(cb, c, s, i)
    decreases |s|
  {
    hide Take, Settle, EmptyLength;
    if s == "" {
      SettleKeeps(c);
    } else {
      var t := s[..|s| - 1];
      OverreadIff(cb, c, t);
      assert forall i :: 0 <= i < |t| ==> s[..i] == t[..i];
      assert forall i :: 0 <= i < |t| ==> (EndsEmptyLength(cb, c, s, i) <==> EndsEmptyLength(cb, c, t, i));
      var d := Parse(cb, c, t);
      SettleKeeps(Take(cb, d, s[|s| - 1]));
      if d.status.Overread? {
        TakeStays(cb, d, s[|s| - 1]);
      } else {
        TakeOverreads(cb, d, s[|s| - 1]);
        assert EndsEmptyLength(cb, c, s, |s| - 1) <==> Take(cb, d, s[|s| - 1]).status.Overread?;
      }
    }
  }

  lemma SettleKeeps(c: Config)
    ensures Settle(c).status.Overread? <==> c.status.Overread?
  {
  }

  lemma TakeStays(cb: Callbacks, c: Config, b: char)
    requires !c.status.Running?
    ensures Take(cb, c, b) == c
  {
  }

  /** No callback asks the parser to pause. */
  ghost predicate NeverBlocks(cb: Callbacks) {
    && (forall line :: cb.leader(line) != Block)
    && (forall name, value :: cb.header(name, value) != Block)
    && (forall chunked, size :: cb.headersDone(chunked, size).1 != Block)
  }
}
