/** What the sender puts on the wire, the parser takes apart again: chunks, headers, and whole messages. */
module HttpExchange {
  import opened Ascii
  import opened HttpGrammar
  import opened HttpMessage
  import opened HttpSending
  import opened HttpReceiving

  // ---------------------------------------------------------------- the chunk size line

  function Pow16(k: nat): nat {
    if k == 0 then 1 else 16 * Pow16(k - 1)
  }

  lemma {:induction false} HexValueOfHex(n: nat, k: nat)
    requires n < Pow16(k)
    ensures HexValue(Hex(n, k)) == n
  {
    if k > 0 {
      HexValueOfHex(n / 16, k - 1);
      assert Hex(n, k)[..k - 1] == Hex(n / 16, k - 1);
    }
  }

  /** strtoul reads back what "%.*x" prints. */
  lemma HexRoundTrip(n: Size)
    ensures ParseHex(Hex(n, CHUNK_DIGITS)) == Some(n)
  {
    assert Pow16(CHUNK_DIGITS) == MAX_SIZE + 1 by {
      assert Pow16(2) == 0x100 && Pow16(4) == 0x1_0000 && Pow16(6) == 0x100_0000;
    }
    HexValueOfHex(n, CHUNK_DIGITS);
    var s := Hex(n, CHUNK_DIGITS);
    assert IsHex(s[0]) && IsHex(s[1]);
    assert s[0] in s;
  }

  lemma {:induction false} TrimCR(s: string)
    ensures TrimRight(s + "\r") == TrimRight(s)
  {
    assert (s + "\r")[..|s|] == s;
  }

  lemma NoTrim(s: string)
    requires s == "" || !IsSpace(s[|s| - 1])
    ensures TrimRight(s) == s
  {
  }

  // ---------------------------------------------------------------- chunks

  predicate AtChunk(c: Config) {
    c.status.Running? && c.line == "" && c.parser.state == ChunkSize && c.parser.chunked
  }

  lemma SizeLine(cb: Callbacks, c: Config, n: Size)
    requires AtChunk(c) && 0 < n < SIZE_UNKNOWN
    ensures Parse(cb, c, Hex(n, CHUNK_DIGITS) + CRLF)
         == c.(parser := Parser(Data, true, n), used := c.used + CHUNK_DIGITS + 2)
  {
    hide Parse, ParseHex;
    var hex := Hex(n, CHUNK_DIGITS);
    HexRoundTrip(n);
    assert hex[|hex| - 1] in hex;
    NoTrim(hex);
    TrimCR(hex);
    ParseLine(cb, c, hex + "\r");
    assert hex + "\r" + "\n" == hex + CRLF;
    assert c.log + [] == c.log;
  }

  /** An empty line in the states that want one. */
  lemma EmptyLine(cb: Callbacks, c: Config)
    requires c.status.Running? && c.line == "" && (c.parser.state == ChunkTerm || c.parser.state == Trailers)
    requires c.parser.chunked
    ensures Parse(cb, c, CRLF) == c.(
      parser := if c.parser.state == ChunkTerm then c.parser.(state := ChunkSize) else c.parser,
      used := c.used + 2,
      status := if c.parser.state == ChunkTerm then Running else Stopped(NoError))
  {
    hide Parse;
    TrimCR("");
    assert "" + "\r" == "\r" && "\r" + "\n" == CRLF;
    ParseLine(cb, c, "\r");
    assert c.log + [] == c.log;
  }

  /** One chunk delivers its data, and leaves the parser before the next chunk size. */
  lemma ChunkRoundTrip(cb: Callbacks, c: Config, data: string)
    requires AtChunk(c) && 0 < |data| < SIZE_UNKNOWN
    ensures Parse(cb, c, Chunk(data)) ==
      Config(Parser(ChunkSize, true, 0), "", c.log + DataBytes(data), c.used + |Chunk(data)|, Running)
  {
    hide Parse, Hex;
    var size := Hex(|data|, CHUNK_DIGITS) + CRLF;
    SizeLine(cb, c, |data|);
    ParseData(cb, Parse(cb, c, size), data);
    ParseConcat(cb, c, size, data);
    EmptyLine(cb, Parse(cb, c, size + data));
    ParseConcat(cb, c, size + data, CRLF);
  }

  lemma ZeroIsRead()
    ensures ParseHex("0") == Some(0) && TrimRight("0\r") == "0"
  {
    assert HexValue("0") == 16 * HexValue("0"[..0]) + 0;
    NoTrim("0");
    TrimCR("0");
    assert "0" + "\r" == "0\r";
  }

  lemma ZeroLine(cb: Callbacks, c: Config)
    requires AtChunk(c)
    ensures Parse(cb, c, "0\r" + "\n") == c.(parser := Parser(Trailers, true, 0), used := c.used + 3)
  {
    hide Parse, ParseHex, TrimRight;
    ZeroIsRead();
    ParseLine(cb, c, "0\r");
    assert c.log + [] == c.log;
  }

  lemma LastChunkEnds(cb: Callbacks, c: Config)
    requires AtChunk(c)
    ensures Parse(cb, c, LAST_CHUNK) ==
      Config(Parser(Trailers, true, 0), "", c.log, c.used + |LAST_CHUNK|, Stopped(NoError))
  {
    hide Parse;
    ZeroLine(cb, c);
    EmptyLine(cb, c.(parser := Parser(Trailers, true, 0), used := c.used + 3));
    ParseConcat(cb, c, "0\r" + "\n", CRLF);
    assert LAST_CHUNK == "0\r" + "\n" + CRLF;
  }

  lemma {:induction false} ChunksRoundTrip(cb: Callbacks, c: Config, cuts: seq<string>)
    requires AtChunk(c) && forall cut :: cut in cuts ==> 0 < |cut| < SIZE_UNKNOWN
    ensures var d := Parse(cb, c, Pieces(true, cuts));
      AtChunk(d) && d.log == c.log + DataBytes(Flatten(cuts)) && d.used == c.used + |Pieces(true, cuts)|
    decreases |cuts|
  {
    hide Parse, Chunk;
    if cuts == [] {
      ParseNothing(cb, c);
      DataBytesConcat(c.log, "", "");
    } else {
      var front, last := cuts[..|cuts| - 1], cuts[|cuts| - 1];
      assert last in cuts;
      ChunksRoundTrip(cb, c, front);
      ChunkRoundTrip(cb, Parse(cb, c, Pieces(true, front)), last);
      ParseConcat(cb, c, Pieces(true, front), Chunk(last));
      DataBytesConcat(c.log, Flatten(front), last);
    }
  }

  /** However flush_data cuts a document into reads, the parser delivers the document, and then PR_COMPLETE. */
  lemma ChunkedBodyRoundTrip(cb: Callbacks, c: Config, cuts: seq<string>)
    requires AtChunk(c) && forall cut :: cut in cuts ==> 0 < |cut| < SIZE_UNKNOWN
    ensures Parse(cb, c, Body(true, cuts)) ==
      Config(Parser(Trailers, true, 0), "", c.log + DataBytes(Flatten(cuts)), c.used + |Body(true, cuts)|,
             Stopped(NoError))
  {
    ChunksRoundTrip(cb, c, cuts);
    LastChunkEnds(cb, Parse(cb, c, Pieces(true, cuts)));
    ParseConcat(cb, c, Pieces(true, cuts), LAST_CHUNK);
  }

  // ---------------------------------------------------------------- the head

  /** A header that survives the trimming of the parser: section 4.2 of RFC 2616 without folding. */
  predicate Plain(f: Field) {
    && ':' !in f.name && '\0' !in f.name && '\n' !in f.name && '\n' !in f.value
    && SkipSpaces(f.value) == f.value && TrimRight(f.value) == f.value
  }

  lemma {:induction false} ColonAfterName(name: string, rest: string)
    requires ':' !in name && '\0' !in name
    ensures FindColon(name + ":" + rest) == Some(|name|)
  {
    if name != "" {
      assert (name + ":" + rest)[1..] == name[1..] + ":" + rest;
      ColonAfterName(name[1..], rest);
    }
  }

  /** What is left of the formatted line when the parser has trimmed it. */
  lemma TrimField(f: Field)
    requires Plain(f)
    ensures TrimRight(f.name + ": " + f.value + "\r") == f.name + ":" + if f.value == "" then "" else " " + f.value
  {
    TrimCR(f.name + ": " + f.value);
    if f.value == "" {
      var s := f.name + ":";
      assert f.name + ": " + f.value == s + " ";
      assert (s + " ")[..|s|] == s;
      NoTrim(s);
      assert f.name + ":" + "" == s;
    } else {
      var s := f.name + ": " + f.value;
      assert !IsSpace(f.value[|f.value| - 1]) by {
        if IsSpace(f.value[|f.value| - 1]) {
          TrimShortens(f.value[..|f.value| - 1]);
        }
      }
      NoTrim(s);
      assert f.name + ":" + (" " + f.value) == s;
    }
  }

  lemma TrimShortens(s: string)
    ensures |TrimRight(s)| <= |s|
  {
  }

  /** A formatted header, parsed, is the header again. */
  lemma FieldRoundTrip(cb: Callbacks, c: Config, f: Field)
    requires Plain(f) && c.status.Running? && c.line == "" && c.parser.state == Headers
    ensures match HeaderStep(cb, c.parser, f.name, f.value)
      case PastTheLine => Parse(cb, c, FormatField(f)).status == Overread
      case Line(p, events, reply) =>
        Parse(cb, c, FormatField(f)) ==
        Config(p, "", c.log + events, c.used + |FormatField(f)|,
               if reply.Finish? then Stopped(reply.error) else Running)
  {
    hide Parse, HeaderStep, FindColon, TrimRight;
    var line := f.name + ": " + f.value + "\r";
    assert line + "\n" == FormatField(f);
    ParseLine(cb, c, line);
    TrimField(f);
    var rest := if f.value == "" then "" else " " + f.value;
    ColonAfterName(f.name, rest);
    var trimmed := f.name + ":" + rest;
    assert trimmed[..|f.name|] == f.name && trimmed[|f.name| + 1..] == rest;
    assert SkipSpaces(rest) == f.value by {
      assert rest != "" ==> rest[1..] == f.value;
    }
    assert LineStep(cb, c.parser, trimmed) == HeaderStep(cb, c.parser, f.name, f.value);
    KeepsState(cb, c.parser, f);
  }

  /** Exactly an empty Content-Length makes sscanf run on into memory behind the line. */
  lemma FieldOverreadsIff(cb: Callbacks, c: Config, f: Field)
    requires Plain(f) && c.status.Running? && c.line == "" && c.parser.state == Headers
    ensures Parse(cb, c, FormatField(f)).status == Overread <==> EqualsNoCase(f.name, "Content-Length") && f.value == ""
  {
    hide Parse, Plain, FormatField;
    FieldRoundTrip(cb, c, f);
  }

  lemma KeepsState(cb: Callbacks, p: Parser, f: Field)
    ensures var r := HeaderStep(cb, p, f.name, f.value); r.Line? ==> r.parser.state == p.state
  {
  }

  /** The fields of the parser after these headers; None if one of them is not accepted. */
  function AfterFields(cb: Callbacks, p: Parser, fields: seq<Field>): Option<Parser> {
    if fields == [] then Some(p)
    else match AfterFields(cb, p, fields[..|fields| - 1])
      case None => None
      case Some(q) =>
        match HeaderStep(cb, q, fields[|fields| - 1].name, fields[|fields| - 1].value)
        case PastTheLine => None
        case Line(r, events, reply) => if reply == Continue then Some(r) else None
  }

  function FieldEvents(fields: seq<Field>): seq<Event> {
    seq(|fields|, i requires 0 <= i < |fields| => Header(fields[i].name, fields[i].value))
  }

  lemma EventOfField(cb: Callbacks, p: Parser, f: Field)
    ensures var r := HeaderStep(cb, p, f.name, f.value);
      r.Line? && !r.reply.Finish? ==> r.events == [Header(f.name, f.value)]
  {
  }

  lemma {:induction false} FieldsRoundTrip(cb: Callbacks, c: Config, fields: seq<Field>)
    requires c.status.Running? && c.line == "" && c.parser.state == Headers
    requires AfterFields(cb, c.parser, fields).Some? && forall f :: f in fields ==> Plain(f)
    ensures var q := AfterFields(cb, c.parser, fields).value;
      && q.state == Headers
      && Parse(cb, c, AllFields(fields))
         == Config(q, "", c.log + FieldEvents(fields), c.used + |AllFields(fields)|, Running)
    decreases |fields|
  {
    hide Parse, HeaderStep, FormatField, Plain;
    if fields == [] {
      ParseNothing(cb, c);
      assert c.log + FieldEvents(fields) == c.log;
    } else {
      var front, last := fields[..|fields| - 1], fields[|fields| - 1];
      assert last in fields;
      FieldsRoundTrip(cb, c, front);
      var d := Parse(cb, c, AllFields(front));
      FieldRoundTrip(cb, d, last);
      EventOfField(cb, d.parser, last);
      KeepsState(cb, d.parser, last);
      ParseConcat(cb, c, AllFields(front), FormatField(last));
      assert c.log + FieldEvents(fields) == c.log + FieldEvents(front) + [Header(last.name, last.value)];
    }
  }

  const AtHeaders: Parser := Start.parser.(state := Headers)

  /** The receiver takes the head as it is, and ends up in `q` behind the headers. */
  ghost predicate Accepted(cb: Callbacks, leader: string, fields: seq<Field>, q: Parser) {
    && '\n' !in leader && cb.leader(TrimRight(leader)) == Continue
    && (forall f :: f in fields ==> Plain(f))
    && AfterFields(cb, AtHeaders, fields) == Some(q)
    && cb.headersDone(q.chunked, q.dataSize) == (q.dataSize, Continue)
  }

  /** The events of a received message. */
  function MessageEvents(leader: string, fields: seq<Field>, q: Parser, document: string): seq<Event> {
    HeadEvents(leader, fields, q) + DataBytes(document)
  }

  function HeadEvents(leader: string, fields: seq<Field>, q: Parser): seq<Event> {
    [LeaderLine(TrimRight(leader))] + FieldEvents(fields) + [HeadersDone(q.chunked, q.dataSize)]
  }

  lemma HeadRoundTrip(cb: Callbacks, leader: string, fields: seq<Field>, q: Parser)
    requires Accepted(cb, leader, fields, q)
    ensures Parse(cb, Start, WholeHead(leader, fields)) ==
      Settle(Config(q.(state := if q.chunked then ChunkSize else Data), "", HeadEvents(leader, fields, q),
                    |WholeHead(leader, fields)|, Running))
  {
    hide Parse, HeaderStep, FindColon, TrimRight, AllFields, Plain;
    var first := Config(AtHeaders, "", [LeaderLine(TrimRight(leader))], |leader| + 2, Running);
    assert Parse(cb, Start, leader + CRLF) == first by {
      TrimCR(leader);
      ParseLine(cb, Start, leader + "\r");
      assert leader + "\r" + "\n" == leader + CRLF;
      assert Start.log + [LeaderLine(TrimRight(leader))] == [LeaderLine(TrimRight(leader))];
    }
    FieldsRoundTrip(cb, first, fields);
    ParseConcat(cb, Start, leader + CRLF, AllFields(fields));
    var mid := Parse(cb, Start, leader + CRLF + AllFields(fields));
    TrimCR("");
    NoTrim("");
    assert "" + "\r" == "\r" && "\r" + "\n" == CRLF;
    ParseLine(cb, mid, "\r");
    ParseConcat(cb, Start, leader + CRLF + AllFields(fields), CRLF);
  }

  // ---------------------------------------------------------------- the message

  lemma {:induction false} PlainPieces(cuts: seq<string>)
    ensures Pieces(false, cuts) == Flatten(cuts)
    decreases |cuts|
  {
    if cuts != [] {
      PlainPieces(cuts[..|cuts| - 1]);
    }
  }

  /** The parser decides on chunks by the last header that speaks of them. */
  lemma {:induction false} CodingOfFields(cb: Callbacks, p: Parser, fields: seq<Field>)
    requires !p.chunked && AfterFields(cb, p, fields).Some?
    ensures AfterFields(cb, p, fields).value.chunked == LastChunked(fields)
    decreases |fields|
  {
    if fields != [] {
      CodingOfFields(cb, p, fields[..|fields| - 1]);
      CodingOfField(cb, AfterFields(cb, p, fields[..|fields| - 1]).value, fields[|fields| - 1]);
    }
  }

  lemma CodingOfField(cb: Callbacks, p: Parser, f: Field)
    ensures var r := HeaderStep(cb, p, f.name, f.value);
      r.Line? && r.reply == Continue ==>
        r.parser.chunked ==
          if EqualsNoCase(f.name, "Transfer-Encoding") then EqualsNoCase(f.value, "chunked") else p.chunked
  {
    assert |"Transfer-Encoding"| != |"Content-Length"| && |"chunked"| != |"identity"|;
  }

  /** What the receiver passes on: a given length cuts off what the sender has beyond it. */
  function Delivered(q: Parser, document: string): (s: string)
    ensures s <= document
  {
    if q.chunked || q.dataSize == SIZE_UNKNOWN || |document| <= q.dataSize then document else document[..q.dataSize]
  }

  /** The parser itself ends the message. */
  predicate EndsItself(q: Parser, document: string) {
    q.chunked || (q.dataSize != SIZE_UNKNOWN && |document| >= q.dataSize)
  }

  /**
   A message on whose coding both sides agree, parsed, is the leader, the headers, and the document, up to a length that
   is given. The parser stops at the end of the chunks, or when the length is reached; otherwise it waits for more.
   */
  lemma MessageRoundTrip(cb: Callbacks, leader: string, fields: seq<Field>, q: Parser, cuts: seq<string>)
    requires Accepted(cb, leader, fields, q) && Head(leader, fields) == WholeHead(leader, fields)
    requires CodingAgrees(fields)
    requires forall cut :: cut in cuts ==> 0 < |cut| < SIZE_UNKNOWN
    ensures var body := Body(WantsChunks(fields), cuts);
      var end := Parse(cb, Start, Head(leader, fields) + body);
      && q.chunked == WantsChunks(fields)
      && end.log == MessageEvents(leader, fields, q, Delivered(q, Flatten(cuts)))
      && end.used == |Head(leader, fields)| + |if q.chunked then body else Delivered(q, Flatten(cuts))|
      && if EndsItself(q, Flatten(cuts)) then end.status == Stopped(NoError)
         else end.status == Running && end.parser == Shrink(q.(state := Data), |Flatten(cuts)|) && end.line == ""
  {
    hide Parse, Head, Flatten, WholeHead, WantsChunks, LastChunked, AfterFields;
    CodingOfFields(cb, AtHeaders, fields);
    var body := Body(WantsChunks(fields), cuts);
    var c := Config(q.(state := if q.chunked then ChunkSize else Data), "", HeadEvents(leader, fields, q),
                    |Head(leader, fields)|, Running);
    BehindHead(cb, leader, fields, q, body);
    if q.chunked {
      ChunkedBodyRoundTrip(cb, c, cuts);
    } else {
      PlainPieces(cuts);
      assert body == Flatten(cuts);
      PlainBody(cb, c, q, Flatten(cuts));
    }
  }

  /** The bytes behind the head, from where the head leaves the parser. */
  lemma BehindHead(cb: Callbacks, leader: string, fields: seq<Field>, q: Parser, body: string)
    requires Accepted(cb, leader, fields, q) && Head(leader, fields) == WholeHead(leader, fields)
    ensures Parse(cb, Start, Head(leader, fields) + body) ==
      Parse(cb, Config(q.(state := if q.chunked then ChunkSize else Data), "", HeadEvents(leader, fields, q),
                       |Head(leader, fields)|, Running), body)
  {
    hide Parse, Head, WholeHead, Accepted;
    HeadRoundTrip(cb, leader, fields, q);
    ParseConcat(cb, Start, Head(leader, fields), body);
    ParseFromSettled(cb, Config(q.(state := if q.chunked then ChunkSize else Data), "", HeadEvents(leader, fields, q),
                                |Head(leader, fields)|, Running), body);
  }

  lemma PlainBody(cb: Callbacks, c: Config, q: Parser, document: string)
    requires c.status.Running? && c.line == "" && c.parser == q.(state := Data) && !q.chunked
    ensures var end := Parse(cb, c, document);
      && end.log == c.log + DataBytes(Delivered(q, document)) && end.used == c.used + |Delivered(q, document)|
      && if EndsItself(q, document) then end.status == Stopped(NoError)
         else end.status == Running && end.parser == Shrink(c.parser, |document|) && end.line == ""
  {
    hide Parse;
    var taken := Delivered(q, document);
    var rest := document[|taken|..];
    assert document == taken + rest;
    ParseData(cb, c, taken);
    ParseConcat(cb, c, taken, rest);
    if EndsItself(q, document) {
      ParseStopped(cb, Parse(cb, c, taken), rest);
    } else {
      assert rest == "" && taken == document;
    }
  }

  // ---------------------------------------------------------------- when the two sides disagree

  /** Behind a head that announces chunks. */
  predicate InChunks(c: Config) {
    && c.parser.chunked
    && c.parser.state != Leader && c.parser.state != Headers && c.parser.state != Complete
  }

  lemma TakeInChunks(cb: Callbacks, c: Config, b: char)
    requires InChunks(c)
    ensures InChunks(Settle(Take(cb, c, b))) && |Settle(Take(cb, c, b)).log| <= |c.log| + 1
    ensures c.parser.state != Data ==> |Settle(Take(cb, c, b)).log| == |c.log|
  {
    hide ParseHex, HexPrefixValue, TrimRight;
  }

  /** Chunks deliver fewer bytes than they take. */
  lemma {:induction false} ChunksAreLonger(cb: Callbacks, c: Config, s: string)
    requires InChunks(c) && c.parser.state != Data && s != ""
    ensures InChunks(Parse(cb, c, s)) && |Parse(cb, c, s).log| < |c.log| + |s|
    decreases |s|
  {
    hide Take, Settle;
    var t := s[..|s| - 1];
    SettleOutsideData(c);
    if t == "" {
      assert Parse(cb, c, t) == c;
      TakeInChunks(cb, c, s[0]);
    } else {
      ChunksAreLonger(cb, c, t);
      TakeInChunks(cb, Parse(cb, c, t), s[|s| - 1]);
    }
  }

  lemma SettleOutsideData(c: Config)
    requires c.parser.state != Data
    ensures Settle(c) == c
  {
  }

  /** The receiver expects chunks, and the sender makes none: it never passes on the document and ends well. */
  lemma MissingChunks(cb: Callbacks, leader: string, fields: seq<Field>, q: Parser, document: string)
    requires Accepted(cb, leader, fields, q) && Head(leader, fields) == WholeHead(leader, fields) && q.chunked
    ensures var end := Parse(cb, Start, Head(leader, fields) + document);
      end.log == MessageEvents(leader, fields, q, document) ==> document == "" && end.status == Running
  {
    hide Parse, Head, WholeHead, Accepted;
    BehindHead(cb, leader, fields, q, document);
    var c := Config(q.(state := ChunkSize), "", HeadEvents(leader, fields, q), |Head(leader, fields)|, Running);
    if document == "" {
      ParseNothing(cb, c);
    } else {
      ChunksAreLonger(cb, c, document);
    }
  }

  /** The sender makes chunks, and the receiver takes them for the document, up to a length that is given. */
  lemma UnseenChunks(cb: Callbacks, leader: string, fields: seq<Field>, q: Parser, cuts: seq<string>)
    requires Accepted(cb, leader, fields, q) && Head(leader, fields) == WholeHead(leader, fields) && !q.chunked
    ensures var body := Body(true, cuts);
      var end := Parse(cb, Start, Head(leader, fields) + body);
      && end.log == MessageEvents(leader, fields, q, Delivered(q, body))
      && (q.dataSize == SIZE_UNKNOWN ==> end.log != MessageEvents(leader, fields, q, Flatten(cuts)))
  {
    hide Parse, Head, WholeHead, Accepted, Body, Flatten;
    var body := Body(true, cuts);
    BehindHead(cb, leader, fields, q, body);
    var c := Config(q.(state := Data), "", HeadEvents(leader, fields, q), |Head(leader, fields)|, Running);
    PlainBody(cb, c, q, body);
    PiecesAreLonger(cuts);
  }

  lemma {:induction false} PiecesAreLonger(cuts: seq<string>)
    ensures |Pieces(true, cuts)| >= |Flatten(cuts)| && |Body(true, cuts)| > |Flatten(cuts)|
    decreases |cuts|
  {
    if cuts != [] {
      PiecesAreLonger(cuts[..|cuts| - 1]);
    }
  }

  /** Up to the length that is given, the chunks look like the document. */
  predicate LooksAlike(q: Parser, body: string, document: string) {
    && !q.chunked && q.dataSize != SIZE_UNKNOWN
    && q.dataSize <= |document| <= |body| && body[..q.dataSize] == document[..q.dataSize]
  }

  lemma LooksAlikeIff(q: Parser, body: string, document: string)
    requires !q.chunked && |document| < |body|
    ensures Delivered(q, body) == Delivered(q, document) <==> LooksAlike(q, body, document)
  {
    if LooksAlike(q, body, document) {
      assert |document| == q.dataSize ==> document[..q.dataSize] == document;
    }
  }

  lemma SameEvents(leader: string, fields: seq<Field>, q: Parser, s: string, t: string)
    ensures MessageEvents(leader, fields, q, s) == MessageEvents(leader, fields, q, t) <==> s == t
  {
    hide HeadEvents;
    var head := HeadEvents(leader, fields, q);
    if head + DataBytes(s) == head + DataBytes(t) {
      assert (head + DataBytes(s))[|head|..] == DataBytes(s) && (head + DataBytes(t))[|head|..] == DataBytes(t);
      forall i | 0 <= i < |s| ensures i < |t| && s[i] == t[i] {
        assert DataBytes(s)[i] == DataBytes(t)[i];
      }
    }
  }

  /**
   A message gets through, up to a length that is given, exactly when the first Transfer-Encoding header, by its exact
   bytes, and the last one, without regard to case, agree on chunks; or when the parser takes the chunks for the
   document and up to that length they look like it.
   */
  lemma GetsThroughIff(cb: Callbacks, leader: string, fields: seq<Field>, q: Parser, cuts: seq<string>)
    requires Accepted(cb, leader, fields, q) && Head(leader, fields) == WholeHead(leader, fields)
    requires forall cut :: cut in cuts ==> 0 < |cut| < SIZE_UNKNOWN
    ensures var document := Flatten(cuts);
      var end := Parse(cb, Start, Head(leader, fields) + Body(WantsChunks(fields), cuts));
      (&& end.log == MessageEvents(leader, fields, q, Delivered(q, document))
       && (q.chunked ==> end.status == Stopped(NoError)))
      <==> CodingAgrees(fields) || LooksAlike(q, Body(true, cuts), document)
  {
    hide Parse, Head, WholeHead, WantsChunks, LastChunked, AfterFields, Accepted, MessageEvents, Body, Delivered;
    CodingOfAccepted(cb, leader, fields, q);
    if CodingAgrees(fields) {
      MessageRoundTrip(cb, leader, fields, q, cuts);
    } else if q.chunked {
      PlainPieces(cuts);
      NoChunks(cuts);
      DeliveredByChunks(q, Flatten(cuts));
      MissingChunks(cb, leader, fields, q, Flatten(cuts));
    } else {
      UnseenChunks(cb, leader, fields, q, cuts);
      PiecesAreLonger(cuts);
      LooksAlikeIff(q, Body(true, cuts), Flatten(cuts));
      SameEvents(leader, fields, q, Delivered(q, Body(true, cuts)), Delivered(q, Flatten(cuts)));
    }
  }

  lemma CodingOfAccepted(cb: Callbacks, leader: string, fields: seq<Field>, q: Parser)
    requires Accepted(cb, leader, fields, q)
    ensures q.chunked == LastChunked(fields)
  {
    hide AfterFields;
    CodingOfFields(cb, AtHeaders, fields);
  }

  lemma NoChunks(cuts: seq<string>)
    ensures Body(false, cuts) == Pieces(false, cuts)
  {
  }

  lemma DeliveredByChunks(q: Parser, document: string)
    requires q.chunked
    ensures Delivered(q, document) == document
  {
  }

  /**
   The coding in another case, or taken back by a second header: the sender makes no chunks, the parser waits for some,
   and the document "x" does not get through.
   */
  lemma CodingCaseMatters(cb: Callbacks, leader: string, fields: seq<Field>, q: Parser)
    requires || fields == [Field("Transfer-Encoding", "Chunked")]
             || fields == [Field("Transfer-Encoding", "identity"), Field("Transfer-Encoding", "chunked")]
    requires Accepted(cb, leader, fields, q) && Head(leader, fields) == WholeHead(leader, fields)
    ensures !CodingAgrees(fields) && Body(WantsChunks(fields), ["x"]) == "x"
    ensures Parse(cb, Start, Head(leader, fields) + "x").log != MessageEvents(leader, fields, q, "x")
  {
    hide Parse, Head, WholeHead, AfterFields;
    CodingOfFields(cb, AtHeaders, fields);
    assert EqualsNoCase("Transfer-Encoding", "Transfer-Encoding") && EqualsNoCase("Chunked", "chunked");
    assert "Chunked"[0] != "chunked"[0] && |"identity"| != |"chunked"|;
    assert fields[|fields| - 1].name == "Transfer-Encoding" && fields[0].name == "Transfer-Encoding";
    assert ["x"][..0] == [] && "" + "x" == "x" && "x" + "" == "x";
    MissingChunks(cb, leader, fields, q, "x");
  }

  lemma TakeLogs(cb: Callbacks, c: Config, b: char)
    ensures c.log <= Settle(Take(cb, c, b)).log
  {
    hide LineStep, TrimRight;
  }

  lemma SettleLogs(c: Config)
    ensures Settle(c).log == c.log
  {
  }

  lemma {:induction false} LogGrows(cb: Callbacks, c: Config, s: string)
    ensures c.log <= Parse(cb, c, s).log
    decreases |s|
  {
    hide Take, Settle;
    if s == "" {
      SettleLogs(c);
    } else {
      LogGrows(cb, c, s[..|s| - 1]);
      TakeLogs(cb, Parse(cb, c, s[..|s| - 1]), s[|s| - 1]);
    }
  }

  lemma {:induction false} HeadersGrow(fields: seq<Field>, k: nat)
    requires k <= |fields|
    ensures FormatFields(fields[..k]) <= FormatFields(fields)
    decreases |fields| - k
  {
    if k == |fields| {
      assert fields[..k] == fields;
    } else {
      NextField(fields, k);
      HeadersGrow(fields, k + 1);
    }
  }

  /** At every moment what is queued is the beginning of a message with the document as read so far. */
  lemma QueuedIsPrefix(sender: HttpSender)
    requires sender.Valid() && sender.document.Some?
    ensures sender.wire + sender.buffer[..sender.len]
         <= Head(sender.leader, sender.fields) + Body(WantsChunks(sender.fields), sender.cuts)
    ensures Flatten(sender.cuts) == sender.document.value[..sender.position]
  {
    hide LeaderPart, FormatFields, Pieces, Flatten, WantsChunks;
    HeadersGrow(sender.fields, sender.header);
  }

  /** The receiver has been delivered part of what the sender has written, of a message that it accepts. */
  ghost predicate Underway(sender: HttpSender, receiver: HttpReceiver, q: Parser)
    reads sender, sender.buffer, receiver, receiver.parser, receiver.buffer
  {
    && sender.Valid() && sender.document.Some? && receiver.received <= sender.wire && receiver.Conserved()
    && Head(sender.leader, sender.fields) == WholeHead(sender.leader, sender.fields)
    && Accepted(receiver.parser.callbacks, sender.leader, sender.fields, q) && CodingAgrees(sender.fields)
  }

  /**
   Safety of an exchange in progress: whatever part of the sender's bytes has been delivered so far, in whatever
   portions, the receiver has passed on nothing but a beginning of the leader, the headers and the document.
   */
  lemma ExchangeIsSafe(sender: HttpSender, receiver: HttpReceiver, q: Parser)
    requires Underway(sender, receiver, q) && receiver.Valid()
    ensures receiver.parser.log <= MessageEvents(sender.leader, sender.fields, q, Delivered(q, sender.document.value))
  {
    hide Parse, Head, WholeHead, WantsChunks, CodingAgrees, Accepted, Body, Flatten, MessageEvents, Delivered;
    var cb, content := receiver.parser.callbacks, sender.document.value;
    var message := Head(sender.leader, sender.fields) + Body(WantsChunks(sender.fields), sender.cuts);
    var read := content[..sender.position];
    assert sender.wire <= message && Flatten(sender.cuts) == read by {
      QueuedIsPrefix(sender);
    }
    MessageRoundTrip(cb, sender.leader, sender.fields, q, sender.cuts);
    PrefixLog(cb, receiver.Consumed(), message);
    EventsGrow(sender.leader, sender.fields, q, read, content);
  }

  lemma EventsGrow(leader: string, fields: seq<Field>, q: Parser, read: string, content: string)
    requires read <= content
    ensures MessageEvents(leader, fields, q, Delivered(q, read))
         <= MessageEvents(leader, fields, q, Delivered(q, content))
  {
    hide HeadEvents;
    var taken, all := Delivered(q, read), Delivered(q, content);
    DataBytesConcat(HeadEvents(leader, fields, q), taken, all[|taken|..]);
    assert taken + all[|taken|..] == all;
  }

  lemma PrefixLog(cb: Callbacks, s: string, message: string)
    requires s <= message && !Parse(cb, Start, message).status.Overread?
    ensures Parse(cb, Start, s).log <= Parse(cb, Start, message).log
    ensures !Parse(cb, Start, s).status.Overread?
  {
    hide Parse;
    assert message == s + message[|s|..];
    ParseConcat(cb, Start, s, message[|s|..]);
    LogGrows(cb, Parse(cb, Start, s), message[|s|..]);
    if Parse(cb, Start, s).status.Overread? {
      ParseStopped(cb, Parse(cb, Start, s), message[|s|..]);
    }
  }

  /** The receiver has been delivered all that a completed sender wrote, of a message that it accepts. */
  ghost predicate Through(sender: HttpSender, receiver: HttpReceiver, q: Parser)
    reads sender, receiver, receiver.parser, receiver.buffer
  {
    && sender.AllSent() && sender.document.Some? && receiver.received == sender.wire && receiver.Conserved()
    && Head(sender.leader, sender.fields) == WholeHead(sender.leader, sender.fields)
    && Accepted(receiver.parser.callbacks, sender.leader, sender.fields, q) && CodingAgrees(sender.fields)
  }

  /** A parser that has stopped behind a beginning of the message has stopped behind the message. */
  lemma StoppedStays(cb: Callbacks, s: string, message: string)
    requires s <= message && Parse(cb, Start, s).status.Stopped?
    ensures Parse(cb, Start, message) == Parse(cb, Start, s)
  {
    hide Parse;
    assert message == s + message[|s|..];
    ParseConcat(cb, Start, s, message[|s|..]);
    ParseStopped(cb, Parse(cb, Start, s), message[|s|..]);
  }

  /** A sender that has written the last chunk has read the whole document. */
  lemma LastChunkIsLast(sender: HttpSender)
    requires sender.Valid() && sender.document.Some? && WantsChunks(sender.fields)
    requires |sender.wire| >= |Head(sender.leader, sender.fields) + Body(true, sender.cuts)|
    ensures sender.AllSent() && Flatten(sender.cuts) == sender.document.value
  {
    hide LeaderPart, FormatFields, Pieces, Flatten, WantsChunks;
    var message := Head(sender.leader, sender.fields) + Body(true, sender.cuts);
    HeadersGrow(sender.fields, sender.header);
    assert sender.header == |sender.fields| && !sender.chunkData;
    assert sender.document.value[..sender.position] == sender.document.value;
    QueuedIsPrefix(sender);
    assert sender.wire <= sender.wire + sender.buffer[..sender.len] <= message;
  }

  /** What the parser passes on of a document at whose given length it ends does not depend on what comes behind. */
  lemma DeliveredSoFar(q: Parser, read: string, document: string)
    requires read <= document && EndsItself(q, read) && !q.chunked
    ensures EndsItself(q, document) && Delivered(q, read) == Delivered(q, document) == document[..q.dataSize]
  {
  }

  /**
   Delivery: when the parser has brought the pump to an end, the receiver reports success and has passed on the leader,
   the headers and the document, up to a length that was given, and nothing behind that has been taken. And it does so
   only for chunks, when the sender has sent all of them, or at such a length.
   */
  lemma ExchangeDelivers(sender: HttpSender, receiver: HttpReceiver, q: Parser, error: HttpError)
    requires Underway(sender, receiver, q) && receiver.Verdict(error, ByParser)
    ensures var document := sender.document.value;
      && error == NoError && EndsItself(q, document)
      && receiver.parser.log == MessageEvents(sender.leader, sender.fields, q, Delivered(q, document))
      && (q.chunked ==> sender.AllSent() && receiver.received == sender.wire && receiver.len == 0)
      && (!q.chunked ==> |receiver.Consumed()| == |Head(sender.leader, sender.fields)| + |Delivered(q, document)|)
  {
    hide Parse, Head, WholeHead, WantsChunks, LastChunked, Accepted, Body, Flatten, MessageEvents, Delivered;
    var cb, leader, fields := receiver.parser.callbacks, sender.leader, sender.fields;
    var body := Body(WantsChunks(fields), sender.cuts);
    var message, read := Head(leader, fields) + body, sender.document.value[..sender.position];
    assert sender.wire <= message && Flatten(sender.cuts) == read by {
      QueuedIsPrefix(sender);
    }
    MessageRoundTrip(cb, leader, fields, q, sender.cuts);
    if receiver.Overreads() {
      PrefixLog(cb, receiver.Consumed(), message);
    } else {
      StoppedStays(cb, receiver.received, message);
      assert |receiver.Consumed()| == |Head(leader, fields)| + |if q.chunked then body else Delivered(q, read)|;
      if q.chunked {
        LastChunkIsLast(sender);
        DeliveredByChunks(q, sender.document.value);
        DeliveredByChunks(q, read);
      } else {
        DeliveredSoFar(q, read, sender.document.value);
      }
    }
  }

  /** When all has been delivered of a message that ends itself, the pump has nothing to wait for on the network. */
  lemma NothingToWaitFor(sender: HttpSender, receiver: HttpReceiver, q: Parser)
    requires Through(sender, receiver, q) && EndsItself(q, sender.document.value)
    ensures !receiver.Waiting()
  {
    hide Parse, Head, WholeHead, WantsChunks, CodingAgrees, Accepted, Body, Flatten, MessageEvents, Delivered;
    var cb := receiver.parser.callbacks;
    MessageRoundTrip(cb, sender.leader, sender.fields, q, sender.cuts);
    PrefixLog(cb, receiver.Consumed(), receiver.received);
  }

  lemma HeadLeads(cb: Callbacks, leader: string, fields: seq<Field>, q: Parser)
    requires Accepted(cb, leader, fields, q) && !q.chunked && q.dataSize != 0
    ensures Parse(cb, Start, WholeHead(leader, fields)) ==
      Config(q.(state := Data), "", HeadEvents(leader, fields, q), |WholeHead(leader, fields)|, Running)
  {
    hide Parse, WholeHead, Accepted;
    HeadRoundTrip(cb, leader, fields, q);
  }

  lemma InDocumentGoesOn(cb: Callbacks, s: string, t: string)
    requires InDocument(Parse(cb, Start, s))
    ensures InDocument(Parse(cb, Start, s + t))
    ensures Parse(cb, Start, s + t).log == Parse(cb, Start, s).log + DataBytes(t)
  {
    hide Parse;
    ParseConcat(cb, Start, s, t);
    ParseData(cb, Parse(cb, Start, s), t);
  }

  /**
   Within a message, the parser is in a document of unknown length exactly behind the head of a message without a
   length.
   */
  lemma InDocumentIff(cb: Callbacks, leader: string, fields: seq<Field>, q: Parser, cuts: seq<string>, s: string)
    requires Accepted(cb, leader, fields, q) && Head(leader, fields) == WholeHead(leader, fields)
    requires CodingAgrees(fields) && forall cut :: cut in cuts ==> 0 < |cut| < SIZE_UNKNOWN
    requires s <= Head(leader, fields) + Body(WantsChunks(fields), cuts)
    ensures InDocument(Parse(cb, Start, s)) <==>
      !q.chunked && q.dataSize == 0xFFFF_FFFF && |s| >= |Head(leader, fields)|
  {
    hide Parse, Head, WholeHead, WantsChunks, CodingAgrees, Accepted, Flatten, HeadEvents;
    var head, message := Head(leader, fields), Head(leader, fields) + Body(WantsChunks(fields), cuts);
    MessageRoundTrip(cb, leader, fields, q, cuts);
    if InDocument(Parse(cb, Start, s)) {
      assert message == s + message[|s|..];
      InDocumentGoesOn(cb, s, message[|s|..]);
      assert !q.chunked && q.dataSize == 0xFFFF_FFFF;
      if |s| < |head| {
        assert head == s + head[|s|..];
        InDocumentGoesOn(cb, s, head[|s|..]);
        HeadLeads(cb, leader, fields, q);
        HeadIsNoData(leader, fields, q, Parse(cb, Start, s).log, head[|s|..]);
      }
    } else if !q.chunked && q.dataSize == 0xFFFF_FFFF && |s| >= |head| {
      PlainPieces(cuts);
      var read := s[|head|..];
      assert s == head + read;
      HeadLeads(cb, leader, fields, q);
      BehindHead(cb, leader, fields, q, read);
      PlainBody(cb, Parse(cb, Start, head), q, read);
    }
  }

  lemma HeadIsNoData(leader: string, fields: seq<Field>, q: Parser, log: seq<Event>, s: string)
    requires s != ""
    ensures HeadEvents(leader, fields, q) != log + DataBytes(s)
  {
    var events, other := HeadEvents(leader, fields, q), log + DataBytes(s);
    assert events[|events| - 1].HeadersDone? && other[|other| - 1].DataByte?;
  }

  /**
   When a close ends an exchange that is under way, that is a success exactly if the close is clean, the message has
   neither chunks nor a length, and its head has been consumed: a failed stream never is, nor is a close before a given
   length or the last chunk.
   */
  lemma CloseInExchangeIff(sender: HttpSender, receiver: HttpReceiver, q: Parser, error: HttpError, code: int)
    requires Underway(sender, receiver, q) && receiver.Verdict(error, ByClose(code))
    ensures error == NoError <==>
      && code == 0 && !q.chunked && q.dataSize == 0xFFFF_FFFF
      && |receiver.Consumed()| >= |Head(sender.leader, sender.fields)|
    ensures error != NoError ==> Reports(error, code)
  {
    hide Parse, Head, WholeHead, WantsChunks, CodingAgrees, Accepted, Body, Flatten;
    var cb := receiver.parser.callbacks;
    var message := Head(sender.leader, sender.fields) + Body(WantsChunks(sender.fields), sender.cuts);
    assert sender.wire <= message by {
      QueuedIsPrefix(sender);
    }
    MessageRoundTrip(cb, sender.leader, sender.fields, q, sender.cuts);
    PrefixLog(cb, receiver.Consumed(), message);
    CloseIsSuccessIff(receiver, error, code);
    InDocumentIff(cb, sender.leader, sender.fields, q, sender.cuts, receiver.Consumed());
  }

  lemma ErrorsElsewhere(receiver: HttpReceiver, error: HttpError, cause: Cause)
    requires receiver.Conserved() && receiver.Verdict(error, cause)
    ensures cause == ByDocument || cause == ByFullBuffer ==> error != NoError
  {
    hide Parse;
  }

  /** One round: the sender goes on, the network takes what it has written to the receiver, and that goes on. */
  method TakeTurns(sender: HttpSender, receiver: HttpReceiver, ghost q: Parser)
    returns (done: bool, error: HttpError, ghost cause: Cause, ghost pause: Pause)
    requires Underway(sender, receiver, q) && receiver.Valid() && sender.buffer != receiver.buffer
    requires receiver.received + receiver.incoming == sender.wire && (sender.sending ==> sender.failure == NoFailure)
    modifies sender`len, sender`header, sender`position, sender`chunkData, sender`cuts, sender`wire
    modifies sender`sending, sender`completed, sender`stalled, sender`calls, sender`failure, sender.buffer
    modifies receiver`len, receiver`received, receiver`incoming, receiver`closed, receiver`ended
    modifies receiver`asked, receiver`stalled
    modifies receiver.buffer, receiver.parser
    ensures Underway(sender, receiver, q) && if done then receiver.Verdict(error, cause) else receiver.Valid()
    ensures receiver.received + receiver.incoming == sender.wire && (sender.sending ==> sender.failure == NoFailure)
    ensures receiver.parser.log <= MessageEvents(sender.leader, sender.fields, q, Delivered(q, sender.document.value))
    ensures done && cause == ByParser ==>
      && error == NoError && EndsItself(q, sender.document.value)
      && receiver.parser.log == MessageEvents(sender.leader, sender.fields, q, Delivered(q, sender.document.value))
    ensures done && error == NoError && cause != ByParser ==>
      && cause == ByClose(0) && receiver.ended == Some(0) && !q.chunked && q.dataSize == 0xFFFF_FFFF
      && |receiver.Consumed()| >= |Head(sender.leader, sender.fields)|
    ensures !done && pause == NetworkBlocks ==> !(Through(sender, receiver, q) && EndsItself(q, sender.document.value))
  {
    hide HttpSender.Valid, HttpSender.AllSent, HttpReceiver.Valid, HttpReceiver.Verdict, HttpReceiver.Waiting;
    hide HttpReceiver.Conserved, Head, WholeHead, Accepted, CodingAgrees, MessageEvents, Delivered, EndsItself;
    hide HttpReceiver.Stalls, LineBlocks, Reports;
    var carried := |sender.wire|;
    if sender.sending {
      var gaveUp := sender.FlushData(0);
    }
    assert receiver.received + (receiver.incoming + sender.wire[carried..]) == sender.wire;
    receiver.Expect(sender.wire[carried..]);
    done, error, cause, pause := receiver.DoReceiveLoop();
    if done && cause == ByParser {
      ExchangeDelivers(sender, receiver, q, error);
    } else {
      ExchangeIsSafe(sender, receiver, q);
    }
    if done {
      if cause.ByClose? {
        CloseInExchangeIff(sender, receiver, q, error, cause.code);
      }
      ErrorsElsewhere(receiver, error, cause);
    } else if pause == NetworkBlocks && Through(sender, receiver, q) && EndsItself(q, sender.document.value) {
      NothingToWaitFor(sender, receiver, q);
    }
  }

  /**
   The two sides at work: in each round the sender goes on, the network takes what it has written to the receiver, and
   the receiver goes on. However the network and both documents behave, the receiver passes on nothing but a beginning
   of the message; when its parser ends the message it reports success and has passed on all of it; and once all of a
   message that ends itself has been delivered, it does not wait for the network.
   */
  method Exchange(sender: HttpSender, receiver: HttpReceiver, ghost q: Parser, rounds: nat)
    returns (done: bool, error: HttpError, ghost cause: Cause, ghost pause: Pause)
    requires Underway(sender, receiver, q) && receiver.Valid() && sender.buffer != receiver.buffer
    requires receiver.received + receiver.incoming == sender.wire && (sender.sending ==> sender.failure == NoFailure)
    modifies sender`len, sender`header, sender`position, sender`chunkData, sender`cuts, sender`wire
    modifies sender`sending, sender`completed, sender`stalled, sender`calls, sender`failure, sender.buffer
    modifies receiver`len, receiver`received, receiver`incoming, receiver`closed, receiver`ended
    modifies receiver`asked, receiver`stalled
    modifies receiver.buffer, receiver.parser
    ensures Underway(sender, receiver, q) && (done ==> receiver.Verdict(error, cause))
    ensures receiver.received + receiver.incoming == sender.wire
    ensures receiver.parser.log <= MessageEvents(sender.leader, sender.fields, q, Delivered(q, sender.document.value))
    ensures done && cause == ByParser ==>
      && error == NoError && EndsItself(q, sender.document.value)
      && receiver.parser.log == MessageEvents(sender.leader, sender.fields, q, Delivered(q, sender.document.value))
    ensures done && error == NoError && cause != ByParser ==>
      && cause == ByClose(0) && receiver.ended == Some(0) && !q.chunked && q.dataSize == 0xFFFF_FFFF
      && |receiver.Consumed()| >= |Head(sender.leader, sender.fields)|
    ensures !done && pause == NetworkBlocks ==> !(Through(sender, receiver, q) && EndsItself(q, sender.document.value))
  {
    hide HttpSender.Valid, HttpReceiver.Valid, HttpReceiver.Verdict, Through, Head, MessageEvents, Delivered;
    hide EndsItself, HttpReceiver.Conserved, Accepted, WholeHead, CodingAgrees;
    done, error, cause, pause := false, NoError, ByParser, EnoughRounds;
    ExchangeIsSafe(sender, receiver, q);
    for round := 0 to rounds
      invariant Underway(sender, receiver, q) && receiver.Valid()
      invariant receiver.received + receiver.incoming == sender.wire
      invariant sender.sending ==> sender.failure == NoFailure
      invariant receiver.parser.log <=
        MessageEvents(sender.leader, sender.fields, q, Delivered(q, sender.document.value))
      invariant pause == NetworkBlocks ==>
        !(Through(sender, receiver, q) && EndsItself(q, sender.document.value))
    {
      done, error, cause, pause := TakeTurns(sender, receiver, q);
      if done {
        return;
      }
    }
  }

  /**
   Delivery of a document that only the end of the stream ends. With nothing left in the buffer the receiver reports
   success. And when it does, the document has been passed on whole exactly if nothing is left in the buffer.
   */
  lemma CloseDelivers(sender: HttpSender, receiver: HttpReceiver, q: Parser, error: HttpError)
    requires Through(sender, receiver, q) && receiver.Verdict(error, ByClose(0))
    requires !q.chunked && q.dataSize == SIZE_UNKNOWN
    ensures receiver.len == 0 ==> error == NoError
    ensures error == NoError ==>
      (receiver.parser.log == MessageEvents(sender.leader, sender.fields, q, sender.document.value)
       <==> receiver.len == 0)
  {
    hide Parse, Head, WholeHead, WantsChunks, CodingAgrees, Accepted, MessageEvents;
    var cb, tail := receiver.parser.callbacks, receiver.buffer[..receiver.len];
    MessageRoundTrip(cb, sender.leader, sender.fields, q, sender.cuts);
    PrefixLog(cb, receiver.Consumed(), receiver.received);
    Continued(cb, receiver.Consumed(), receiver.parser.View(), tail);
    if receiver.len == 0 {
      assert receiver.Consumed() == receiver.received;
    } else if error == NoError {
      ParseData(cb, receiver.parser.View(), tail);
    }
  }

  /** A whole transfer of a document, from send() on the one side and recv() on the other. */
  method Transfer(sender: HttpSender, receiver: HttpReceiver, ghost q: Parser, leader: string, fields: seq<Field>,
                  document: string, rounds: nat)
    returns (done: bool, error: HttpError, ghost cause: Cause, ghost pause: Pause)
    requires !sender.sending && sender.buffer.Length == HttpMessage.BUFFER_SIZE && sender.buffer != receiver.buffer
    requires !receiver.receiving && receiver.incoming == "" && receiver.buffer.Length == HttpReceiving.BUFFER_SIZE
    requires Head(leader, fields) == WholeHead(leader, fields) && CodingAgrees(fields)
    requires Accepted(receiver.parser.callbacks, leader, fields, q)
    modifies sender, sender.buffer, receiver, receiver.buffer, receiver.parser
    ensures Underway(sender, receiver, q) && receiver.received + receiver.incoming == sender.wire
    ensures done ==> receiver.Verdict(error, cause)
    ensures receiver.parser.log <= MessageEvents(leader, fields, q, Delivered(q, document))
    ensures done && cause == ByParser ==>
      error == NoError && receiver.parser.log == MessageEvents(leader, fields, q, Delivered(q, document))
    ensures done && error == NoError && cause != ByParser ==>
      && cause == ByClose(0) && receiver.ended == Some(0) && !q.chunked && q.dataSize == 0xFFFF_FFFF
      && |receiver.Consumed()| >= |Head(leader, fields)|
    ensures !done && pause == NetworkBlocks && sender.AllSent() && receiver.incoming == "" ==> !EndsItself(q, document)
  {
    hide HttpSender.Valid, HttpSender.AllSent, HttpReceiver.Valid, HttpReceiver.Verdict, HttpReceiver.Waiting;
    hide Head, WholeHead, Accepted, CodingAgrees, MessageEvents, Delivered, EndsItself;
    receiver.Recv();
    var gaveUp := sender.Send(leader, fields, Some(document), 0);
    receiver.Expect(sender.wire);
    assert receiver.received + receiver.incoming == sender.wire && "" + sender.wire == sender.wire;
    done, error, cause, pause := Exchange(sender, receiver, q, rounds);
    assert receiver.incoming == "" ==> receiver.received == sender.wire;
  }

  /** The head arrives and is parsed. */
  method TakesHead(receiver: HttpReceiver, leader: string, fields: seq<Field>, ghost q: Parser)
    requires !receiver.receiving && !receiver.closed && receiver.buffer.Length == HttpReceiving.BUFFER_SIZE
    requires receiver.parser.accepting && NeverBlocks(receiver.parser.callbacks)
    requires Accepted(receiver.parser.callbacks, leader, fields, q) && !q.chunked && q.dataSize == SIZE_UNKNOWN
    requires |WholeHead(leader, fields)| <= HttpReceiving.BUFFER_SIZE
    modifies receiver, receiver.buffer, receiver.parser
    ensures receiver.Valid() && receiver.received == WholeHead(leader, fields) && receiver.len == 0 && !receiver.closed
    ensures receiver.parser.View() == Parse(receiver.parser.callbacks, Start, WholeHead(leader, fields))
  {
    hide Parse, WholeHead, Accepted, NeverBlocks, HeadEvents, Settle, HttpReceiver.Verdict, HttpReceiver.Valid;
    hide HttpReceiver.Waiting, HttpReceiver.Stalls, LineBlocks;
    var head := WholeHead(leader, fields);
    HeadLeads(receiver.parser.callbacks, leader, fields, q);
    Load(receiver, head);
    var reply, cause := receiver.ProcessBuffer();
    NothingOverread(receiver);
    MustContinue(receiver, reply, cause);
    AllTaken(receiver);
  }

  /** A new message of which this has come. */
  method Load(receiver: HttpReceiver, data: string)
    requires !receiver.receiving && receiver.buffer.Length == HttpReceiving.BUFFER_SIZE >= |data|
    modifies receiver, receiver.buffer, receiver.parser
    ensures receiver.Valid() && receiver.received == data && receiver.closed == old(receiver.closed)
    ensures receiver.parser.accepting == old(receiver.parser.accepting)
  {
    hide Parse, Settle, HttpReceiver.Valid;
    receiver.Recv();
    receiver.Arrive(data);
    assert "" + data == data;
  }

  lemma NothingOverread(receiver: HttpReceiver)
    requires receiver.Conserved() && !Parse(receiver.parser.callbacks, Start, receiver.received).status.Overread?
    ensures !receiver.Overreads()
  {
    hide Parse;
    PrefixLog(receiver.parser.callbacks, receiver.Consumed(), receiver.received);
  }

  /** An accepting document and callbacks that do not block leave the pump with nothing but to wait for more. */
  lemma MustContinue(receiver: HttpReceiver, reply: Reply, cause: Cause)
    requires receiver.Conserved() && !receiver.Overreads() && receiver.parser.accepting
    requires Parse(receiver.parser.callbacks, Start, receiver.received).status.Running?
    requires reply != Block
    requires reply.Finish? ==> receiver.Verdict(reply.error, cause) && (cause == ByParser || cause == ByDocument)
    ensures reply == Continue
  {
    hide Parse;
  }

  lemma AllTaken(receiver: HttpReceiver)
    requires receiver.Conserved() && !receiver.Overreads() && receiver.Waiting()
    requires Parse(receiver.parser.callbacks, Start, receiver.received).line == ""
    ensures receiver.len == 0 && receiver.parser.View() == Parse(receiver.parser.callbacks, Start, receiver.received)
  {
    hide Parse;
    assert receiver.buffer[..receiver.len] == "";
  }

  /** More arrives, and the document takes none of it. */
  method Stalls(receiver: HttpReceiver, document: string)
    requires receiver.Valid() && receiver.len == 0 && receiver.parser.state == Data && receiver.parser.dataSize != 0
    requires 0 < |document| < HttpReceiving.BUFFER_SIZE
    modifies receiver, receiver.buffer, receiver.parser
    ensures receiver.Valid() && receiver.received == old(receiver.received) + document && receiver.len == |document|
    ensures receiver.closed == old(receiver.closed) && receiver.parser.View() == old(receiver.parser.View())
  {
    hide Parse, Settle, NeverBlocks;
    receiver.parser.accepting, receiver.parser.stalling := false, true;
    receiver.Arrive(document);
    assert receiver.parser.Halted(receiver.buffer[..receiver.len]);
    var reply, cause := receiver.ProcessBuffer();
  }

  /**
   A run that loses a document although it reports success: the document stalls behind the head, the rest arrives, the
   stream ends, and the loop, which reads before it parses, returns.
   */
  method StallsAndCloses(receiver: HttpReceiver, leader: string, fields: seq<Field>, ghost q: Parser, document: string)
    returns (error: HttpError)
    requires !receiver.receiving && !receiver.closed && receiver.buffer.Length == HttpReceiving.BUFFER_SIZE
    requires receiver.parser.accepting && NeverBlocks(receiver.parser.callbacks)
    requires Accepted(receiver.parser.callbacks, leader, fields, q) && !q.chunked && q.dataSize == SIZE_UNKNOWN
    requires |WholeHead(leader, fields)| <= HttpReceiving.BUFFER_SIZE && 0 < |document| < HttpReceiving.BUFFER_SIZE
    modifies receiver, receiver.buffer, receiver.parser
    ensures receiver.received == WholeHead(leader, fields) + document && receiver.len == |document|
    ensures error == NoError && receiver.parser.log == HeadEvents(leader, fields, q)
  {
    hide Parse, WholeHead, Accepted, NeverBlocks, HeadEvents, Settle;
    HeadLeads(receiver.parser.callbacks, leader, fields, q);
    TakesHead(receiver, leader, fields, q);
    Stalls(receiver, document);
    receiver.closed := true;
    var done;
    ghost var cause, pause;
    done, error, cause, pause := receiver.DoReceiveLoop();
  }
}
