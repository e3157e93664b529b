/** The bytes of an HTTP message, as HttpBase::send and flush_data put them together. */
module HttpMessage {
  import opened Ascii

  const BUFFER_SIZE: nat := 32 * 1024
  const CHUNK_DIGITS: nat := 8
  const LAST_CHUNK: string := "0\r\n\r\n"

  datatype Field = Field(name: string, value: string)

  /** strcpyn and sprintfn: what fits into `room` bytes with the terminating NUL. */
  function Clip(s: string, room: nat): (t: string)
    ensures t <= s && |t| < room + 1 && (t == s <==> |s| < room || s == "")
    ensures |s| >= room > 0 ==> |t| == room - 1
  {
    if room == 0 then "" else if |s| < room then s else s[..room - 1]
  }

  function FormatField(f: Field): string {
    f.name + ": " + f.value + CRLF
  }

  /** queue_headers keeps a header that leaves room in an empty buffer, and discards any other. */
  predicate Fits(f: Field) {
    |FormatField(f)| < BUFFER_SIZE - 3
  }

  function FormatFields(fields: seq<Field>): string {
    if fields == [] then ""
    else
      FormatFields(fields[..|fields| - 1]) +
      if Fits(fields[|fields| - 1]) then FormatField(fields[|fields| - 1]) else ""
  }

  function LeaderPart(leader: string): (s: string)
    ensures |s| < BUFFER_SIZE
  {
    var line := Clip(leader, BUFFER_SIZE);
    line + Clip(CRLF, BUFFER_SIZE - |line|)
  }

  /** All that goes out before the document. */
  function Head(leader: string, fields: seq<Field>): string {
    if fields == [] then LeaderPart(leader) + Clip(CRLF, BUFFER_SIZE - |LeaderPart(leader)|)
    else LeaderPart(leader) + FormatFields(fields) + CRLF
  }

  function HexChar(d: nat): (c: char)
    requires d < 16
    ensures IsHex(c) && HexDigit(c) == d && !IsSpace(c) && c != '\n'
    ensures c == "0123456789abcdef"[d]
  {
    if d < 10 then (d + '0' as int) as char else (d - 10 + 'a' as int) as char
  }

  /** "%.*x": the low `digits` hexadecimal digits, with leading zeros. */
  function Hex(n: nat, digits: nat): (s: string)
    ensures |s| == digits && AllHex(s) && forall c :: c in s ==> !IsSpace(c) && c != '\n'
  {
    if digits == 0 then "" else Hex(n / 16, digits - 1) + [HexChar(n % 16)]
  }

  /** Section 3.6.1 of RFC 2616: size, CRLF, data, CRLF. */
  function Chunk(data: string): string {
    Hex(|data|, CHUNK_DIGITS) + CRLF + data + CRLF
  }

  /** The document as cut into reads, before the last chunk. */
  function Pieces(chunked: bool, cuts: seq<string>): string {
    if cuts == [] then ""
    else
      Pieces(chunked, cuts[..|cuts| - 1]) +
      if chunked then Chunk(cuts[|cuts| - 1]) else cuts[|cuts| - 1]
  }

  function Flatten(cuts: seq<string>): string {
    if cuts == [] then "" else Flatten(cuts[..|cuts| - 1]) + cuts[|cuts| - 1]
  }

  function Body(chunked: bool, cuts: seq<string>): string {
    Pieces(chunked, cuts) + if chunked then LAST_CHUNK else ""
  }

  /** send() looks at the first Transfer-Encoding header only, and takes only the exact value. */
  predicate WantsChunks(fields: seq<Field>) {
    fields != [] &&
    if EqualsNoCase(fields[0].name, "Transfer-Encoding") then fields[0].value == "chunked"
    else WantsChunks(fields[1..])
  }

  /** The parser takes the last Transfer-Encoding header, and compares without regard to case. */
  predicate LastChunked(fields: seq<Field>) {
    fields != [] &&
    var last := fields[|fields| - 1];
    if EqualsNoCase(last.name, "Transfer-Encoding") then EqualsNoCase(last.value, "chunked")
    else LastChunked(fields[..|fields| - 1])
  }

  /** Both sides decide alike on chunks. */
  predicate CodingAgrees(fields: seq<Field>) {
    LastChunked(fields) == WantsChunks(fields)
  }

  /** Header number `k` is the first Transfer-Encoding. */
  predicate FirstCoding(fields: seq<Field>, k: int) {
    && 0 <= k < |fields| && EqualsNoCase(fields[k].name, "Transfer-Encoding")
    && forall j :: 0 <= j < k ==> !EqualsNoCase(fields[j].name, "Transfer-Encoding")
  }

  /** Header number `k` is the last Transfer-Encoding. */
  predicate LastCoding(fields: seq<Field>, k: int) {
    && 0 <= k < |fields| && EqualsNoCase(fields[k].name, "Transfer-Encoding")
    && forall j :: k < j < |fields| ==> !EqualsNoCase(fields[j].name, "Transfer-Encoding")
  }

  /** The first Transfer-Encoding is exactly "chunked". */
  ghost predicate SaysChunked(fields: seq<Field>) {
    exists k :: FirstCoding(fields, k) && fields[k].value == "chunked"
  }

  lemma {:induction false} WantsChunksIff(fields: seq<Field>)
    ensures WantsChunks(fields) <==> SaysChunked(fields)
    decreases |fields|
  {
    hide EqualsNoCase;
    if fields != [] {
      if EqualsNoCase(fields[0].name, "Transfer-Encoding") {
        assert FirstCoding(fields, 0);
      } else {
        var rest := fields[1..];
        WantsChunksIff(rest);
        if k :| FirstCoding(rest, k) && rest[k].value == "chunked" {
          assert FirstCoding(fields, k + 1) by {
            assert forall j :: 0 < j <= k ==> fields[j] == rest[j - 1];
          }
        }
        if k :| FirstCoding(fields, k) && fields[k].value == "chunked" {
          assert FirstCoding(rest, k - 1);
        }
      }
    }
  }

  lemma {:induction false} LastChunkedIff(fields: seq<Field>)
    ensures LastChunked(fields) <==> exists k :: LastCoding(fields, k) && EqualsNoCase(fields[k].value, "chunked")
    decreases |fields|
  {
    hide EqualsNoCase;
    if fields != [] {
      var front, n := fields[..|fields| - 1], |fields| - 1;
      if EqualsNoCase(fields[n].name, "Transfer-Encoding") {
        assert LastCoding(fields, n);
      } else {
        LastChunkedIff(front);
        if k :| LastCoding(front, k) && EqualsNoCase(front[k].value, "chunked") {
          assert LastCoding(fields, k) by {
            assert forall j :: k < j < n ==> fields[j] == front[j];
          }
        }
        if k :| LastCoding(fields, k) && EqualsNoCase(fields[k].value, "chunked") {
          assert LastCoding(front, k);
        }
      }
    }
  }

  /**
   Both sides decide alike without such a header, on chunks; and with a single one unless that differs by its case.
   */
  lemma CodingAgreesOnOne(fields: seq<Field>)
    ensures (forall f <- fields :: !EqualsNoCase(f.name, "Transfer-Encoding")) ==>
      CodingAgrees(fields) && !WantsChunks(fields)
    ensures forall k :: FirstCoding(fields, k) && LastCoding(fields, k) ==>
      && (fields[k].value == "chunked" ==> CodingAgrees(fields) && WantsChunks(fields))
      && (CodingAgrees(fields) <==> fields[k].value == "chunked" || !EqualsNoCase(fields[k].value, "chunked"))
  {
    hide EqualsNoCase;
    WantsChunksIff(fields);
    LastChunkedIff(fields);
    SameCase("chunked");
  }

  /** One chunk behind the other. */
  function Chunks(cuts: seq<string>): string {
    if cuts == [] then "" else Chunks(cuts[..|cuts| - 1]) + Chunk(cuts[|cuts| - 1])
  }

  /** What goes out before the end of the document. */
  lemma {:induction false} PiecesAre(cuts: seq<string>)
    ensures Pieces(true, cuts) == Chunks(cuts) && Pieces(false, cuts) == Flatten(cuts)
    decreases |cuts|
  {
    hide Chunk;
    if cuts != [] {
      PiecesAre(cuts[..|cuts| - 1]);
    }
  }

  lemma SameCase(s: string)
    ensures EqualsNoCase(s, s)
  {
  }

  lemma NextCut(chunked: bool, cuts: seq<string>, data: string)
    ensures Pieces(chunked, cuts + [data]) == Pieces(chunked, cuts) + if chunked then Chunk(data) else data
    ensures Flatten(cuts + [data]) == Flatten(cuts) + data
  {
    assert (cuts + [data])[..|cuts|] == cuts;
  }

  // ---------------------------------------------------------------- when the head is what was asked for

  function AllFields(fields: seq<Field>): string {
    if fields == [] then "" else AllFields(fields[..|fields| - 1]) + FormatField(fields[|fields| - 1])
  }

  /** Nothing cut off and nothing left out. */
  function WholeHead(leader: string, fields: seq<Field>): string {
    leader + CRLF + AllFields(fields) + CRLF
  }

  lemma {:induction false} FieldsWholeIff(fields: seq<Field>)
    ensures |FormatFields(fields)| <= |AllFields(fields)|
    ensures (FormatFields(fields) == AllFields(fields)) <==> (forall f :: f in fields ==> Fits(f))
    ensures FormatFields(fields) == AllFields(fields) || |FormatFields(fields)| < |AllFields(fields)|
    decreases |fields|
  {
    if fields != [] {
      var front, last := fields[..|fields| - 1], fields[|fields| - 1];
      FieldsWholeIff(front);
      assert fields == front + [last];
      assert last in fields;
    }
  }

  /**
   The head on the wire is the whole head exactly when the leader leaves room for the line ends that are queued with
   it, and no single header fills the buffer.
   */
  lemma HeadWholeIff(leader: string, fields: seq<Field>)
    ensures Head(leader, fields) == WholeHead(leader, fields) <==>
      && |leader| <= (if fields == [] then 32763 else 32765)
      && forall f :: f in fields ==> |f.name| + |f.value| + 4 < 32765
  {
    FieldsWholeIff(fields);
    var part := LeaderPart(leader);
    assert |leader| <= BUFFER_SIZE - 3 ==> part == leader + CRLF;
    assert |leader| > BUFFER_SIZE - 3 ==> |part| < |leader| + 2;
    if fields == [] {
      assert leader + CRLF + "" + CRLF == leader + CRLF + CRLF;
    }
  }

  /** A message with a chunk of five bytes, byte by byte. */
  lemma WireExample()
    ensures var fields := [Field("Host", "a"), Field("Transfer-Encoding", "chunked")];
      Head("POST / HTTP/1.1", fields) + Body(WantsChunks(fields), ["hello"]) ==
        "POST / HTTP/1.1\r\n" + ("Host: a\r\n" + "Transfer-Encoding: chunked\r\n") + "\r\n" +
        ("00000005\r\n" + "hello\r\n" + "0\r\n\r\n")
  {
    hide FormatFields, Clip, EqualsNoCase, Hex, LeaderPart, WantsChunks, FormatField, Pieces;
    var host, coding := Field("Host", "a"), Field("Transfer-Encoding", "chunked");
    LeaderExample();
    FieldsExample(host, coding);
    CodingExample(host, coding);
    ChunkExample();
  }

  lemma ChunkExample()
    ensures Pieces(true, ["hello"]) == "00000005\r\n" + "hello\r\n"
  {
    hide Hex;
    FiveInHex();
    assert ["hello"][..0] == [];
    assert "00000005" + CRLF == "00000005\r\n" && "hello" + CRLF == "hello\r\n";
  }

  lemma LeaderExample()
    ensures LeaderPart("POST / HTTP/1.1") == "POST / HTTP/1.1\r\n"
  {
    assert |"POST / HTTP/1.1"| == 15;
  }

  lemma FieldsExample(host: Field, coding: Field)
    requires host == Field("Host", "a") && coding == Field("Transfer-Encoding", "chunked")
    ensures FormatFields([host, coding]) == "Host: a\r\n" + "Transfer-Encoding: chunked\r\n"
  {
    hide FormatField;
    HostExample(host);
    TransferExample(coding);
    assert [host, coding][..1] == [host] && [host][..0] == [];
    assert FormatFields([host]) == FormatField(host);
  }

  lemma HostExample(host: Field)
    requires host == Field("Host", "a")
    ensures FormatField(host) == "Host: a\r\n"
  {
    assert "Host" + ": " == "Host: ";
  }

  lemma TransferExample(coding: Field)
    requires coding == Field("Transfer-Encoding", "chunked")
    ensures FormatField(coding) == "Transfer-Encoding: chunked\r\n"
  {
    assert "Transfer-Encoding" + ": " == "Transfer-Encoding: ";
    assert "Transfer-Encoding: " + "chunked" == "Transfer-Encoding: chunked";
  }

  lemma CodingExample(host: Field, coding: Field)
    requires host == Field("Host", "a") && coding == Field("Transfer-Encoding", "chunked")
    ensures WantsChunks([host, coding])
  {
    assert |host.name| != |"Transfer-Encoding"|;
    assert EqualsNoCase("Transfer-Encoding", "Transfer-Encoding");
    assert [host, coding][1..] == [coding];
  }

  lemma FiveInHex()
    ensures Hex(5, 8) == "00000005"
  {
    assert Hex(0, 1) == Hex(0, 0) + "0" && Hex(0, 2) == Hex(0, 1) + "0" && Hex(0, 3) == Hex(0, 2) + "0";
    assert Hex(0, 4) == Hex(0, 3) + "0" && Hex(0, 5) == Hex(0, 4) + "0" && Hex(0, 6) == Hex(0, 5) + "0";
    assert Hex(0, 7) == Hex(0, 6) + "0";
  }
}
