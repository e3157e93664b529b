/** What a Content-Length header makes of the message behind it, by the number that is written in it. */
module HttpLengths {
  import opened Ascii
  import opened HttpGrammar
  import opened HttpMessage
  import opened HttpExchange

  /** A number in decimal digits, without leading zeros. */
  function Decimal(n: nat): (s: string)
    ensures s != ""
  {
    (if n < 10 then "" else Decimal(n / 10)) + ["0123456789"[n % 10]]
  }

  lemma DigitOf(d: nat)
    requires d < 10
    ensures var c := "0123456789"[d]; IsDigit(c) && HexDigit(c) == d && !IsSpace(c) && c != '+' && c != '-'
  {
  }

  lemma {:induction false} DecimalIsRead(n: nat)
    ensures forall i :: 0 <= i < |Decimal(n)| ==> IsDigit(Decimal(n)[i])
    ensures DecimalValue(Decimal(n)) == n
    decreases n
  {
    hide IsDigit, HexDigit;
    DigitOf(n % 10);
    if n >= 10 {
      DecimalIsRead(n / 10);
      assert Decimal(n)[..|Decimal(n)| - 1] == Decimal(n / 10);
    } else {
      assert Decimal(n)[..0] == "" && DecimalValue("") == 0;
      assert Decimal(n) == ["0123456789"[n]];
    }
  }

  lemma {:induction false} AllDigits(s: string)
    requires forall i :: 0 <= i < |s| ==> IsDigit(s[i])
    ensures DigitPrefix(s) == |s|
    decreases |s|
  {
    if s != "" {
      AllDigits(s[1..]);
    }
  }

  /** sscanf reads back what is printed in decimal, up to the largest 32-bit number. */
  lemma DecimalRoundTrip(n: Size, overflow: string -> Size)
    ensures ParseUnsigned(Decimal(n), overflow) == Some(n)
  {
    hide DigitPrefix, DecimalValue;
    var s := Decimal(n);
    DecimalIsRead(n);
    AllDigits(s);
    assert IsDigit(s[0]) && SkipSpaces(s) == s && s[..|s|] == s;
  }

  /** Header number `k` is the last Content-Length. */
  predicate LastLength(fields: seq<Field>, k: int) {
    && 0 <= k < |fields| && EqualsNoCase(fields[k].name, "Content-Length")
    && forall j :: k < j < |fields| ==> !EqualsNoCase(fields[j].name, "Content-Length")
  }

  lemma LengthOfField(cb: Callbacks, p: Parser, f: Field)
    ensures var r := HeaderStep(cb, p, f.name, f.value);
      r.Line? && r.reply == Continue ==>
        if EqualsNoCase(f.name, "Content-Length") then ParseUnsigned(f.value, cb.overflow) == Some(r.parser.dataSize)
        else r.parser.dataSize == p.dataSize
  {
    assert |"Transfer-Encoding"| != |"Content-Length"|;
  }

  /** Behind the headers the length is the number in the last Content-Length header, and what it was without one. */
  lemma {:induction false} LengthOfFields(cb: Callbacks, p: Parser, fields: seq<Field>)
    requires AfterFields(cb, p, fields).Some?
    ensures var size := AfterFields(cb, p, fields).value.dataSize;
      && ((forall f <- fields :: !EqualsNoCase(f.name, "Content-Length")) ==> size == p.dataSize)
      && forall k :: LastLength(fields, k) ==> ParseUnsigned(fields[k].value, cb.overflow) == Some(size)
    decreases |fields|
  {
    hide HeaderStep, ParseUnsigned, EqualsNoCase;
    if fields != [] {
      var front, last := fields[..|fields| - 1], fields[|fields| - 1];
      LengthOfFields(cb, p, front);
      LengthOfField(cb, AfterFields(cb, p, front).value, last);
      assert fields == front + [last];
      forall k | LastLength(fields, k) ensures k == |front| || LastLength(front, k) {
        assert k < |front| ==> fields[k] == front[k];
      }
    }
  }

  /**
   A message with "Content-Length: n" as the last header of that name, and no Transfer-Encoding: the parser delivers the
   first n bytes behind the head, stops exactly at the n-th, and waits for more before. The largest number alone is
   taken for no length at all.
   */
  lemma LengthEndsMessage(cb: Callbacks, leader: string, fields: seq<Field>, q: Parser, k: nat, n: Size, body: string)
    requires Accepted(cb, leader, fields, q) && Head(leader, fields) == WholeHead(leader, fields)
    requires forall f <- fields :: !EqualsNoCase(f.name, "Transfer-Encoding")
    requires LastLength(fields, k) && fields[k].value == Decimal(n)
    ensures var end := Parse(cb, Start, Head(leader, fields) + body);
      var taken := if n == 0xFFFF_FFFF || |body| < n then |body| else n;
      && end.log == [LeaderLine(TrimRight(leader))] + FieldEvents(fields) + [HeadersDone(false, n)]
                    + DataBytes(body[..taken])
      && end.used == |Head(leader, fields)| + taken
      && (end.status == Stopped(NoError) <==> n != 0xFFFF_FFFF && |body| >= n)
      && (end.status != Stopped(NoError) ==> end.status == Running)
  {
    hide Parse, Head, WholeHead, HeaderStep, ParseUnsigned, EqualsNoCase, Decimal, Delivered, EndsItself;
    NotCoded(cb, leader, fields, q);
    LengthOfFields(cb, AtHeaders, fields);
    DecimalRoundTrip(n, cb.overflow);
    assert q.dataSize == n && !q.chunked;
    BehindHead(cb, leader, fields, q, body);
    var c := Config(q.(state := Data), "", HeadEvents(leader, fields, q), |Head(leader, fields)|, Running);
    PlainBody(cb, c, q, body);
    DeliveredIs(q, body);
  }

  /** The same without a length: all that comes is delivered, and only the end of the stream ends it. */
  lemma NoLengthNoEnd(cb: Callbacks, leader: string, fields: seq<Field>, q: Parser, body: string)
    requires Accepted(cb, leader, fields, q) && Head(leader, fields) == WholeHead(leader, fields)
    requires forall f <- fields ::
      !EqualsNoCase(f.name, "Transfer-Encoding") && !EqualsNoCase(f.name, "Content-Length")
    ensures var end := Parse(cb, Start, Head(leader, fields) + body);
      && end.log == [LeaderLine(TrimRight(leader))] + FieldEvents(fields) + [HeadersDone(false, 0xFFFF_FFFF)]
                    + DataBytes(body)
      && end.status == Running && end.parser == Parser(Data, false, 0xFFFF_FFFF)
  {
    hide Parse, Head, WholeHead, HeaderStep, ParseUnsigned, EqualsNoCase, Delivered, EndsItself;
    NotCoded(cb, leader, fields, q);
    LengthOfFields(cb, AtHeaders, fields);
    BehindHead(cb, leader, fields, q, body);
    var c := Config(q.(state := Data), "", HeadEvents(leader, fields, q), |Head(leader, fields)|, Running);
    PlainBody(cb, c, q, body);
    DeliveredIs(q, body);
  }

  lemma DeliveredIs(q: Parser, body: string)
    requires !q.chunked
    ensures Delivered(q, body) ==
      body[..if q.dataSize == 0xFFFF_FFFF || |body| < q.dataSize then |body| else q.dataSize]
    ensures EndsItself(q, body) <==> q.dataSize != 0xFFFF_FFFF && |body| >= q.dataSize
  {
    assert body[..|body|] == body;
  }

  lemma {:induction false} NeverChunked(fields: seq<Field>)
    requires forall f <- fields :: !EqualsNoCase(f.name, "Transfer-Encoding")
    ensures !LastChunked(fields)
    decreases |fields|
  {
    hide EqualsNoCase;
    if fields != [] {
      assert fields[|fields| - 1] in fields;
      NeverChunked(fields[..|fields| - 1]);
    }
  }

  lemma NotCoded(cb: Callbacks, leader: string, fields: seq<Field>, q: Parser)
    requires Accepted(cb, leader, fields, q)
    requires forall f <- fields :: !EqualsNoCase(f.name, "Transfer-Encoding")
    ensures !q.chunked && AfterFields(cb, AtHeaders, fields) == Some(q)
  {
    hide EqualsNoCase, AfterFields;
    NeverChunked(fields);
    CodingOfAccepted(cb, leader, fields, q);
  }
}
