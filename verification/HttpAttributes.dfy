/** Attribute lists of HTTP headers: the quoter, the composer, the parser, and the Digest answer built from them. */
module HttpAttributes {
  import opened Ascii

  datatype Attribute = Attribute(name: string, value: string)

  // ---------------------------------------------------------------- writing

  /** A backslash before each quote and backslash, and before each NUL when strchr() looks for them. */
  function Escaped(s: string, nul: bool): string {
    if s == "" then ""
    else (if s[0] == '"' || s[0] == '\\' || (nul && s[0] == '\0') then ['\\', s[0]] else [s[0]]) + Escaped(s[1..], nul)
  }

  lemma {:induction false} EscapedConcat(s: string, c: char, nul: bool)
    ensures Escaped(s + [c], nul) == Escaped(s, nul) + Escaped([c], nul)
    decreases |s|
  {
    if s == "" {
      assert s + [c] == [c];
      assert Escaped(s, nul) + Escaped([c], nul) == Escaped([c], nul);
    } else {
      assert (s + [c])[1..] == s[1..] + [c];
      EscapedConcat(s[1..], c, nul);
    }
  }

  function Quote(s: string): string {
    "\"" + Escaped(s, false) + "\""
  }

  method QuoteString(str: string) returns (result: string)
    ensures result == Quote(str)
  {
    result := "\"";
    for i := 0 to |str|
      invariant result == "\"" + Escaped(str[..i], false)
    {
      EscapedConcat(str[..i], str[i], false);
      assert str[..i + 1] == str[..i] + [str[i]];
      if str[i] == '"' || str[i] == '\\' {
        result := result + ['\\'];
      }
      result := result + [str[i]];
    }
    assert str[..|str|] == str;
    result := result + "\"";
  }

  lemma {:induction false} EscapedLength(s: string, nul: bool)
    ensures |s| <= |Escaped(s, nul)| <= 2 * |s|
    decreases |s|
  {
    if s != "" {
      EscapedLength(s[1..], nul);
    }
  }

  lemma EscapedStep(s: string, nul: bool)
    ensures Escaped("", nul) == ""
    ensures s != "" ==>
      Escaped(s, nul) ==
      (if s[0] == '"' || s[0] == '\\' || (nul && s[0] == '\0') then ['\\'] else []) + [s[0]] + Escaped(s[1..], nul)
  {
  }

  /** escape(): what does not fit in a buffer of `buflen`, with the NUL behind it, is cut off. */
  method Escape(source: string, buflen: nat) returns (buffer: string)
    ensures |buffer| < buflen || buffer == ""
    ensures |Escaped(source, true)| < buflen ==> buffer == Escaped(source, true)
    ensures buffer <= Escaped(source, true)
  {
    hide Escaped;
    buffer := "";
    if buflen == 0 {
      return;
    }
    var srcpos := 0;
    ghost var all := Escaped(source, true);
    assert source[0..] == source && "" + all == all;
    while srcpos < |source| && |buffer| + 1 < buflen
      invariant srcpos <= |source| && |buffer| < buflen
      invariant all == buffer + Escaped(source[srcpos..], true)
    {
      ghost var rest, before := source[srcpos..], buffer;
      EscapedStep(rest, true);
      var ch := source[srcpos];
      assert rest[0] == ch && rest[1..] == source[srcpos + 1..];
      srcpos := srcpos + 1;
      EscapedLength(rest[1..], true);
      if ch == '\\' || ch == '"' || ch == '\0' {
        if |buffer| + 2 >= buflen {
          break;
        }
        buffer := buffer + ['\\'];
      }
      buffer := buffer + [ch];
      assert buffer == before + ((if ch == '\\' || ch == '"' || ch == '\0' then ['\\'] else []) + [ch]);
    }
    EscapedLength(source[srcpos..], true);
    EscapedStep(source[srcpos..], true);
  }

  method EscapeAttribute(attribute: string) returns (r: string)
    ensures r == Escaped(attribute, true)
  {
    EscapedLength(attribute, true);
    r := Escape(attribute, |attribute| * 2 + 1);
  }

  /** An attribute as HttpComposeAttributes writes it. */
  function Written(a: Attribute): string {
    if a.value == "" then a.name else a.name + "=\"" + Escaped(a.value, true) + "\""
  }

  function Composed(attributes: seq<Attribute>): string {
    if attributes == [] then ""
    else Written(attributes[0]) + ((if |attributes| > 1 then ", " else "") + Composed(attributes[1..]))
  }

  lemma ComposedStep(attributes: seq<Attribute>)
    ensures Composed([]) == ""
    ensures attributes != [] ==>
      Composed(attributes) ==
      Written(attributes[0]) + ((if |attributes| > 1 then ", " else "") + Composed(attributes[1..]))
  {
  }

  lemma Regroup(a: string, b: string, c: string, d: string, e: string)
    ensures a + (b + (c + (d + e))) == (a + b + c) + (d + e)
  {
  }

  method ComposeAttributes(attributes: seq<Attribute>) returns (composed: string)
    ensures composed == Composed(attributes)
  {
    hide Composed, Escaped;
    composed := "";
    var i := 0;
    assert attributes[0..] == attributes;
    while i < |attributes|
      invariant i <= |attributes|
      invariant Composed(attributes) ==
                composed + ((if 0 < i < |attributes| then ", " else "") + Composed(attributes[i..]))
    {
      ghost var rest, before := attributes[i..], composed;
      ComposedStep(rest);
      assert rest[0] == attributes[i] && rest[1..] == attributes[i + 1..];
      if i > 0 {
        composed := composed + ", ";
      }
      composed := composed + attributes[i].name;
      if attributes[i].value != "" {
        var escaped := EscapeAttribute(attributes[i].value);
        composed := composed + "=\"" + escaped + "\"";
      }
      assert composed == before + (if i > 0 then ", " else "") + Written(rest[0]);
      Regroup(before, if i > 0 then ", " else "", Written(rest[0]),
              if |rest| > 1 then ", " else "", Composed(rest[1..]));
      i := i + 1;
    }
    ComposedStep([]);
    assert attributes[i..] == [] && composed + ("" + "") == composed;
  }

  // ---------------------------------------------------------------- parsing

  lemma {:induction false} SkipShorter(s: string)
    ensures |SkipSpaces(s)| <= |s| && (SkipSpaces(s) != "" ==> !IsSpace(SkipSpaces(s)[0]))
    decreases |s|
  {
    if s != "" && IsSpace(s[0]) {
      SkipShorter(s[1..]);
    }
  }

  /** The end, a space, or a '=' that a value follows. */
  predicate EndOfName(s: string) {
    s == "" || IsSpace(s[0]) || (|s| > 1 && s[0] == '=' && !IsSpace(s[1]) && s[1] != '=')
  }

  function NameLength(s: string): (n: nat)
    ensures n <= |s| && EndOfName(s[n..])
  {
    if EndOfName(s) then 0
    else
      var n := NameLength(s[1..]);
      assert s[1..][n..] == s[n + 1..];
      n + 1
  }

  /** What is read after an opening quote, and what is left. */
  function Quoted(s: string): (r: (string, string))
    ensures |r.1| <= |s|
    decreases |s|
  {
    if s == "" then ("", "")
    else if s[0] == '"' then ("", s[1..])
    else if s[0] == '\\' && |s| > 1 then
      var (value, rest) := Quoted(s[2..]);
      ([s[1]] + value, rest)
    else
      var (value, rest) := Quoted(s[1..]);
      ([s[0]] + value, rest)
  }

  function Token(s: string): (r: (string, string))
    ensures |r.1| <= |s|
    decreases |s|
  {
    if s == "" || IsSpace(s[0]) || s[0] == ',' then ("", s)
    else
      var (value, rest) := Token(s[1..]);
      ([s[0]] + value, rest)
  }

  /** The value behind a name, if there is one. */
  function Value(s: string): (r: (string, string))
    ensures |r.1| <= |s| && (s != "" && s[0] == '=' ==> |r.1| < |s|)
  {
    if s != "" && s[0] == '=' then
      if |s| > 1 && s[1] == '"' then Quoted(s[2..]) else Token(s[1..])
    else ("", s)
  }

  function SkipComma(s: string): (r: string)
    ensures |r| <= |s|
  {
    if s != "" && s[0] == ',' then s[1..] else s
  }

  /** The attribute at the front of a text that does not start with a space, and what is left. */
  function First(s: string): (r: (Attribute, string))
    requires s != "" && !IsSpace(s[0])
    ensures |r.1| < |s|
  {
    var n := NameLength(s);
    var (value, rest) := Value(s[n..]);
    (Attribute(s[..n], value), SkipComma(rest))
  }

  function Attributes(s: string): seq<Attribute>
    decreases |s|
  {
    var t := SkipSpaces(s);
    SkipShorter(s);
    if t == "" then [] else [First(t).0] + Attributes(First(t).1)
  }

  method ParseAttributes(data: string) returns (attributes: seq<Attribute>)
    ensures attributes == Attributes(data)
  {
    hide Attributes, First, SkipSpaces;
    attributes := [];
    var pos := 0;
    assert data[0..] == data;
    while true
      invariant pos <= |data|
      invariant attributes + Attributes(data[pos..]) == Attributes(data)
      decreases |data| - pos
    {
      AttributesStep(data[pos..]);
      SkipShorter(data[pos..]);
      pos := PassSpaces(data, pos);
      if pos >= |data| {
        return;
      }
      var attribute;
      attribute, pos := ReadAttribute(data, pos);
      assert attributes + ([attribute] + Attributes(data[pos..])) == attributes + [attribute] + Attributes(data[pos..]);
      attributes := attributes + [attribute];
    }
  }

  lemma AttributesStep(s: string)
    ensures Attributes(s) == var t := SkipSpaces(s);
      if t == "" then [] else (SkipShorter(s); [First(t).0] + Attributes(First(t).1))
  {
  }

  method ReadAttribute(data: string, start: nat) returns (attribute: Attribute, pos: nat)
    requires start < |data| && !IsSpace(data[start])
    ensures start < pos <= |data| && First(data[start..]) == (attribute, data[pos..])
  {
    hide NameLength, Value, First, EndOfName;
    FirstStep(data[start..]);
    pos := PassName(data, start);
    var name := data[start..pos];
    assert name == data[start..][..pos - start] && data[start..][pos - start..] == data[pos..];
    var value;
    value, pos := ReadValue(data, pos);
    attribute := Attribute(name, value);
    ghost var rest := data[pos..];
    if pos < |data| && data[pos] == ',' {
      pos := pos + 1;
      assert SkipComma(rest) == data[pos..];
    } else {
      assert SkipComma(rest) == data[pos..];
    }
    assert |First(data[start..]).1| < |data[start..]|;
  }

  lemma FirstStep(s: string)
    requires s != "" && !IsSpace(s[0])
    ensures First(s).0 == Attribute(s[..NameLength(s)], Value(s[NameLength(s)..]).0)
    ensures First(s).1 == SkipComma(Value(s[NameLength(s)..]).1)
  {
  }

  method ReadValue(data: string, start: nat) returns (value: string, pos: nat)
    requires start <= |data|
    ensures start <= pos <= |data| && Value(data[start..]) == (value, data[pos..])
  {
    hide Quoted, Token;
    value, pos := "", start;
    ghost var rest := data[start..];
    if pos < |data| && data[pos] == '=' {
      pos := pos + 1;
      if pos < |data| && data[pos] == '"' {
        assert rest[2..] == data[pos + 1..];
        value, pos := ReadQuoted(data, pos + 1);
      } else {
        assert rest[1..] == data[pos..];
        value, pos := ReadToken(data, pos);
      }
    }
  }

  method PassSpaces(data: string, start: nat) returns (pos: nat)
    requires start <= |data|
    ensures start <= pos <= |data| && data[pos..] == SkipSpaces(data[start..])
  {
    pos := start;
    while pos < |data| && IsSpace(data[pos])
      invariant start <= pos <= |data| && SkipSpaces(data[pos..]) == SkipSpaces(data[start..])
    {
      assert data[pos..][1..] == data[pos + 1..];
      pos := pos + 1;
    }
  }

  method PassName(data: string, start: nat) returns (pos: nat)
    requires start <= |data|
    ensures start <= pos <= |data| && pos - start == NameLength(data[start..])
  {
    pos := start;
    while !EndOfName(data[pos..])
      invariant start <= pos <= |data| && pos - start + NameLength(data[pos..]) == NameLength(data[start..])
      decreases |data| - pos
    {
      assert data[pos..][1..] == data[pos + 1..];
      pos := pos + 1;
    }
  }

  lemma QuotedStep(s: string)
    requires s != ""
    ensures s[0] == '"' ==> Quoted(s) == ("", s[1..])
    ensures s[0] == '\\' && |s| > 1 ==> Quoted(s) == ([s[1]] + Quoted(s[2..]).0, Quoted(s[2..]).1)
    ensures s[0] != '"' && !(s[0] == '\\' && |s| > 1) ==> Quoted(s) == ([s[0]] + Quoted(s[1..]).0, Quoted(s[1..]).1)
  {
  }

  lemma NothingQuoted()
    ensures Quoted("") == ("", "")
  {
  }

  method ReadQuoted(data: string, start: nat) returns (value: string, pos: nat)
    requires start <= |data|
    ensures start <= pos <= |data| && Quoted(data[start..]) == (value, data[pos..])
  {
    hide Quoted;
    NothingQuoted();
    value, pos := "", start;
    while pos < |data|
      invariant start <= pos <= |data|
      invariant Quoted(data[start..]).0 == value + Quoted(data[pos..]).0
      invariant Quoted(data[start..]).1 == Quoted(data[pos..]).1
    {
      ghost var rest, before := data[pos..], value;
      QuotedStep(rest);
      assert rest[1..] == data[pos + 1..] && (|rest| > 1 ==> rest[2..] == data[pos + 2..]);
      if data[pos] == '"' {
        pos := pos + 1;
        assert value + "" == value;
        return;
      }
      if data[pos] == '\\' && pos + 1 < |data| {
        pos := pos + 1;
      }
      value := value + [data[pos]];
      pos := pos + 1;
      assert before + ([data[pos - 1]] + Quoted(data[pos..]).0) == value + Quoted(data[pos..]).0;
    }
    assert data[pos..] == "" && value + "" == value;
  }

  lemma TokenStep(s: string)
    ensures s == "" || IsSpace(s[0]) || s[0] == ',' ==> Token(s) == ("", s)
    ensures s != "" && !IsSpace(s[0]) && s[0] != ',' ==> Token(s) == ([s[0]] + Token(s[1..]).0, Token(s[1..]).1)
  {
  }

  method ReadToken(data: string, start: nat) returns (value: string, pos: nat)
    requires start <= |data|
    ensures start <= pos <= |data| && Token(data[start..]) == (value, data[pos..])
  {
    hide Token;
    value, pos := "", start;
    while pos < |data| && !IsSpace(data[pos]) && data[pos] != ','
      invariant start <= pos <= |data|
      invariant Token(data[start..]).0 == value + Token(data[pos..]).0
      invariant Token(data[start..]).1 == Token(data[pos..]).1
    {
      ghost var before := value;
      TokenStep(data[pos..]);
      assert data[pos..][1..] == data[pos + 1..];
      value := value + [data[pos]];
      pos := pos + 1;
      assert before + ([data[pos - 1]] + Token(data[pos..]).0) == value + Token(data[pos..]).0;
    }
    TokenStep(data[pos..]);
    assert value + "" == value;
  }

  // ---------------------------------------------------------------- what is written is read

  /** A name without a space or a '='. */
  predicate Plain(name: string) {
    name != "" && forall i :: 0 <= i < |name| ==> !IsSpace(name[i]) && name[i] != '='
  }

  /** A word that needs no quotes. */
  predicate Word(value: string) {
    value != "" && value[0] != '"' && value[0] != '=' && Unbroken(value)
  }

  predicate Unbroken(value: string) {
    forall c <- value :: !IsSpace(c) && c != ','
  }

  /** Whatever is quoted is read back, up to the closing quote. */
  lemma {:induction false} QuotedEscaped(value: string, nul: bool, tail: string)
    ensures Quoted(Escaped(value, nul) + "\"" + tail) == (value, tail)
    decreases |value|
  {
    var s := Escaped(value, nul) + "\"" + tail;
    if value == "" {
      assert s[0] == '"' && s[1..] == tail;
    } else {
      var rest := Escaped(value[1..], nul) + "\"" + tail;
      QuotedEscaped(value[1..], nul, tail);
      if s[0] == '\\' {
        assert s[1] == value[0] && s[2..] == rest;
      } else {
        assert s[0] == value[0] && s[1..] == rest;
      }
      assert value == [value[0]] + value[1..];
    }
  }

  /** No end of the name is seen before its end, when it is followed by `more`. */
  predicate Readable(name: string, more: string) {
    forall p :: 0 <= p < |name| ==> !EndOfName(name[p..] + more)
  }

  /** A name is read exactly up to its end if that looks like an end, and nothing before it does. */
  lemma {:induction false} NameIsReadIff(name: string, more: string)
    ensures NameLength(name + more) == |name| <==> Readable(name, more) && EndOfName(more)
    decreases |name|
  {
    var all := name + more;
    if name == "" {
      assert all == more && more[0..] == more;
    } else {
      var rest := name[1..];
      assert all[1..] == rest + more && name[0..] + more == all;
      assert forall p :: 0 < p < |name| ==> rest[p - 1..] == name[p..];
      if Readable(rest, more) && !EndOfName(all) {
        forall p | 0 <= p < |name| ensures !EndOfName(name[p..] + more) {
          assert p > 0 ==> !EndOfName(rest[p - 1..] + more);
        }
      }
      if Readable(name, more) {
        forall p | 0 <= p < |rest| ensures !EndOfName(rest[p..] + more) {
          assert !EndOfName(name[p + 1..] + more);
        }
      }
      NameIsReadIff(rest, more);
    }
  }

  lemma PlainIsReadable(name: string, more: string)
    requires Plain(name)
    ensures Readable(name, more)
  {
  }

  /** The end of a name is seen at two characters. */
  lemma ReadableAhead(name: string, more: string, after: string)
    requires |more| >= 1
    ensures Readable(name, more + after) <==> Readable(name, more)
  {
    forall p | 0 <= p < |name| ensures EndOfName(name[p..] + (more + after)) == EndOfName(name[p..] + more) {
      assert (name[p..] + (more + after))[..2] == (name[p..] + more)[..2];
      EndAtTwo(name[p..] + (more + after), name[p..] + more);
    }
  }

  lemma EndAtTwo(s: string, t: string)
    requires |s| >= 2 && |t| >= 2 && s[..2] == t[..2]
    ensures EndOfName(s) == EndOfName(t)
  {
    assert s[0] == s[..2][0] && t[0] == t[..2][0] && s[1] == s[..2][1] && t[1] == t[..2][1];
  }

  lemma {:induction false} WordIsRead(value: string, s: string)
    requires Unbroken(value) && (s != "" ==> IsSpace(s[0]) || s[0] == ',')
    ensures Token(value + s) == (value, s)
    decreases |value|
  {
    var all := value + s;
    if value == "" {
      assert all == s;
    } else {
      assert all[1..] == value[1..] + s && value == [value[0]] + value[1..];
      assert value[0] in value;
      WordIsRead(value[1..], s);
    }
  }

  lemma FirstQuoted(name: string, value: string, nul: bool, tail: string)
    requires Readable(name, "=\"")
    ensures var s := name + "=\"" + Escaped(value, nul) + "\"" + tail; s != "" && !IsSpace(s[0])
    ensures First(name + "=\"" + Escaped(value, nul) + "\"" + tail) == (Attribute(name, value), SkipComma(tail))
  {
    var e := Escaped(value, nul);
    var s := "=\"" + e + "\"" + tail;
    assert name + "=\"" + e + "\"" + tail == name + s && s == "=\"" + (e + "\"" + tail);
    ReadableAhead(name, "=\"", e + "\"" + tail);
    NameIsReadIff(name, s);
    StartsWithName(name, s);
    hide NameLength, Quoted, Escaped, Readable, EndOfName;
    QuotedEscaped(value, nul, tail);
    assert (name + s)[..|name|] == name && (name + s)[|name|..] == s && s[2..] == e + "\"" + tail;
  }

  /** A readable name does not start with a space. */
  lemma StartsWithName(name: string, more: string)
    requires Readable(name, more) && (name == "" ==> more != "" && !IsSpace(more[0]))
    ensures name + more != "" && !IsSpace((name + more)[0])
  {
    if name != "" {
      assert !EndOfName(name[0..] + more);
    }
  }

  lemma FirstWord(name: string, value: string, tail: string)
    requires Plain(name) && Word(value) && (tail != "" ==> IsSpace(tail[0]) || tail[0] == ',')
    ensures var s := name + "=" + value + tail; s != "" && !IsSpace(s[0])
    ensures First(name + "=" + value + tail) == (Attribute(name, value), SkipComma(tail))
  {
    hide NameLength, Token;
    var s := "=" + value + tail;
    assert name + "=" + value + tail == name + s;
    assert s[1] == value[0];
    PlainIsReadable(name, s);
    NameIsReadIff(name, s);
    WordIsRead(value, tail);
    assert (name + s)[..|name|] == name && (name + s)[|name|..] == s && s[1..] == value + tail;
  }

  lemma FirstName(name: string, tail: string)
    requires Plain(name) && (tail != "" ==> IsSpace(tail[0]))
    ensures !IsSpace((name + tail)[0])
    ensures First(name + tail) == (Attribute(name, ""), tail)
  {
    hide NameLength;
    PlainIsReadable(name, tail);
    NameIsReadIff(name, tail);
    assert (name + tail)[..|name|] == name && (name + tail)[|name|..] == tail;
  }

  lemma AttributesFrom(s: string)
    requires s != "" && !IsSpace(s[0])
    ensures Attributes(s) == [First(s).0] + Attributes(First(s).1)
    ensures Attributes(" " + s) == Attributes(s)
  {
    hide First;
    assert (" " + s)[1..] == s;
    AttributesStep(s);
    AttributesStep(" " + s);
  }

  /** The parser does not end a name at a comma: without a value, all names but the last swallow theirs. */
  function OneAsRead(a: Attribute, last: bool): Attribute {
    if a.value == "" && !last then a.(name := a.name + ",") else a
  }

  function AsRead(attributes: seq<Attribute>): (r: seq<Attribute>)
    ensures |r| == |attributes|
    ensures forall i :: 0 <= i < |attributes| ==> r[i] == OneAsRead(attributes[i], i + 1 == |attributes|)
  {
    seq(|attributes|, i requires 0 <= i < |attributes| => OneAsRead(attributes[i], i + 1 == |attributes|))
  }

  /** Nothing in the name, as it is written, looks like its end to the parser. */
  predicate Whole(a: Attribute, last: bool) {
    if a.value != "" then Readable(a.name, "=\"")
    else if last then a.name != "" && Readable(a.name, "")
    else Readable(a.name + ",", " ")
  }

  predicate AllWhole(attributes: seq<Attribute>) {
    forall i :: 0 <= i < |attributes| ==> Whole(attributes[i], i + 1 == |attributes|)
  }

  /** The text of the first of some attributes, and of the others. */
  function Line(a: Attribute, last: bool, tail: string): string {
    Written(a) + ((if last then "" else ", ") + tail)
  }

  /** The first attribute of a text, and what is left. */
  function Leading(s: string): Option<(Attribute, string)> {
    var t := SkipSpaces(s);
    SkipShorter(s);
    if t == "" then None else Some(First(t))
  }

  lemma LeadingStep(s: string)
    ensures Attributes(s) == if Leading(s) == None then [] else [Leading(s).value.0] + Attributes(Leading(s).value.1)
  {
  }

  /** What the parser takes as the name, behind spaces, is this name exactly if nothing in it looks like its end. */
  lemma NameIff(name: string, more: string)
    requires EndOfName(more) && (name == "" ==> more != "" && !IsSpace(more[0]))
    ensures Leading(name + more).Some? && Leading(name + more).value.0.name == name <==> Readable(name, more)
    ensures Readable(name, more) ==>
      NameLength(name + more) == |name| && Leading(name + more) == Some(First(name + more))
  {
    hide NameLength, Value;
    var s := name + more;
    var t := SkipSpaces(s);
    NameIsReadIff(name, more);
    SkipShorter(s);
    if name != "" && IsSpace(name[0]) {
      assert EndOfName(name[0..] + more);
      if t != "" && First(t).0.name == name {
        assert t[..NameLength(t)][0] == name[0];
      }
    } else {
      assert s != "" && !IsSpace(s[0]) && t == s;
      assert First(s).0.name == s[..NameLength(s)];
      assert |s[..NameLength(s)]| == NameLength(s) && s[..|name|] == name;
    }
  }

  /** The text of an attribute splits into the name that the parser should read and what follows it. */
  lemma LineSplits(a: Attribute, last: bool, tail: string) returns (more: string)
    requires (last ==> tail == "") && (last && a.value == "" ==> a.name != "")
    ensures Line(a, last, tail) == OneAsRead(a, last).name + more && EndOfName(more)
    ensures OneAsRead(a, last).name == "" ==> more != "" && !IsSpace(more[0])
    ensures Whole(a, last) <==> Readable(OneAsRead(a, last).name, more)
    ensures Value(more) == (a.value, if last then "" else if a.value == "" then more else ", " + tail)
    ensures a.value == "" && !last ==> more == " " + tail
  {
    hide Readable, Quoted, Escaped;
    if a.value != "" {
      var after := (if last then "" else ", ") + tail;
      var e := Escaped(a.value, true);
      more := "=\"" + (e + "\"" + after);
      ReadableAhead(a.name, "=\"", e + "\"" + after);
      QuotedEscaped(a.value, true, after);
      assert more[2..] == e + "\"" + after;
      assert Line(a, last, tail) == a.name + more;
    } else if last {
      more := "";
    } else {
      more := " " + tail;
      ReadableAhead(a.name + ",", " ", tail);
      assert Line(a, last, tail) == a.name + "," + more;
    }
  }

  /** An attribute is read as it should be exactly if its name is, and the parser is then behind its comma. */
  lemma ReadFirstIff(a: Attribute, last: bool, tail: string)
    requires last ==> tail == ""
    ensures var read := Leading(Line(a, last, tail));
      && (read.Some? && read.value.0 == OneAsRead(a, last) <==> Whole(a, last))
      && (Whole(a, last) ==> read.value.1 == if last then "" else " " + tail)
  {
    hide Readable, EndOfName, NameLength, Value, Leading, First, Line, Whole;
    if last && a.value == "" && a.name == "" {
      NothingIsRead(a);
    } else {
      var more := LineSplits(a, last, tail);
      var name := OneAsRead(a, last).name;
      NameIff(name, more);
      if Readable(name, more) {
        StartsWithName(name, more);
        FirstStep(name + more);
        assert (name + more)[|name|..] == more && (name + more)[..|name|] == name;
        assert (", " + tail)[1..] == " " + tail;
      }
    }
  }

  lemma NothingIsRead(a: Attribute)
    requires a.name == "" && a.value == ""
    ensures Leading(Line(a, true, "")) == None && !Whole(a, true)
  {
    assert Line(a, true, "") == "";
  }

  /** Without a value, an attribute before others is not read as what it is. */
  lemma BareIsMisread(a: Attribute, tail: string)
    requires a.value == ""
    ensures var read := Leading(Line(a, false, tail)); read == None || read.value.0 != a
  {
    hide NameLength, Value;
    var s := Line(a, false, tail);
    var t := SkipSpaces(s);
    SkipShorter(s);
    if t != "" {
      var n := NameLength(t);
      assert First(t).0.name == t[..n] && EndOfName(t[n..]);
      assert a.name != "" ==> s[0] == a.name[0];
      assert s[|a.name|..][0] == ',';
    }
  }

  lemma LineOfComposed(attributes: seq<Attribute>)
    requires attributes != []
    ensures Composed(attributes) == Line(attributes[0], |attributes| == 1, Composed(attributes[1..]))
    ensures |attributes| == 1 ==> Composed(attributes[1..]) == ""
  {
    ComposedStep(attributes);
    ComposedStep(attributes[1..]);
  }

  lemma AfterSpace(s: string)
    ensures Attributes(" " + s) == Attributes(s)
  {
    hide First;
    AttributesStep(s);
    AttributesStep(" " + s);
    assert (" " + s)[1..] == s;
  }

  lemma AllWholeStep(attributes: seq<Attribute>)
    requires attributes != []
    ensures AllWhole(attributes) <==> Whole(attributes[0], |attributes| == 1) && AllWhole(attributes[1..])
    ensures AsRead(attributes) == [OneAsRead(attributes[0], |attributes| == 1)] + AsRead(attributes[1..])
  {
    hide Whole, OneAsRead;
    var rest := attributes[1..];
    forall i | 0 < i < |attributes|
      ensures Whole(attributes[i], i + 1 == |attributes|) == Whole(rest[i - 1], i == |rest|)
    {
    }
    if AllWhole(rest) {
      forall i | 0 < i < |attributes| ensures Whole(attributes[i], i + 1 == |attributes|) {
        assert Whole(rest[i - 1], i == |rest|);
      }
    }
  }

  /** What the parser makes of any composed list is this, exactly if nothing in the names looks like their end. */
  lemma {:induction false} ComposedIsReadIff(attributes: seq<Attribute>)
    ensures Attributes(Composed(attributes)) == AsRead(attributes) <==> AllWhole(attributes)
    decreases |attributes|
  {
    hide Attributes, Composed, Leading, Line, Whole, AllWhole, AsRead, OneAsRead;
    ComposedStep(attributes);
    AttributesStep("");
    Blank();
    if attributes == [] {
      AsReadNone();
    } else {
      var a, rest, last := attributes[0], attributes[1..], |attributes| == 1;
      var tail := Composed(rest);
      LineOfComposed(attributes);
      ReadFirstIff(a, last, tail);
      LeadingStep(Composed(attributes));
      AllWholeStep(attributes);
      ComposedIsReadIff(rest);
      AfterSpace(tail);
      if Whole(a, last) {
        assert Attributes(Composed(attributes)) == [OneAsRead(a, last)] + Attributes(tail);
        assert (Attributes(Composed(attributes)))[1..] == Attributes(tail) && AsRead(attributes)[1..] == AsRead(rest);
      } else {
        assert AsRead(attributes)[0] == OneAsRead(a, last);
      }
    }
  }

  lemma AsReadNone()
    ensures AsRead([]) == [] && AllWhole([])
  {
  }

  /**
   So a composed list is read back exactly when all its attributes but the last have values, the last one has a value
   or a name, and nothing in the names looks like their end.
   */
  lemma RoundTripIff(attributes: seq<Attribute>)
    ensures Attributes(Composed(attributes)) == attributes <==>
      && AllWhole(attributes)
      && forall i :: 0 <= i < |attributes| - 1 ==> attributes[i].value != ""
  {
    hide Attributes, Composed, AllWhole;
    ComposedIsReadIff(attributes);
    if forall i :: 0 <= i < |attributes| - 1 ==> attributes[i].value != "" {
      assert AsRead(attributes) == attributes;
    } else {
      var i :| 0 <= i < |attributes| - 1 && attributes[i].value == "";
      BareIsNotRead(attributes, i);
    }
  }

  lemma {:induction false} BareIsNotRead(attributes: seq<Attribute>, i: nat)
    requires i < |attributes| - 1 && attributes[i].value == ""
    ensures Attributes(Composed(attributes)) != attributes
    decreases |attributes|
  {
    hide Attributes, Composed, Leading, Line, Whole, OneAsRead;
    var a, rest := attributes[0], attributes[1..];
    var tail, all := Composed(rest), Attributes(Composed(attributes));
    LineOfComposed(attributes);
    LeadingStep(Composed(attributes));
    if a.value == "" {
      BareIsMisread(a, tail);
      assert all == [] || all[0] != a;
    } else {
      ReadFirstIff(a, false, tail);
      BareIsNotRead(rest, i - 1);
      AfterSpace(tail);
      ValuedAsRead(a);
      if Whole(a, false) {
        assert all == [a] + Attributes(tail) && all[1..] == Attributes(tail);
      } else {
        assert all == [] || all[0] != a;
      }
    }
  }

  lemma ValuedAsRead(a: Attribute)
    requires a.value != ""
    ensures OneAsRead(a, false) == a
  {
  }

  /** In particular for names without spaces and '='. */
  lemma PlainRoundTripIff(attributes: seq<Attribute>)
    requires forall i :: 0 <= i < |attributes| ==> Plain(attributes[i].name)
    ensures Attributes(Composed(attributes)) == AsRead(attributes)
    ensures Attributes(Composed(attributes)) == attributes
       <==> forall i :: 0 <= i < |attributes| - 1 ==> attributes[i].value != ""
  {
    hide Attributes, Composed, Readable;
    forall i | 0 <= i < |attributes| ensures Whole(attributes[i], i + 1 == |attributes|) {
      var name := attributes[i].name;
      PlainIsReadable(name, "=\"");
      PlainIsReadable(name, "");
      PlainIsReadable(name + ",", " ");
    }
    ComposedIsReadIff(attributes);
    RoundTripIff(attributes);
  }

  // ---------------------------------------------------------------- the Digest answer

  /** An attribute of the answer, with its value in quotes or not. */
  datatype Part = Part(attribute: Attribute, quoted: bool)

  function PartText(p: Part): string {
    p.attribute.name + "=" + if p.quoted then Quote(p.attribute.value) else p.attribute.value
  }

  function Parts(parts: seq<Part>): string {
    if parts == [] then "" else PartText(parts[0]) + (if |parts| > 1 then ", " else "") + Parts(parts[1..])
  }

  predicate SoundPart(p: Part) {
    Plain(p.attribute.name) && (!p.quoted ==> Word(p.attribute.value))
  }

  predicate Sound(parts: seq<Part>) {
    forall i :: 0 <= i < |parts| ==> SoundPart(parts[i])
  }

  lemma {:induction false} PartsAppend(parts: seq<Part>, p: Part)
    ensures Parts(parts + [p]) == Parts(parts) + (if parts == [] then "" else ", ") + PartText(p)
    decreases |parts|
  {
    hide PartText;
    var all := parts + [p];
    if parts == [] {
      assert all[1..] == [];
    } else {
      PartsAppend(parts[1..], p);
      assert all[1..] == parts[1..] + [p];
    }
  }

  function AttributesOf(parts: seq<Part>): (r: seq<Attribute>)
    ensures |r| == |parts| && forall i :: 0 <= i < |parts| ==> r[i] == parts[i].attribute
  {
    seq(|parts|, i requires 0 <= i < |parts| => parts[i].attribute)
  }

  lemma ReadPart(p: Part, tail: string)
    requires SoundPart(p) && (tail != "" ==> tail[0] == ',')
    ensures var s := PartText(p) + tail; s != "" && !IsSpace(s[0]) && First(s) == (p.attribute, SkipComma(tail))
  {
    hide First, Escaped, Plain, Word, Readable;
    PlainIsReadable(p.attribute.name, "=\"");
    var name, value, s := p.attribute.name, p.attribute.value, PartText(p) + tail;
    if p.quoted {
      FirstQuoted(name, value, false, tail);
      assert s == name + "=\"" + Escaped(value, false) + "\"" + tail;
    } else {
      FirstWord(name, value, tail);
      assert s == name + "=" + value + tail;
    }
  }

  lemma {:induction false} PartsAreRead(parts: seq<Part>)
    requires Sound(parts)
    ensures Attributes(Parts(parts)) == AttributesOf(parts) == Attributes(" " + Parts(parts))
    decreases |parts|
  {
    hide Attributes, First, Parts, PartText, SkipSpaces, SoundPart;
    AttributesStep("");
    PartsStep(parts);
    Blank();
    if parts != [] {
      var p, rest := parts[0], parts[1..];
      var tail := (if |parts| > 1 then ", " else "") + Parts(rest);
      PartsStep(rest);
      assert |parts| == 1 ==> rest == [];
      ReadPart(p, tail);
      AttributesFrom(PartText(p) + tail);
      PartsAreRead(rest);
      assert |parts| > 1 ==> tail[1..] == " " + Parts(rest);
      assert AttributesOf(parts) == [p.attribute] + AttributesOf(rest);
    }
  }

  lemma Blank()
    ensures Attributes(" " + "") == [] && SkipSpaces("") == ""
  {
    var s := " " + "";
    assert s[1..] == "" && IsSpace(s[0]);
    assert SkipSpaces(s) == SkipSpaces("");
  }

  lemma PartsStep(parts: seq<Part>)
    ensures parts == [] ==> Parts(parts) == ""
    ensures parts != [] ==>
      Parts(parts) == PartText(parts[0]) + ((if |parts| > 1 then ", " else "") + Parts(parts[1..]))
  {
  }

  /** The value of the first attribute of that name. */
  function Lookup(attributes: seq<Attribute>, name: string): Option<string> {
    if attributes == [] then None
    else if attributes[0].name == name then Some(attributes[0].value)
    else Lookup(attributes[1..], name)
  }

  function OrEmpty(value: Option<string>): string {
    if value.Some? then value.value else ""
  }

  /** section 3.2.2.1 of RFC 2617; the hash is a parameter. */
  function Digest(md5: string -> string, args: seq<Attribute>, verb: string, uri: string, username: string,
                  password: string, cnonce: string): string
  {
    var nonce := OrEmpty(Lookup(args, "nonce"));
    var middle := if Lookup(args, "qop").Some? then nonce + ":" + "00000001" + ":" + cnonce + ":" + "auth" else nonce;
    var sensitive := username + ":" + OrEmpty(Lookup(args, "realm")) + ":" + password;
    md5(md5(sensitive) + ":" + middle + ":" + md5(verb + ":" + uri))
  }

  function IdentityParts(username: string, realm: string, nonce: string, uri: string): seq<Part> {
    [Part(Attribute("username", username), true), Part(Attribute("realm", realm), true),
     Part(Attribute("nonce", nonce), true), Part(Attribute("uri", uri), true)]
  }

  function QopParts(cnonce: string): seq<Part> {
    [Part(Attribute("qop", "auth"), false), Part(Attribute("nc", "00000001"), false),
     Part(Attribute("cnonce", cnonce), true)]
  }

  function DigestParts(md5: string -> string, args: seq<Attribute>, verb: string, uri: string, username: string,
                       password: string, cnonce: string): seq<Part>
  {
    IdentityParts(username, OrEmpty(Lookup(args, "realm")), OrEmpty(Lookup(args, "nonce")), uri) +
    (if Lookup(args, "qop").Some? then QopParts(cnonce) else []) +
    [Part(Attribute("response", Digest(md5, args, verb, uri, username, password, cnonce)), true)] +
    (if Lookup(args, "opaque").Some? then [Part(Attribute("opaque", OrEmpty(Lookup(args, "opaque"))), true)] else [])
  }

  /** One more name and value on the stream. */
  method Put(ss: string, ghost scheme: string, ghost parts: seq<Part>, first: bool, p: Part) returns (r: string)
    requires first == (parts == [])
    requires parts == [] ==> ss == scheme
    requires parts != [] ==> ss == scheme + " " + Parts(parts)
    ensures r == scheme + " " + Parts(parts + [p])
  {
    hide Parts, Quote;
    assert Parts(parts + [p]) == Parts(parts) + (if first then "" else ", ") + PartText(p) by { PartsAppend(parts, p); }
    PartsStep([]);
    var text := p.attribute.value;
    if p.quoted {
      text := QuoteString(text);
    }
    r := ss + (if first then " " else ", ") + p.attribute.name + "=" + text;
  }

  lemma {:induction false} HexNeedsNoQuoting(s: string)
    requires AllHex(s)
    ensures Escaped(s, false) == s
    decreases |s|
  {
    if s != "" {
      assert IsHex(s[0]) && s == [s[0]] + s[1..];
      HexNeedsNoQuoting(s[1..]);
    }
  }

  /** The Digest branch of HttpAuthenticate: the value of the Proxy-Authorization header. */
  method AnswerDigest(md5: string -> string, scheme: string, args: seq<Attribute>, verb: string, uri: string,
                      username: string, password: string, time: string)
    returns (response: string)
    requires forall s :: AllHex(md5(s))
    ensures response == scheme + " " + Parts(DigestParts(md5, args, verb, uri, username, password, md5(time)))
  {
    hide Parts, PartText, Quote, Escaped, Lookup, AllHex, IdentityParts, QopParts, Digest;
    var cnonce, ncount := md5(time), "00000001";
    var realm, nonce := OrEmpty(Lookup(args, "realm")), OrEmpty(Lookup(args, "nonce"));
    var hasQop, token := Lookup(args, "qop").Some?, Lookup(args, "opaque");
    var digResponse := HashDigest(md5, args, verb, uri, username, password, cnonce);
    response := PutIdentity(scheme, username, realm, nonce, uri);
    ghost var parts := IdentityParts(username, realm, nonce, uri);
    IdentityIsFour(username, realm, nonce, uri);
    if hasQop {
      response, parts := PutQop(response, scheme, parts, ncount, cnonce);
    }
    ghost var last := Part(Attribute("response", digResponse), true);
    HexPart(parts, digResponse);
    response, parts := response + ", response=" + "\"" + digResponse + "\"", parts + [last];
    if token.Some? {
      response, parts := PutNext(response, scheme, parts, "opaque", token.value, true);
    }
    assert parts == DigestParts(md5, args, verb, uri, username, password, cnonce);
  }

  method HashDigest(md5: string -> string, args: seq<Attribute>, verb: string, uri: string, username: string,
                    password: string, cnonce: string)
    returns (digResponse: string)
    requires forall s :: AllHex(md5(s))
    ensures digResponse == Digest(md5, args, verb, uri, username, password, cnonce) && AllHex(digResponse)
  {
    var realm, nonce := OrEmpty(Lookup(args, "realm")), OrEmpty(Lookup(args, "nonce"));
    var sensitive, a2, middle := username + ":" + realm + ":" + password, verb + ":" + uri, nonce;
    if Lookup(args, "qop").Some? {
      middle := nonce + ":" + "00000001" + ":" + cnonce + ":" + "auth";
    }
    digResponse := md5(md5(sensitive) + ":" + middle + ":" + md5(a2));
  }

  method PutNext(ss: string, ghost scheme: string, ghost parts: seq<Part>, name: string, value: string, quoted: bool)
    returns (r: string, ghost more: seq<Part>)
    requires parts != [] && ss == scheme + " " + Parts(parts)
    ensures more == parts + [Part(Attribute(name, value), quoted)]
    ensures r == scheme + " " + Parts(more)
  {
    var p := Part(Attribute(name, value), quoted);
    more := parts + [p];
    r := Put(ss, scheme, parts, false, p);
  }

  method PutQop(ss: string, ghost scheme: string, ghost parts: seq<Part>, ncount: string, cnonce: string)
    returns (r: string, ghost more: seq<Part>)
    requires parts != [] && ss == scheme + " " + Parts(parts) && ncount == "00000001"
    ensures more == parts + QopParts(cnonce) && r == scheme + " " + Parts(more)
  {
    hide Parts;
    r, more := PutNext(ss, scheme, parts, "qop", "auth", false);
    r, more := PutNext(r, scheme, more, "nc", ncount, false);
    r, more := PutNext(r, scheme, more, "cnonce", cnonce, true);
  }

  lemma IdentityIsFour(username: string, realm: string, nonce: string, uri: string)
    ensures |IdentityParts(username, realm, nonce, uri)| == 4
  {
  }

  method PutIdentity(scheme: string, username: string, realm: string, nonce: string, uri: string) returns (r: string)
    ensures r == scheme + " " + Parts(IdentityParts(username, realm, nonce, uri))
  {
    hide Parts;
    ghost var parts := [Part(Attribute("username", username), true)];
    r := Put(scheme, scheme, [], true, Part(Attribute("username", username), true));
    assert [] + parts == parts;
    r, parts := PutNext(r, scheme, parts, "realm", realm, true);
    r, parts := PutNext(r, scheme, parts, "nonce", nonce, true);
    r, parts := PutNext(r, scheme, parts, "uri", uri, true);
    assert parts == IdentityParts(username, realm, nonce, uri);
  }

  lemma HexPart(parts: seq<Part>, hex: string)
    requires AllHex(hex) && parts != []
    ensures Parts(parts + [Part(Attribute("response", hex), true)]) ==
            Parts(parts) + ", response=" + "\"" + hex + "\""
  {
    hide Parts, Escaped;
    PartsAppend(parts, Part(Attribute("response", hex), true));
    HexNeedsNoQuoting(hex);
  }

  /**
   * The answer parses into its scheme and exactly the values that went into it, whatever characters the user name,
   * the realm, the nonce, the URI and the opaque data consist of.
   */
  lemma AnswerIsRead(md5: string -> string, scheme: string, args: seq<Attribute>, verb: string, uri: string,
                     username: string, password: string, time: string)
    requires EqualsNoCase(scheme, "digest")
    ensures var parts := DigestParts(md5, args, verb, uri, username, password, md5(time));
      Attributes(scheme + " " + Parts(parts)) == [Attribute(scheme, "")] + AttributesOf(parts)
  {
    hide Attributes, First, Parts, Digest, AttributesOf, SkipSpaces;
    var parts := DigestParts(md5, args, verb, uri, username, password, md5(time));
    var tail := " " + Parts(parts);
    SchemeIsPlain(scheme);
    assert scheme + tail == scheme + " " + Parts(parts);
    FirstName(scheme, tail);
    AttributesFrom(scheme + tail);
    PartsAreSound(md5, args, verb, uri, username, password, md5(time));
    PartsAreRead(parts);
  }

  lemma SchemeIsPlain(scheme: string)
    requires EqualsNoCase(scheme, "digest")
    ensures Plain(scheme) && !IsSpace(scheme[0])
  {
    forall i | 0 <= i < |scheme| ensures !IsSpace(scheme[i]) && scheme[i] != '=' {
      assert Lower(scheme[i]) == Lower("digest"[i]);
    }
  }

  lemma PartsAreSound(md5: string -> string, args: seq<Attribute>, verb: string, uri: string, username: string,
                      password: string, cnonce: string)
    ensures Sound(DigestParts(md5, args, verb, uri, username, password, cnonce))
  {
    var response := Digest(md5, args, verb, uri, username, password, cnonce);
    SoundIdentity(username, OrEmpty(Lookup(args, "realm")), OrEmpty(Lookup(args, "nonce")), uri);
    SoundQop(cnonce);
    SoundOne("response", response);
    SoundOne("opaque", OrEmpty(Lookup(args, "opaque")));
    hide Digest, IdentityParts, QopParts, SoundPart, Lookup;
  }

  lemma SoundOne(name: string, value: string)
    requires name == "response" || name == "opaque"
    ensures Sound([Part(Attribute(name, value), true)])
  {
  }

  lemma SoundIdentity(username: string, realm: string, nonce: string, uri: string)
    ensures Sound(IdentityParts(username, realm, nonce, uri))
  {
  }

  lemma SoundQop(cnonce: string)
    ensures Sound(QopParts(cnonce))
  {
  }
}
