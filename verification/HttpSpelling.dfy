/** Attribute lists as anybody may write them, and what HttpParseAttributes makes of them. */
module HttpSpelling {
  import opened Ascii
  import opened HttpAttributes

  // ---------------------------------------------------------------- between quotes

  /** A character between quotes, with a backslash before it or without. */
  datatype Letter = Letter(c: char, escaped: bool)

  function Spelled(text: seq<Letter>): string {
    if text == [] then "" else (if text[0].escaped then "\\" else "") + [text[0].c] + Spelled(text[1..])
  }

  function Meant(text: seq<Letter>): (s: string)
    ensures |s| == |text| && forall i :: 0 <= i < |text| ==> s[i] == text[i].c
  {
    seq(|text|, i requires 0 <= i < |text| => text[i].c)
  }

  /** A quote and a backslash need one before them. */
  predicate Legible(text: seq<Letter>) {
    forall l <- text :: l.c == '"' || l.c == '\\' ==> l.escaped
  }

  /** The writers escape these two, and one of them the NUL; nothing else. */
  function Careful(s: string, nul: bool): (text: seq<Letter>)
    ensures Meant(text) == s && Legible(text)
  {
    seq(|s|, i requires 0 <= i < |s| =>
      Letter(s[i], s[i] == '"' || s[i] == '\\' || (nul && s[i] == '\0')))
  }

  lemma {:induction false} EscapedIs(s: string, nul: bool)
    ensures Escaped(s, nul) == Spelled(Careful(s, nul))
    decreases |s|
  {
    if s != "" {
      EscapedIs(s[1..], nul);
      assert Careful(s, nul)[1..] == Careful(s[1..], nul);
    }
  }

  /** Any spelling is read as what is meant, up to the quote. */
  lemma {:induction false} QuotedIs(text: seq<Letter>, tail: string)
    requires Legible(text)
    ensures Quoted(Spelled(text) + "\"" + tail) == (Meant(text), tail)
    decreases |text|
  {
    hide Quoted;
    var s := Spelled(text) + "\"" + tail;
    QuotedStep(s);
    if text == [] {
      assert s[1..] == tail;
    } else {
      var rest := Spelled(text[1..]) + "\"" + tail;
      assert text[0] in text;
      QuotedIs(text[1..], tail);
      assert text[0].escaped ==> s[0] == '\\' && s[1] == text[0].c && s[2..] == rest;
      assert !text[0].escaped ==> s[0] == text[0].c && s[1..] == rest;
      assert Meant(text) == [text[0].c] + Meant(text[1..]);
    }
  }

  /** Without a closing quote, up to the end; a last backslash stands for itself. */
  lemma {:induction false} UnclosedIs(text: seq<Letter>, slash: bool)
    requires Legible(text)
    ensures Quoted(Spelled(text) + if slash then "\\" else "") == (Meant(text) + if slash then "\\" else "", "")
    decreases |text|
  {
    var more := if slash then "\\" else "";
    var s := Spelled(text) + more;
    hide Quoted;
    NothingQuoted();
    if text == [] {
      assert s == more && Meant(text) + more == more;
      if slash {
        QuotedStep(s);
        assert s[1..] == "" && ['\\'] + "" == "\\";
      }
    } else {
      QuotedStep(s);
      var rest := Spelled(text[1..]) + more;
      assert text[0] in text;
      UnclosedIs(text[1..], slash);
      assert text[0].escaped ==> s[0] == '\\' && s[1] == text[0].c && s[2..] == rest;
      assert !text[0].escaped ==> s[0] == text[0].c && s[1..] == rest;
      assert Meant(text) + more == [text[0].c] + (Meant(text[1..]) + more);
    }
  }

  // ---------------------------------------------------------------- lists

  /** A name alone, with a word behind it, or with a text in quotes. */
  datatype Item = Bare(name: string) | Worded(name: string, value: string) | InQuotes(name: string, text: seq<Letter>)

  /** An item and what stands between it and the next one. */
  datatype Entry = Entry(item: Item, comma: bool, spaces: string)

  function ItemText(item: Item): string {
    match item
    case Bare(name) => name
    case Worded(name, value) => name + "=" + value
    case InQuotes(name, text) => name + "=\"" + Spelled(text) + "\""
  }

  function Text(entries: seq<Entry>): string {
    if entries == [] then ""
    else ItemText(entries[0].item) + ((if entries[0].comma then "," else "") + entries[0].spaces + Text(entries[1..]))
  }

  function Read(item: Item): Attribute {
    Attribute(item.name,
              match item case Bare(_) => "" case Worded(_, value) => value case InQuotes(_, text) => Meant(text))
  }

  function ReadAll(entries: seq<Entry>): (r: seq<Attribute>)
    ensures |r| == |entries| && forall i :: 0 <= i < |entries| ==> r[i] == Read(entries[i].item)
  {
    seq(|entries|, i requires 0 <= i < |entries| => Read(entries[i].item))
  }

  predicate Blanks(s: string) {
    forall c <- s :: IsSpace(c)
  }

  /** A name ends at a space only, and takes a comma with it; a word ends at either; a quote is an end of its own. */
  predicate Apart(e: Entry, last: bool) {
    && Plain(e.item.name) && e.item.name[0] != ',' && Blanks(e.spaces)
    && match e.item
       case Bare(_) => !e.comma && (last || e.spaces != "")
       case Worded(_, value) => Word(value) && (last || e.comma || e.spaces != "")
       case InQuotes(_, text) => Legible(text)
  }

  predicate AllApart(entries: seq<Entry>) {
    forall i :: 0 <= i < |entries| ==> Apart(entries[i], i + 1 == |entries|)
  }

  lemma {:induction false} BlanksAreSkipped(spaces: string, s: string)
    requires Blanks(spaces) && (s != "" ==> !IsSpace(s[0]))
    ensures SkipSpaces(spaces + s) == s
    decreases |spaces|
  {
    if spaces == "" {
      assert spaces + s == s;
    } else {
      assert spaces[0] in spaces && (spaces + s)[1..] == spaces[1..] + s;
      BlanksAreSkipped(spaces[1..], s);
    }
  }

  lemma FirstInQuotes(name: string, text: seq<Letter>, tail: string)
    requires Plain(name) && Legible(text)
    ensures var s := name + "=\"" + Spelled(text) + "\"" + tail; s != "" && !IsSpace(s[0])
    ensures First(name + "=\"" + Spelled(text) + "\"" + tail) == (Attribute(name, Meant(text)), SkipComma(tail))
  {
    hide NameLength, Quoted, Spelled;
    var s := "=\"" + (Spelled(text) + "\"" + tail);
    assert name + "=\"" + Spelled(text) + "\"" + tail == name + s;
    PlainIsReadable(name, s);
    NameIsReadIff(name, s);
    QuotedIs(text, tail);
    assert (name + s)[..|name|] == name && (name + s)[|name|..] == s && s[2..] == Spelled(text) + "\"" + tail;
  }

  lemma ItemIsRead(e: Entry, last: bool, tail: string)
    requires Apart(e, last)
    requires e.item.Bare? ==> tail == "" || IsSpace(tail[0])
    requires e.item.Worded? ==> tail == "" || IsSpace(tail[0]) || tail[0] == ','
    ensures var s := ItemText(e.item) + tail; s != "" && !IsSpace(s[0])
    ensures First(ItemText(e.item) + tail) == (Read(e.item), SkipComma(tail))
  {
    hide First, Spelled, Plain, Word, Legible, Blanks;
    match e.item
    case Bare(name) => FirstName(name, tail);
    case Worded(name, value) => FirstWord(name, value, tail);
    case InQuotes(name, text) => FirstInQuotes(name, text, tail);
  }

  /** Every list whose items are told apart is read as its items, however it is spaced, quoted and escaped. */
  lemma {:induction false} ListIsRead(spaces: string, entries: seq<Entry>)
    requires Blanks(spaces) && AllApart(entries)
    ensures Attributes(spaces + Text(entries)) == ReadAll(entries)
    decreases |entries|
  {
    hide Attributes, First, ItemText, Apart, Blanks, SkipSpaces;
    var s := spaces + Text(entries);
    AttributesStep(s);
    if entries == [] {
      BlanksAreSkipped(spaces, "");
    } else {
      var e, rest, last := entries[0], entries[1..], |entries| == 1;
      var tail := (if e.comma then "," else "") + e.spaces + Text(rest);
      TailIs(e, last, rest);
      ItemIsRead(e, last, tail);
      BlanksAreSkipped(spaces, Text(entries));
      assert forall i :: 0 <= i < |rest| ==> rest[i] == entries[i + 1];
      ListIsRead(e.spaces, rest);
      assert ReadAll(entries) == [Read(e.item)] + ReadAll(rest);
    }
  }

  lemma TailIs(e: Entry, last: bool, rest: seq<Entry>)
    requires Apart(e, last) && last == (rest == []) && (rest != [] ==> Apart(rest[0], |rest| == 1))
    ensures Blanks(e.spaces)
    ensures var tail := (if e.comma then "," else "") + e.spaces + Text(rest);
      && SkipComma(tail) == e.spaces + Text(rest)
      && (e.item.Bare? ==> tail == "" || IsSpace(tail[0]))
      && (e.item.Worded? ==> tail == "" || IsSpace(tail[0]) || tail[0] == ',')
  {
    hide Spelled;
    var tail := (if e.comma then "," else "") + e.spaces + Text(rest);
    if e.comma {
      assert tail[1..] == e.spaces + Text(rest);
    } else {
      assert tail == e.spaces + Text(rest);
      if e.spaces != "" {
        assert e.spaces[0] in e.spaces;
      } else if rest != [] {
        assert Text(rest)[0] == rest[0].item.name[0];
      }
    }
  }

  // ---------------------------------------------------------------- names

  /** A '=' belongs to a name if a space, another '=', or nothing follows it: as at the end of an encoded token. */
  predicate Inside(name: string, more: string, p: int)
    requires 0 <= p < |name|
  {
    var after := name[p + 1..] + more;
    !IsSpace(name[p]) && (name[p] == '=' ==> after == "" || IsSpace(after[0]) || after[0] == '=')
  }

  lemma ReadableIs(name: string, more: string)
    ensures Readable(name, more) <==> forall p :: 0 <= p < |name| ==> Inside(name, more, p)
  {
    forall p | 0 <= p < |name| ensures !EndOfName(name[p..] + more) <==> Inside(name, more, p) {
      var s, after := name[p..] + more, name[p + 1..] + more;
      assert s[0] == name[p] && s[1..] == after;
      assert |s| > 1 ==> s[1] == after[0];
    }
  }
}
