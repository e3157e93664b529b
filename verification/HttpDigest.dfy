/** What a server makes of the Digest answer: section 3.2.2 of RFC 2617. */
module HttpDigest {
  import opened Ascii
  import opened HttpAttributes

  function ValueOf(answer: seq<Attribute>, name: string): string {
    OrEmpty(Lookup(answer, name))
  }

  /** Attribute number `i` is the first of that name. */
  predicate FirstNamed(attributes: seq<Attribute>, name: string, i: int) {
    0 <= i < |attributes| && attributes[i].name == name && forall j :: 0 <= j < i ==> attributes[j].name != name
  }

  lemma {:induction false} LookupIs(attributes: seq<Attribute>, name: string)
    ensures match Lookup(attributes, name)
      case None => forall a <- attributes :: a.name != name
      case Some(value) => exists i :: FirstNamed(attributes, name, i) && attributes[i].value == value
    decreases |attributes|
  {
    if attributes != [] {
      var rest := attributes[1..];
      LookupIs(rest, name);
      if attributes[0].name == name {
        assert FirstNamed(attributes, name, 0);
      } else if Lookup(rest, name).Some? {
        var i :| FirstNamed(rest, name, i) && rest[i].value == Lookup(rest, name).value;
        assert FirstNamed(attributes, name, i + 1);
      }
    }
  }

  /**
   The response that section 3.2.2.1 of RFC 2617 wants: the hash of A1, the nonce and, with a quality of protection,
   count, client nonce and that quality, and A2; by what the answer says and by the password that the server knows.
   */
  function Wanted(md5: string -> string, answer: seq<Attribute>, verb: string, password: string): string {
    var a1 := ValueOf(answer, "username") + ":" + ValueOf(answer, "realm") + ":" + password;
    var a2 := verb + ":" + ValueOf(answer, "uri");
    if Lookup(answer, "qop").Some? then
      md5(md5(a1) + ":" + ValueOf(answer, "nonce") + ":" + ValueOf(answer, "nc") + ":" +
          ValueOf(answer, "cnonce") + ":" + ValueOf(answer, "qop") + ":" + md5(a2))
    else md5(md5(a1) + ":" + ValueOf(answer, "nonce") + ":" + md5(a2))
  }

  lemma {:induction false} LookupConcat(a: seq<Attribute>, b: seq<Attribute>, name: string)
    ensures Lookup(a + b, name) == if Lookup(a, name).Some? then Lookup(a, name) else Lookup(b, name)
    decreases |a|
  {
    if a == [] {
      assert a + b == b;
    } else {
      assert (a + b)[1..] == a[1..] + b;
      LookupConcat(a[1..], b, name);
    }
  }

  lemma LookupOne(name: string, value: string, other: string)
    ensures Lookup([Attribute(name, value)], other) == if name == other then Some(value) else None
  {
  }

  /** The four attributes in front. */
  lemma LookupIdentity(username: string, realm: string, nonce: string, uri: string, name: string)
    requires name in ["username", "realm", "nonce", "uri", "qop", "nc", "cnonce", "response", "opaque"]
    ensures Lookup(AttributesOf(IdentityParts(username, realm, nonce, uri)), name) ==
      if name == "username" then Some(username) else if name == "realm" then Some(realm)
      else if name == "nonce" then Some(nonce) else if name == "uri" then Some(uri) else None
  {
    var a, b := [Attribute("username", username)], [Attribute("realm", realm)];
    var c, d := [Attribute("nonce", nonce)], [Attribute("uri", uri)];
    hide Lookup;
    assert AttributesOf(IdentityParts(username, realm, nonce, uri)) == a + b + c + d;
    LookupConcat(a + b + c, d, name);
    LookupConcat(a + b, c, name);
    LookupConcat(a, b, name);
    LookupOne("username", username, name);
    LookupOne("realm", realm, name);
    LookupOne("nonce", nonce, name);
    LookupOne("uri", uri, name);
  }

  lemma LookupQop(cnonce: string, name: string)
    requires name in ["username", "realm", "nonce", "uri", "qop", "nc", "cnonce", "response", "opaque"]
    ensures Lookup(AttributesOf(QopParts(cnonce)), name) ==
      if name == "qop" then Some("auth") else if name == "nc" then Some("00000001")
      else if name == "cnonce" then Some(cnonce) else None
  {
    hide Lookup;
    var a, b, c := [Attribute("qop", "auth")], [Attribute("nc", "00000001")], [Attribute("cnonce", cnonce)];
    assert AttributesOf(QopParts(cnonce)) == a + b + c;
    LookupConcat(a + b, c, name);
    LookupConcat(a, b, name);
    LookupOne("qop", "auth", name);
    LookupOne("nc", "00000001", name);
    LookupOne("cnonce", cnonce, name);
  }

  /** What a look at the answer should find. */
  function ToLookUp(md5: string -> string, args: seq<Attribute>, verb: string, uri: string, username: string,
                    password: string, cnonce: string, name: string): Option<string>
  {
    var qop := Lookup(args, "qop").Some?;
    if name == "username" then Some(username)
    else if name == "realm" then Some(OrEmpty(Lookup(args, "realm")))
    else if name == "nonce" then Some(OrEmpty(Lookup(args, "nonce")))
    else if name == "uri" then Some(uri)
    else if name == "qop" then if qop then Some("auth") else None
    else if name == "nc" then if qop then Some("00000001") else None
    else if name == "cnonce" then if qop then Some(cnonce) else None
    else if name == "response" then Some(Digest(md5, args, verb, uri, username, password, cnonce))
    else Lookup(args, "opaque")
  }

  /** The attributes of the answer, behind the scheme. */
  lemma LookupAnswer(md5: string -> string, args: seq<Attribute>, verb: string, uri: string, username: string,
                     password: string, cnonce: string, name: string)
    requires name in ["username", "realm", "nonce", "uri", "qop", "nc", "cnonce", "response", "opaque"]
    ensures Lookup(AttributesOf(DigestParts(md5, args, verb, uri, username, password, cnonce)), name) ==
            ToLookUp(md5, args, verb, uri, username, password, cnonce, name)
  {
    hide Lookup, Digest, IdentityParts, QopParts;
    var response := Digest(md5, args, verb, uri, username, password, cnonce);
    var opaqueData := OrEmpty(Lookup(args, "opaque"));
    var a := AttributesOf(IdentityParts(username, OrEmpty(Lookup(args, "realm")), OrEmpty(Lookup(args, "nonce")), uri));
    var b := if Lookup(args, "qop").Some? then AttributesOf(QopParts(cnonce)) else [];
    var c := [Attribute("response", response)];
    var d := if Lookup(args, "opaque").Some? then [Attribute("opaque", opaqueData)] else [];
    assert AttributesOf(DigestParts(md5, args, verb, uri, username, password, cnonce)) == a + b + c + d;
    LookupConcat(a + b + c, d, name);
    LookupConcat(a + b, c, name);
    LookupConcat(a, b, name);
    LookupIdentity(username, OrEmpty(Lookup(args, "realm")), OrEmpty(Lookup(args, "nonce")), uri, name);
    LookupQop(cnonce, name);
    LookupOne("response", response, name);
    LookupOne("opaque", opaqueData, name);
    LookupNothing(name);
  }

  lemma LookupNothing(name: string)
    ensures Lookup([], name) == None
  {
  }

  /**
   A server that parses the answer, and hashes what it reads there with the password that it knows, gets the response
   that was sent; and it reads the user name and the URI, the realm, the nonce and the opaque data of its challenge.
   */
  lemma ServerAccepts(md5: string -> string, scheme: string, args: seq<Attribute>, verb: string, uri: string,
                      username: string, password: string, time: string)
    requires EqualsNoCase(scheme, "digest")
    ensures var parts := DigestParts(md5, args, verb, uri, username, password, md5(time));
      var answer := Attributes(scheme + " " + Parts(parts));
      && Lookup(answer, "response") == Some(Wanted(md5, answer, verb, password))
      && Lookup(answer, "username") == Some(username) && Lookup(answer, "uri") == Some(uri)
      && ValueOf(answer, "realm") == ValueOf(args, "realm") && ValueOf(answer, "nonce") == ValueOf(args, "nonce")
      && Lookup(answer, "opaque") == Lookup(args, "opaque")
      && if Lookup(args, "qop").Some? then
           && Lookup(answer, "qop") == Some("auth") && Lookup(answer, "nc") == Some("00000001")
           && Lookup(answer, "cnonce") == Some(md5(time))
         else Lookup(answer, "qop") == None
  {
    hide Attributes, Parts, AttributesOf, DigestParts, Lookup, Digest;
    AnswerIsRead(md5, scheme, args, verb, uri, username, password, time);
    Answered(md5, scheme, args, verb, uri, username, password, md5(time), "username");
    Answered(md5, scheme, args, verb, uri, username, password, md5(time), "realm");
    Answered(md5, scheme, args, verb, uri, username, password, md5(time), "nonce");
    Answered(md5, scheme, args, verb, uri, username, password, md5(time), "uri");
    Answered(md5, scheme, args, verb, uri, username, password, md5(time), "qop");
    Answered(md5, scheme, args, verb, uri, username, password, md5(time), "nc");
    Answered(md5, scheme, args, verb, uri, username, password, md5(time), "cnonce");
    Answered(md5, scheme, args, verb, uri, username, password, md5(time), "response");
    Answered(md5, scheme, args, verb, uri, username, password, md5(time), "opaque");
    DigestIsWanted(md5, scheme, args, verb, uri, username, password, md5(time));
  }

  lemma Answered(md5: string -> string, scheme: string, args: seq<Attribute>, verb: string, uri: string,
                 username: string, password: string, cnonce: string, name: string)
    requires EqualsNoCase(scheme, "digest")
    requires name in ["username", "realm", "nonce", "uri", "qop", "nc", "cnonce", "response", "opaque"]
    ensures var answer := [Attribute(scheme, "")] +
              AttributesOf(DigestParts(md5, args, verb, uri, username, password, cnonce));
      Lookup(answer, name) == ToLookUp(md5, args, verb, uri, username, password, cnonce, name)
  {
    hide AttributesOf, DigestParts, Lookup, ToLookUp;
    var attributes := AttributesOf(DigestParts(md5, args, verb, uri, username, password, cnonce));
    LookupAnswer(md5, args, verb, uri, username, password, cnonce, name);
    NotTheScheme(scheme, name);
    LookupConcat([Attribute(scheme, "")], attributes, name);
    LookupOne(scheme, "", name);
  }

  lemma DigestIsWanted(md5: string -> string, scheme: string, args: seq<Attribute>, verb: string, uri: string,
                       username: string, password: string, cnonce: string)
    requires EqualsNoCase(scheme, "digest")
    ensures var answer := [Attribute(scheme, "")] +
              AttributesOf(DigestParts(md5, args, verb, uri, username, password, cnonce));
      Wanted(md5, answer, verb, password) == Digest(md5, args, verb, uri, username, password, cnonce)
  {
    hide AttributesOf, DigestParts, Lookup;
    Answered(md5, scheme, args, verb, uri, username, password, cnonce, "username");
    Answered(md5, scheme, args, verb, uri, username, password, cnonce, "realm");
    Answered(md5, scheme, args, verb, uri, username, password, cnonce, "nonce");
    Answered(md5, scheme, args, verb, uri, username, password, cnonce, "uri");
    Answered(md5, scheme, args, verb, uri, username, password, cnonce, "qop");
    Answered(md5, scheme, args, verb, uri, username, password, cnonce, "nc");
    Answered(md5, scheme, args, verb, uri, username, password, cnonce, "cnonce");
    Middle(md5(username + ":" + ValueOf(args, "realm") + ":" + password), ValueOf(args, "nonce"), cnonce,
           md5(verb + ":" + uri));
  }

  lemma NotTheScheme(scheme: string, name: string)
    requires EqualsNoCase(scheme, "digest")
    requires name in ["username", "realm", "nonce", "uri", "qop", "nc", "cnonce", "response", "opaque"]
    ensures scheme != name
  {
    assert |scheme| == 6 && Lower(scheme[0]) == 'd';
    assert Lower("cnonce"[0]) == 'c' && Lower("opaque"[0]) == 'o';
  }

  lemma Middle(a1: string, nonce: string, cnonce: string, a2: string)
    ensures a1 + ":" + (nonce + ":" + "00000001" + ":" + cnonce + ":" + "auth") + ":" + a2 ==
            a1 + ":" + nonce + ":" + "00000001" + ":" + cnonce + ":" + "auth" + ":" + a2
  {
  }

  function Joined(pieces: seq<string>): string {
    if pieces == [] then "" else if |pieces| == 1 then pieces[0] else pieces[0] + ", " + Joined(pieces[1..])
  }

  function Pieces(parts: seq<Part>): (r: seq<string>)
    ensures |r| == |parts| && forall i :: 0 <= i < |parts| ==> r[i] == PartText(parts[i])
  {
    seq(|parts|, i requires 0 <= i < |parts| => PartText(parts[i]))
  }

  lemma {:induction false} PartsAreJoined(parts: seq<Part>)
    ensures Parts(parts) == Joined(Pieces(parts))
    decreases |parts|
  {
    hide PartText;
    if parts != [] {
      PartsAreJoined(parts[1..]);
      assert Pieces(parts)[1..] == Pieces(parts[1..]);
      assert |parts| == 1 ==> PartText(parts[0]) + "" + "" == PartText(parts[0]);
    }
  }

  /** The text of the answer behind the scheme. */
  lemma AnswerText(md5: string -> string, args: seq<Attribute>, verb: string, uri: string, username: string,
                   password: string, cnonce: string)
    ensures Parts(DigestParts(md5, args, verb, uri, username, password, cnonce)) == Joined(
      ["username=" + Quote(username), "realm=" + Quote(ValueOf(args, "realm")),
       "nonce=" + Quote(ValueOf(args, "nonce")), "uri=" + Quote(uri)] +
      (if Lookup(args, "qop").Some? then ["qop=auth", "nc=00000001", "cnonce=" + Quote(cnonce)] else []) +
      ["response=" + Quote(Digest(md5, args, verb, uri, username, password, cnonce))] +
      if Lookup(args, "opaque").Some? then ["opaque=" + Quote(ValueOf(args, "opaque"))] else [])
  {
    var parts := DigestParts(md5, args, verb, uri, username, password, cnonce);
    PartsAreJoined(parts);
    Names();
    var response := Digest(md5, args, verb, uri, username, password, cnonce);
    hide Parts, Quote, Digest, Lookup, Joined;
    var a := ["username=" + Quote(username), "realm=" + Quote(ValueOf(args, "realm")),
              "nonce=" + Quote(ValueOf(args, "nonce")), "uri=" + Quote(uri)];
    var b := ["qop=auth", "nc=00000001", "cnonce=" + Quote(cnonce)];
    assert Pieces(IdentityParts(username, ValueOf(args, "realm"), ValueOf(args, "nonce"), uri)) == a;
    assert Pieces(QopParts(cnonce)) == b;
    assert PartText(Part(Attribute("response", response), true)) == "response=" + Quote(response);
    assert PartText(Part(Attribute("opaque", ValueOf(args, "opaque")), true)) ==
      "opaque=" + Quote(ValueOf(args, "opaque"));
    hide PartText, IdentityParts, QopParts;
    var all := a + (if Lookup(args, "qop").Some? then b else []) + ["response=" + Quote(response)] +
      if Lookup(args, "opaque").Some? then ["opaque=" + Quote(ValueOf(args, "opaque"))] else [];
    assert Pieces(parts) == all;
  }

  lemma Names()
    ensures "username" + "=" == "username=" && "realm" + "=" == "realm=" && "nonce" + "=" == "nonce="
    ensures "uri" + "=" == "uri=" && "qop" + "=" + "auth" == "qop=auth" && "nc" + "=" + "00000001" == "nc=00000001"
    ensures "cnonce" + "=" == "cnonce=" && "response" + "=" == "response=" && "opaque" + "=" == "opaque="
  {
  }
}
