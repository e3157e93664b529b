/** The verdict of the Base64 decoder on any text, by what stands in it. */
module Base64Forms {
  import opened Ascii
  import opened Base64

  // ---------------------------------------------------------------- the bits of a text

  /** The values of characters of the alphabet. */
  function Values(s: string): (v: seq<sextet>)
    requires forall c <- s :: IsBase64Char(c)
    ensures |v| == |s| && forall i :: 0 <= i < |s| ==> v[i] == Code(s[i])
  {
    CharCode();
    seq(|s|, i requires 0 <= i < |s| => Code(s[i]))
  }

  /** The bits of up to four values as one number. */
  function Bits(v: seq<sextet>): nat
    requires |v| <= 4
  {
    if |v| == 0 then 0
    else if |v| == 1 then v[0]
    else if |v| == 2 then v[0] as int * 64 + v[1] as int
    else if |v| == 3 then v[0] as int * 4096 + v[1] as int * 64 + v[2] as int
    else v[0] as int * 26_2144 + v[1] as int * 4096 + v[2] as int * 64 + v[3] as int
  }

  /** The bytes that lie whole in 24 bits, 18, or 12. */
  function GroupBytes(v: seq<sextet>): seq<byte>
    requires |v| <= 4
  {
    if |v| < 2 then []
    else if |v| == 2 then [Bits(v) / 16]
    else if |v| == 3 then [Bits(v) / 1024, Bits(v) / 4 % 256]
    else [Bits(v) / 6_5536, Bits(v) / 256 % 256, Bits(v) % 256]
  }

  function Bytes(v: seq<sextet>): seq<byte> {
    if |v| <= 4 then GroupBytes(v) else GroupBytes(v[..4]) + Bytes(v[4..])
  }

  /** The bits behind the last byte: 6, 4, 2, or none. */
  function Leftover(v: seq<sextet>): nat {
    if |v| > 4 then Leftover(v[4..])
    else if |v| == 1 then Bits(v)
    else if |v| == 2 then Bits(v) % 16
    else if |v| == 3 then Bits(v) % 4
    else 0
  }

  lemma WholeIs(v: seq<sextet>)
    requires |v| <= 4
    ensures Whole(v) == Bytes(v) && (Unused(v) == 0 <==> Leftover(v) == 0)
  {
    hide Bits, GroupBytes, Whole, Unused;
    match |v|
    case 0 => WholeNone(v);
    case 1 => WholeNone(v);
    case 2 => WholeTwo(v[0], v[1]); assert v == [v[0], v[1]];
    case 3 => WholeThree(v[0], v[1], v[2]); assert v == [v[0], v[1], v[2]];
    case _ => WholeFour(v[0], v[1], v[2], v[3]); assert v == [v[0], v[1], v[2], v[3]];
  }

  lemma WholeNone(v: seq<sextet>)
    requires |v| < 2
    ensures Whole(v) == GroupBytes(v) && (Unused(v) == 0 <==> Leftover(v) == 0)
  {
  }

  lemma WholeTwo(a: sextet, b: sextet)
    ensures Whole([a, b]) == GroupBytes([a, b]) && (Unused([a, b]) == 0 <==> Bits([a, b]) % 16 == 0)
  {
    TwoAre(a, b);
  }

  lemma WholeThree(a: sextet, b: sextet, c: sextet)
    ensures Whole([a, b, c]) == GroupBytes([a, b, c]) && (Unused([a, b, c]) == 0 <==> Bits([a, b, c]) % 4 == 0)
  {
    ThreeAre(a, b, c);
  }

  lemma WholeFour(a: sextet, b: sextet, c: sextet, d: sextet)
    ensures Whole([a, b, c, d]) == GroupBytes([a, b, c, d]) && Unused([a, b, c, d]) == 0
  {
    FourAre(a, b, c, d);
  }

  lemma TwoAre(a: nat, b: nat)
    requires a < 64 && b < 64
    ensures var n := a * 64 + b; n / 16 == a * 4 + b / 16 && n % 16 == b % 16
  {
  }

  lemma ThreeAre(a: nat, b: nat, c: nat)
    requires a < 64 && b < 64 && c < 64
    ensures var n := a * 4096 + b * 64 + c;
      n / 1024 == a * 4 + b / 16 && n / 4 % 256 == b % 16 * 16 + c / 4 && n % 4 == c % 4
  {
    var q, r, t := a * 4 + b / 16, b % 16 * 16 + c / 4, c % 4;
    assert a * 4096 + b * 64 + c == q * 1024 + r * 4 + t;
    TwoBytes(q, r, t);
  }

  lemma TwoBytes(q: nat, r: nat, t: nat)
    requires r < 256 && t < 4
    ensures var n := q * 1024 + r * 4 + t; n / 1024 == q && n / 4 % 256 == r && n % 4 == t
  {
    var n := q * 1024 + r * 4 + t;
    assert n == (q * 256 + r) * 4 + t;
    assert n / 4 == q * 256 + r;
  }

  lemma FourAre(a: nat, b: nat, c: nat, d: nat)
    requires a < 64 && b < 64 && c < 64 && d < 64
    ensures var n := a * 26_2144 + b * 4096 + c * 64 + d;
      n / 6_5536 == a * 4 + b / 16 && n / 256 % 256 == b % 16 * 16 + c / 4 && n % 256 == c % 4 * 64 + d
  {
    var n := a * 26_2144 + b * 4096 + c * 64 + d;
    var p, q, r := a * 4 + b / 16, b % 16 * 16 + c / 4, c % 4 * 64 + d;
    assert n == p * 6_5536 + q * 256 + r;
    ThreeBytes(p, q, r);
  }

  lemma ThreeBytes(p: nat, q: nat, r: nat)
    requires q < 256 && r < 256
    ensures var n := p * 6_5536 + q * 256 + r; n / 6_5536 == p && n / 256 % 256 == q && n % 256 == r
  {
    var n := p * 6_5536 + q * 256 + r;
    assert n == (p * 256 + q) * 256 + r;
    assert n / 256 == p * 256 + q;
  }

  // ---------------------------------------------------------------- the strict mode, under all other options

  /** How many characters of the alphabet stand in front. */
  function Front(s: string): (n: nat)
    ensures n <= |s| && forall i :: 0 <= i < n ==> IsBase64Char(s[i])
    ensures n < |s| ==> !IsBase64Char(s[n])
  {
    if s != "" && IsBase64Char(s[0]) then 1 + Front(s[1..]) else 0
  }

  function FrontValues(s: string): (v: seq<sextet>)
    ensures |v| == Front(s)
  {
    Values(s[..Front(s)])
  }

  /** The pads that two or three characters want stand behind them, and count. */
  predicate Closed(pads: Pads, s: string) {
    var n := Front(s);
    var missing := 4 - n % 4;
    pads != PadNo && missing <= 2 && n + missing <= |s| && forall i :: n <= i < n + missing ==> s[i] == '='
  }

  /** This many pads, which are at most two, stand in front. */
  predicate Filled(missing: int, t: string) {
    0 <= missing <= 2 && missing <= |t| && forall i :: 0 <= i < missing ==> t[i] == '='
  }

  function Used(pads: Pads, s: string): (n: nat)
    ensures n <= |s|
  {
    if Closed(pads, s) then Front(s) + (4 - Front(s) % 4) else Front(s)
  }

  lemma FrontStep(s: string)
    requires Front(s) >= 4
    ensures Front(s[4..]) == Front(s) - 4 && FrontValues(s[4..]) == FrontValues(s)[4..]
    ensures s == Chars(FrontValues(s)[..4]) + s[4..]
  {
    hide Code, Char;
    assert s[1..][1..][1..][1..] == s[4..];
    assert Front(s[1..]) == Front(s) - 1;
    assert Front(s[1..][1..]) == Front(s) - 2;
    assert Front(s[1..][1..][1..]) == Front(s) - 3;
    assert Front(s[1..][1..][1..][1..]) == Front(s) - 4;
    var v := FrontValues(s)[..4];
    CharsAt(v);
    CharCode();
    assert forall i :: 0 <= i < 4 ==> s[i] == Char(v[i]);
  }

  lemma FrontShort(s: string)
    requires Front(s) < 4
    ensures s == Chars(FrontValues(s)) + s[Front(s)..]
  {
    hide Code, Char;
    CharsAt(FrontValues(s));
    CharCode();
    assert forall i :: 0 <= i < Front(s) ==> s[i] == Char(FrontValues(s)[i]);
  }

  lemma ClosedStep(pads: Pads, s: string)
    requires Front(s) >= 4
    ensures Closed(pads, s) == Closed(pads, s[4..]) && Used(pads, s) == 4 + Used(pads, s[4..])
  {
    FrontStep(s);
    hide Front, FrontValues;
    var n := Front(s);
    assert n % 4 == (n - 4) % 4;
    if Closed(pads, s[4..]) {
      forall i | n <= i < n + (4 - n % 4) ensures s[i] == '=' {
        assert s[4..][i - 4] == s[i];
      }
    }
  }

  /** Where the characters of the alphabet end, the strict mode takes the pads that are missing, or stops. */
  lemma StrictEnd(illegalPads: bool, v: seq<sextet>, t: string)
    requires |v| < 4 && (t != "" ==> !IsBase64Char(t[0]))
    ensures var r, missing := Scan(Strict, illegalPads, t, NoQuantum.(values := v)), 4 - |v|;
      var closed := !illegalPads && Filled(missing, t);
      r.values == v && Padded(r) == closed && After(r) == t[if closed then missing else 0..]
  {
    hide Scan, Code;
    CharCode();
    var q := NoQuantum.(values := v);
    if t == "" {
      ScanStops(Strict, illegalPads, t, q);
    } else {
      ScanOnce(Strict, illegalPads, t, q);
      if t[0] == '=' && !illegalPads && |v| >= 2 {
        var one := q.(pads := 1, fromPad := t);
        assert Round(Strict, illegalPads, t, q) == Some(one);
        if t[1..] == "" {
          ScanStops(Strict, illegalPads, t[1..], one);
        } else {
          ScanOnce(Strict, illegalPads, t[1..], one);
          if t[1] == '=' && |v| == 2 {
            var two := one.(pads := 2);
            assert Round(Strict, illegalPads, t[1..], one) == Some(two);
            assert t[1..][1..] == t[2..];
            if t[2..] == "" {
              ScanStops(Strict, illegalPads, t[2..], two);
            } else {
              ScanOnce(Strict, illegalPads, t[2..], two);
            }
          }
        }
      }
    }
  }

  /** What the strict mode makes of any text. */
  ghost predicate StrictForm(flags: Flags, s: string, d: Decoded) {
    var v := FrontValues(s);
    && d.bytes == Bytes(v) && d.rest == s[Used(flags.pads, s)..]
    && (d.success <==>
          && (flags.term != TermAny ==> Leftover(v) == 0)
          && (flags.pads == PadYes ==> Closed(flags.pads, s) || (|v| % 4 == 0 && |v| == |s|))
          && (flags.term == TermBuffer ==> Used(flags.pads, s) == |s|))
  }

  /**
   The strict mode takes the characters of the alphabet in front, and the pads if they are allowed and complete. It
   fails on bits left over unless the options ignore them, on missing pads or anything behind whole groups if pads are
   wanted, and on anything that it has not taken if the whole text is to be.
   */
  lemma {:induction false} StrictIs(flags: Flags, s: string)
    requires flags.parse == Strict
    ensures StrictForm(flags, s, Decode(flags, s))
    decreases |s|
  {
    hide Decode, StrictForm, Front;
    if s == "" {
      DecodeNothing(flags);
      EmptyForm(flags);
    } else if Front(s) >= 4 {
      StrictIs(flags, s[4..]);
      StrictGroup(flags, s);
    } else {
      StrictShort(flags, s);
    }
  }

  lemma StrictGroup(flags: Flags, s: string)
    requires flags.parse == Strict && Front(s) >= 4 && StrictForm(flags, s[4..], Decode(flags, s[4..]))
    ensures StrictForm(flags, s, Decode(flags, s))
  {
    hide Decode, Scan, Code, Char, Front, FrontValues, Values, Closed, Used, Whole, Unused, Bytes, Leftover;
    var v := FrontValues(s);
    FrontStep(s);
    ClosedStep(flags.pads, s);
    ScanChars(Strict, flags.pads == PadNo, v[..4], s[4..], NoQuantum);
    assert NoQuantum.values + v[..4] == v[..4];
    ScanStops(Strict, flags.pads == PadNo, s[4..], NoQuantum.(values := v[..4]));
    DecodeOnce(flags, s);
    WholeIs(v[..4]);
    BytesStep(v);
    assert s[4..][Used(flags.pads, s[4..])..] == s[Used(flags.pads, s)..];
  }

  lemma StrictShort(flags: Flags, s: string)
    requires flags.parse == Strict && s != "" && Front(s) < 4
    ensures StrictForm(flags, s, Decode(flags, s))
  {
    hide Decode, Scan, Front, FrontValues, Closed, Used, Whole, Unused, Bytes, Leftover, Padded, After;
    var v, t := FrontValues(s), s[Front(s)..];
    ShortNext(flags, s);
    DecodeOnce(flags, s);
    WholeIs(v);
    ClosedShort(flags.pads, s);
  }

  lemma ShortNext(flags: Flags, s: string)
    requires flags.parse == Strict && s != "" && Front(s) < 4
    ensures var v, t := FrontValues(s), s[Front(s)..];
      var q, missing := Next(flags, s), 4 - |v|;
      var closed := flags.pads != PadNo && Filled(missing, t);
      q.values == v && Padded(q) == closed && After(q) == t[if closed then missing else 0..]
  {
    hide Scan, Code, Char, Front, FrontValues, Padded, After;
    var v, t := FrontValues(s), s[Front(s)..];
    FrontShort(s);
    ScanChars(Strict, flags.pads == PadNo, v, t, NoQuantum);
    assert NoQuantum.values + v == v;
    FrontEnds(s);
    StrictEnd(flags.pads == PadNo, v, t);
  }

  lemma FrontEnds(s: string)
    ensures s[Front(s)..] != "" ==> !IsBase64Char(s[Front(s)..][0])
  {
  }

  lemma EmptyForm(flags: Flags)
    ensures StrictForm(flags, "", Decoded([], true, ""))
  {
    assert Front("") == 0 && FrontValues("") == [];
  }

  lemma BytesStep(v: seq<sextet>)
    requires |v| >= 4
    ensures Bytes(v) == Bytes(v[..4]) + Bytes(v[4..]) && Leftover(v) == Leftover(v[4..])
    ensures |v| % 4 == |v[4..]| % 4
  {
    hide GroupBytes, Bits;
    assert |v| % 4 == (|v| - 4) % 4;
    assert Bytes(v[..4]) == GroupBytes(v[..4]);
    if |v| == 4 {
      assert v[..4] == v && v[4..] == [];
      assert Bytes([]) == GroupBytes([]) == [] by { NoBytes(); }
    }
  }

  lemma NoBytes()
    ensures GroupBytes([]) == []
  {
  }

  lemma ClosedShort(pads: Pads, s: string)
    requires Front(s) < 4
    ensures var t, missing := s[Front(s)..], 4 - Front(s);
      Closed(pads, s) <==> pads != PadNo && Filled(missing, t)
    ensures s[Used(pads, s)..] == s[Front(s)..][if Closed(pads, s) then 4 - Front(s) else 0..]
    ensures Closed(pads, s) ==> Front(s) > 0
  {
    hide Front;
    var n := Front(s);
    assert n % 4 == n;
    if n > 0 {
      forall i | n <= i < |s| ensures s[n..][i - n] == s[i] {
      }
    }
  }

  // ---------------------------------------------------------------- white space

  predicate IsWhite(c: char) {
    c == ' ' || 9 <= c as int <= 13
  }

  /** All but the white space. */
  function Black(s: string): (t: string)
    ensures |t| <= |s| && (t == s || |t| < |s|)
  {
    if s == "" then "" else (if IsWhite(s[0]) then "" else [s[0]]) + Black(s[1..])
  }

  lemma WhiteCode(c: char)
    ensures Code(c) == WHITESPACE <==> IsWhite(c)
  {
  }

  /** Two scans that have come equally far. */
  ghost predicate SameSoFar(q: Quantum, p: Quantum) {
    q.values == p.values && q.pads == p.pads && (q.pads > 0 ==> SameText(q.fromPad, p.fromPad) && q.fromPad != "")
  }

  /** The same up to white space, which is not in front. */
  ghost predicate SameText(s: string, t: string) {
    Black(s) == t && (s != "" ==> !IsWhite(s[0]))
  }

  /** The white mode has gone from `q` to `r` over `s`, and the strict mode to `t` over its black characters. */
  ghost predicate Abreast(s: string, q: Quantum, r: Quantum, t: Quantum) {
    && SameSoFar(r, t) && Black(r.rest) == t.rest && (|r.values| < 4 ==> SameText(r.rest, t.rest))
    && (r.rest != "" ==> s != "" && r.rest[|r.rest| - 1] == s[|s| - 1])
    && (|q.values| < 4 == |r.values| && r.rest == "" ==> s != "" && !IsWhite(s[|s| - 1]))
  }

  lemma {:induction false} ScanWhite(illegalPads: bool, s: string, q: Quantum, p: Quantum)
    requires |q.values| <= 4 && SameSoFar(q, p)
    ensures Abreast(s, q, Scan(White, illegalPads, s, q), Scan(Strict, illegalPads, Black(s), p))
    decreases |s|
  {
    hide Code, Scan, Round, IsWhite, SameSoFar, SameText, Abreast, Black;
    var b := Black(s);
    if |q.values| == 4 || s == "" {
      SameEnd(illegalPads, s, q, p);
    } else {
      ScanOnce(White, illegalPads, s, q);
      RoundWhite(illegalPads, s, q, p);
      var r := Scan(White, illegalPads, s, q);
      if IsWhite(s[0]) {
        ScanWhite(illegalPads, s[1..], q, p);
        AbreastLater(s, q, q, r, Scan(Strict, illegalPads, b, p));
      } else {
        assert b[0] == s[0] && b[1..] == Black(s[1..]);
        ScanOnce(Strict, illegalPads, b, p);
        var next, after := Round(White, illegalPads, s, q), Round(Strict, illegalPads, b, p);
        if next.Some? {
          ScanWhite(illegalPads, s[1..], next.value, after.value);
          if |next.value.values| == 4 {
            ScanStops(White, illegalPads, s[1..], next.value);
          }
          AbreastLater(s, q, next.value, r, Scan(Strict, illegalPads, b, p));
        } else {
          SameStop(s, q, p);
        }
      }
    }
  }

  lemma AbreastLater(s: string, q: Quantum, next: Quantum, r: Quantum, t: Quantum)
    requires s != "" && Abreast(s[1..], next, r, t) && |q.values| < 4 && |next.values| <= 4
    requires next.values == q.values || (!IsWhite(s[0]) && (|next.values| == 4 ==> r.rest == s[1..]))
    ensures Abreast(s, q, r, t)
  {
    hide IsWhite, SameSoFar, SameText, Black;
    assert |s| > 1 ==> s[1..][|s| - 2] == s[|s| - 1];
  }

  lemma SameEnd(illegalPads: bool, s: string, q: Quantum, p: Quantum)
    requires |q.values| <= 4 && SameSoFar(q, p) && (|q.values| == 4 || s == "")
    ensures Abreast(s, q, Scan(White, illegalPads, s, q), Scan(Strict, illegalPads, Black(s), p))
  {
    hide Scan, IsWhite;
    ScanStops(White, illegalPads, s, q);
    ScanStops(Strict, illegalPads, Black(s), p);
  }

  lemma SameStop(s: string, q: Quantum, p: Quantum)
    requires SameSoFar(q, p) && s != "" && !IsWhite(s[0]) && |q.values| < 4
    ensures Abreast(s, q, q.(rest := s), p.(rest := Black(s)))
  {
    hide IsWhite;
  }

  /** White space changes nothing, and any other character leads both modes the same way. */
  lemma RoundWhite(illegalPads: bool, s: string, q: Quantum, p: Quantum)
    requires s != "" && |q.values| < 4 && SameSoFar(q, p)
    ensures IsWhite(s[0]) ==> Round(White, illegalPads, s, q) == Some(q) && Black(s) == Black(s[1..])
    ensures !IsWhite(s[0]) ==> Black(s) != "" && Black(s) == [s[0]] + Black(s[1..]) && |p.values| < 4
    ensures !IsWhite(s[0]) ==>
      match Round(White, illegalPads, s, q)
      case None => Round(Strict, illegalPads, Black(s), p) == None
      case Some(next) =>
        Round(Strict, illegalPads, Black(s), p).Some? && SameSoFar(next, Round(Strict, illegalPads, Black(s), p).value)
  {
    hide Code;
    WhiteCode(s[0]);
  }

  /** Whole groups of four and white space behind them. */
  ghost predicate WhiteEnd(s: string) {
    s != "" && IsWhite(s[|s| - 1]) && Front(Black(s)) == |Black(s)| && |Black(s)| % 4 == 0
  }

  /**
   The white mode decodes as the strict one does without the white space; only if pads are wanted, it also refuses white
   space behind a text that needs none.
   */
  lemma {:induction false} WhiteIs(flags: Flags, s: string)
    requires flags.parse == White
    ensures var d, e := Decode(flags, s), Decode(flags.(parse := Strict), Black(s));
      && d.bytes == e.bytes && Black(d.rest) == e.rest
      && (d.success <==> e.success && !(flags.pads == PadYes && WhiteEnd(s)))
    decreases |s|
  {
    hide Decode, Scan, Front, Black, WhiteEnd, Abreast, After, Padded;
    var strict, b, illegalPads := flags.(parse := Strict), Black(s), flags.pads == PadNo;
    DecodeNothing(flags);
    DecodeNothing(strict);
    if s == "" {
      assert !WhiteEnd(s) && b == "" by { EmptyIsBlack(); }
    } else {
      var q, p := Next(flags, s), Next(strict, b);
      ScanWhite(illegalPads, s, NoQuantum, NoQuantum);
      DecodeOnce(flags, s);
      AbreastAtEnd(s, q, p);
      if b == "" {
        ScanStops(Strict, illegalPads, b, NoQuantum);
        AllWhite(s);
        NothingLeft();
      } else {
        DecodeOnce(strict, b);
        FourInFront(strict, b);
        if |q.values| == 4 {
          WhiteIs(flags, q.rest);
          WhiteEndLater(s, q.rest);
        } else {
          NotWhiteEnd(s);
        }
      }
    }
  }

  lemma EmptyIsBlack()
    ensures Black("") == "" && !WhiteEnd("")
  {
  }

  lemma NotWhiteEnd(s: string)
    requires Black(s) != "" && Front(Black(s)) < 4
    ensures !WhiteEnd(s)
  {
  }

  lemma AbreastAtEnd(s: string, q: Quantum, p: Quantum)
    requires Abreast(s, NoQuantum, q, p) && (|q.values| == 4 ==> q.pads == 0)
    ensures q.values == p.values && q.pads == p.pads && Black(q.rest) == p.rest && Padded(q) == Padded(p)
    ensures Black(After(q)) == After(p)
    ensures |q.values| < 4 ==> (After(q) == "" <==> After(p) == "")
    ensures q.rest != "" ==> s != "" && q.rest[|q.rest| - 1] == s[|s| - 1]
    ensures |q.values| == 4 ==> After(q) == q.rest && (q.rest == "" ==> s != "" && !IsWhite(s[|s| - 1]))
  {
    if After(q) != "" && |q.values| < 4 {
      assert !IsWhite(After(q)[0]);
    }
  }

  /** For instance a line feed behind three bytes, although one behind a single byte is taken. */
  lemma WhiteRefused()
    ensures var flags := Flags(White, PadYes, TermBuffer);
      && Decode(flags, "TWFu").success && !Decode(flags, "TWFu\n").success
      && Decode(flags, "TQ==").success && Decode(flags, "TQ==\n").success
  {
    hide Decode, Code, Front, FrontValues, Black, WhiteEnd, Leftover, Bytes, Closed;
    var flags := Flags(White, PadYes, TermBuffer);
    WhiteIs(flags, "TWFu");
    WhiteIs(flags, "TWFu\n");
    WhiteIs(flags, "TQ==");
    WhiteIs(flags, "TQ==\n");
    StrictIs(DO_STRICT, "TWFu");
    StrictIs(DO_STRICT, "TQ==");
    FullExample();
    PadExample();
  }

  lemma FullExample()
    ensures Black("TWFu") == "TWFu" && Black("TWFu\n") == "TWFu" && Front("TWFu") == 4
    ensures !WhiteEnd("TWFu") && WhiteEnd("TWFu\n") && Leftover(FrontValues("TWFu")) == 0
    ensures !Closed(PadYes, "TWFu") && Used(PadYes, "TWFu") == 4
  {
    hide Values, Bits;
    FourInAlphabet();
    FourBlack();
    assert |FrontValues("TWFu")| == 4;
  }

  lemma FourInAlphabet()
    ensures Front("TWFu") == 4
  {
    assert "TWFu"[1..] == "WFu" && "WFu"[1..] == "Fu" && "Fu"[1..] == "u" && "u"[1..] == "";
    assert Front("u") == 1 && Front("Fu") == 2 && Front("WFu") == 3;
  }

  lemma FourBlack()
    ensures Black("TWFu") == "TWFu" && Black("TWFu\n") == "TWFu"
  {
    assert "TWFu"[1..] == "WFu" && "WFu"[1..] == "Fu" && "Fu"[1..] == "u" && "u"[1..] == "";
    assert "TWFu\n"[1..] == "WFu\n" && "WFu\n"[1..] == "Fu\n" && "Fu\n"[1..] == "u\n" && "u\n"[1..] == "\n";
    assert "\n"[1..] == "";
    assert Black("u") == "u" && Black("Fu") == "Fu" && Black("WFu") == "WFu";
    assert Black("\n") == "" && Black("u\n") == "u" && Black("Fu\n") == "Fu" && Black("WFu\n") == "WFu";
  }

  lemma PadExample()
    ensures Black("TQ==") == "TQ==" && Black("TQ==\n") == "TQ==" && Front("TQ==") == 2
    ensures !WhiteEnd("TQ==") && !WhiteEnd("TQ==\n") && Leftover(FrontValues("TQ==")) == 0
    ensures Closed(PadYes, "TQ==") && Used(PadYes, "TQ==") == 4
  {
    hide FrontValues, Front, Black, Leftover;
    TwoInAlphabet();
    PadsBlack();
    NothingOver();
  }

  lemma NothingOver()
    ensures Leftover(FrontValues("TQ==")) == 0
  {
    TwoInAlphabet();
    hide Front, Code;
    var v := FrontValues("TQ==");
    assert v[1] == 16 by { QIsSixteen(); }
    assert Bits(v) == v[0] as int * 64 + 16;
    TwoAre(v[0], 16);
  }

  lemma QIsSixteen()
    ensures Code('Q') == 16
  {
  }

  lemma TwoInAlphabet()
    ensures Front("TQ==") == 2
  {
    assert "TQ=="[1..] == "Q==" && "Q=="[1..] == "==";
    assert Front("==") == 0 && Front("Q==") == 1;
  }

  lemma PadsBlack()
    ensures Black("TQ==") == "TQ==" && Black("TQ==\n") == "TQ=="
  {
    assert "TQ=="[1..] == "Q==" && "Q=="[1..] == "==" && "=="[1..] == "=" && "="[1..] == "";
    assert "TQ==\n"[1..] == "Q==\n" && "Q==\n"[1..] == "==\n" && "==\n"[1..] == "=\n" && "=\n"[1..] == "\n";
    assert "\n"[1..] == "";
    assert Black("=") == "=" && Black("==") == "==" && Black("Q==") == "Q==";
    assert Black("\n") == "" && Black("=\n") == "=" && Black("==\n") == "==" && Black("Q==\n") == "Q==";
  }

  lemma NothingLeft()
    ensures Unused([]) == 0 && Whole([]) == []
    ensures !Padded(NoQuantum) && After(NoQuantum) == ""
  {
  }

  lemma AllWhite(s: string)
    requires s != "" && Black(s) == ""
    ensures WhiteEnd(s)
    decreases |s|
  {
    if |s| > 1 {
      AllWhite(s[1..]);
    }
  }

  /** The strict mode finds four values exactly where four characters of the alphabet stand in front. */
  lemma FourInFront(flags: Flags, s: string)
    requires flags.parse == Strict && s != ""
    ensures var q := Next(flags, s);
      && (|q.values| == 4 <==> Front(s) >= 4)
      && (Front(s) >= 4 ==> After(q) == s[4..] && Front(s[4..]) == Front(s) - 4)
  {
    hide Scan, Code, Char, Front, FrontValues;
    var v, illegalPads := FrontValues(s), flags.pads == PadNo;
    if Front(s) >= 4 {
      FrontStep(s);
      ScanChars(Strict, illegalPads, v[..4], s[4..], NoQuantum);
      assert NoQuantum.values + v[..4] == v[..4];
      ScanStops(Strict, illegalPads, s[4..], NoQuantum.(values := v[..4]));
    } else {
      FrontShort(s);
      ScanChars(Strict, illegalPads, v, s[Front(s)..], NoQuantum);
      assert NoQuantum.values + v == v;
      FrontEnds(s);
      StrictEnd(illegalPads, v, s[Front(s)..]);
    }
  }

  lemma WhiteEndLater(s: string, rest: string)
    requires s != "" && Front(Black(s)) >= 4 && Black(rest) == Black(s)[4..]
    requires Front(Black(s)[4..]) == Front(Black(s)) - 4
    requires rest != "" ==> rest[|rest| - 1] == s[|s| - 1]
    requires rest == "" ==> !IsWhite(s[|s| - 1])
    ensures WhiteEnd(s) <==> WhiteEnd(rest)
  {
    hide Front;
    assert |Black(s)| % 4 == (|Black(s)| - 4) % 4;
  }

  // ---------------------------------------------------------------- the lax mode

  lemma {:induction false} AlphabeticIs(s: string)
    ensures forall c <- Alphabetic(s) :: IsBase64Char(c)
  {
    if s != "" {
      AlphabeticIs(s[1..]);
    }
  }

  /** Characters of the alphabet are the same to all modes. */
  lemma {:induction false} ScanAlphabet(parse: Parse, illegalPads: bool, s: string, q: Quantum)
    requires |q.values| <= 4 && forall c <- s :: IsBase64Char(c)
    ensures Scan(parse, illegalPads, s, q.(pads := 0)) == Scan(Strict, illegalPads, s, q.(pads := 0))
    decreases |s|
  {
    hide Scan, Code;
    if |q.values| < 4 && s != "" {
      CharCode();
      ScanOnce(parse, illegalPads, s, q.(pads := 0));
      ScanOnce(Strict, illegalPads, s, q.(pads := 0));
      assert s[0] in s;
      ScanAlphabet(parse, illegalPads, s[1..], q.(values := q.values + [Code(s[0])]));
    } else {
      ScanStops(parse, illegalPads, s, q.(pads := 0));
      ScanStops(Strict, illegalPads, s, q.(pads := 0));
    }
  }

  lemma {:induction false} DecodeAlphabet(flags: Flags, s: string)
    requires forall c <- s :: IsBase64Char(c)
    ensures Decode(flags, s) == Decode(flags.(parse := Strict), s)
    decreases |s|
  {
    hide Scan, Decode, Whole, Unused, Front;
    var strict := flags.(parse := Strict);
    DecodeNothing(flags);
    DecodeNothing(strict);
    if s != "" {
      ScanAlphabet(flags.parse, flags.pads == PadNo, s, NoQuantum);
      DecodeOnce(flags, s);
      DecodeOnce(strict, s);
      FourInFront(strict, s);
      if Front(s) >= 4 {
        DecodeAlphabet(flags, s[4..]);
      }
    }
  }

  /** The lax modes find the bytes in the characters of the alphabet, wherever those stand. */
  lemma LaxIs(flags: Flags, s: string)
    requires flags.parse == Any
    ensures forall c <- Alphabetic(s) :: IsBase64Char(c)
    ensures var d, v := Decode(flags, s), Values(Alphabetic(s));
      && d.bytes == Bytes(v)
      && (flags.pads != PadYes && flags.term != TermBuffer ==>
            (d.success <==> flags.term == TermAny || Leftover(v) == 0))
  {
    hide Decode, Front, Bytes, Leftover, Values;
    var a := Alphabetic(s);
    AlphabeticIs(s);
    LaxIgnoresTheRest(flags, s);
    DecodeAlphabet(flags, a);
    StrictIs(flags.(parse := Strict), a);
    AllInFront(a);
  }

  lemma AllInFront(s: string)
    requires forall c <- s :: IsBase64Char(c)
    ensures Front(s) == |s| && FrontValues(s) == Values(s)
  {
    hide Values;
    assert forall i :: 0 <= i < |s| ==> IsBase64Char(s[i]);
    assert s[..|s|] == s;
  }
}
