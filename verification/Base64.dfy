/** Base64: the encoder, and the decoder under all its option flags. */
module Base64 {
  import opened Ascii

  type byte = b: int | 0 <= b < 256
  type sextet = n: int | 0 <= n < 64

  const PAD: char := '='

  // Entries of the decode table that are not the value of a character.
  const PADDING: nat := 0xFD
  const WHITESPACE: nat := 0xFE
  const ILLEGAL: nat := 0xFF

  /** The alphabet of section 4 of RFC 4648. */
  function Char(n: sextet): char {
    if n < 26 then ('A' as int + n) as char
    else if n < 52 then ('a' as int + (n - 26)) as char
    else if n < 62 then ('0' as int + (n - 52)) as char
    else if n == 62 then '+' else '/'
  }

  /** The decode table. */
  function Code(c: char): (n: nat)
    ensures n < 64 || n == PADDING || n == WHITESPACE || n == ILLEGAL
  {
    if 'A' <= c <= 'Z' then c as int - 'A' as int
    else if 'a' <= c <= 'z' then c as int - 'a' as int + 26
    else if '0' <= c <= '9' then c as int - '0' as int + 52
    else if c == '+' then 62
    else if c == '/' then 63
    else if c == PAD then PADDING
    else if c == ' ' || 9 <= c as int <= 13 then WHITESPACE
    else ILLEGAL
  }

  predicate IsBase64Char(c: char) {
    'A' <= c <= 'Z' || 'a' <= c <= 'z' || '0' <= c <= '9' || c == '+' || c == '/'
  }

  lemma CharCode()
    ensures forall n: sextet :: Code(Char(n)) == n
    ensures forall c :: Code(c) < 64 ==> Char(Code(c)) == c
    ensures forall c :: IsBase64Char(c) <==> Code(c) < 64
    ensures forall c :: Code(c) == PADDING <==> c == PAD
  {
  }

  // ---------------------------------------------------------------- encoding

  /** Section 4 of RFC 4648, three bytes at a time. */
  function Encode(data: seq<byte>): string {
    if data == [] then ""
    else if |data| == 1 then
      [Char(data[0] / 4), Char(data[0] % 4 * 16), PAD, PAD]
    else if |data| == 2 then
      [Char(data[0] / 4), Char(data[0] % 4 * 16 + data[1] / 16), Char(data[1] % 16 * 4), PAD]
    else
      [Char(data[0] / 4), Char(data[0] % 4 * 16 + data[1] / 16), Char(data[1] % 16 * 4 + data[2] / 64),
       Char(data[2] % 64)] + Encode(data[3..])
  }

  /** Masked shifts, and disjoint bits joined: (b << 4) & 0x3f and (b << 2) & 0x3f. */
  lemma ShiftAndMask(b: byte)
    ensures b * 16 % 64 == b % 4 * 16 && b * 4 % 64 == b % 16 * 4
  {
    LowBits(b / 4, b % 4 * 16);
    LowBits(b / 16, b % 16 * 4);
    assert b == b / 4 * 4 + b % 4 && b == b / 16 * 16 + b % 16;
  }

  lemma LowBits(high: nat, low: nat)
    requires low < 64
    ensures (high * 64 + low) % 64 == low
  {
  }

  /** What one round of the encoder appends for the bytes at the front. */
  function Group(data: seq<byte>): string
    requires data != []
  {
    [Char(data[0] / 4),
     Char(data[0] % 4 * 16 + if |data| > 1 then data[1] / 16 else 0),
     if |data| > 1 then Char(data[1] % 16 * 4 + if |data| > 2 then data[2] / 64 else 0) else PAD,
     if |data| > 2 then Char(data[2] % 64) else PAD]
  }

  lemma NextGroup(data: seq<byte>)
    requires data != []
    ensures Encode(data) == Group(data) + Encode(if |data| <= 3 then [] else data[3..])
  {
    assert |data| == 3 ==> data[3..] == [];
  }

  method EncodeFromArray(data: seq<byte>) returns (result: string)
    ensures result == Encode(data)
  {
    hide Encode, Char;
    result := "";
    var i := 0;
    assert data[0..] == data && "" + Encode(data) == Encode(data);
    while i < |data|
      invariant i <= |data|
      invariant result + Encode(data[i..]) == Encode(data)
    {
      ghost var rest, before := data[i..], result;
      NextGroup(rest);
      ShiftAndMask(data[i]);
      var c: int := data[i] / 4;
      result := result + [Char(c)];
      c := (data[i] as int) * 16 % 64;
      i := i + 1;
      if i < |data| {
        c := c + (data[i] as int) / 16;
      }
      result := result + [Char(c)];
      if i < |data| {
        ShiftAndMask(data[i]);
        c := (data[i] as int) * 4 % 64;
        i := i + 1;
        if i < |data| {
          c := c + (data[i] as int) / 64;
        }
        result := result + [Char(c)];
      } else {
        result := result + [PAD];
      }
      if i < |data| {
        c := data[i] % 64;
        result := result + [Char(c)];
        i := i + 1;
      } else {
        result := result + [PAD];
      }
      assert data[i..] == if |rest| <= 3 then [] else rest[3..];
      assert result == before + Group(rest);
      assert before + Group(rest) + Encode(data[i..]) == before + (Group(rest) + Encode(data[i..]));
    }
    EncodeNothing(data[i..]);
  }

  lemma EncodeNothing(data: seq<byte>)
    requires data == []
    ensures Encode(data) == "" && forall s: string :: s + Encode(data) == s
  {
  }

  // ---------------------------------------------------------------- decoding

  datatype Parse = Strict | White | Any
  datatype Pads = PadYes | PadAny | PadNo
  datatype Term = TermBuffer | TermChar | TermAny

  datatype Flags = Flags(parse: Parse, pads: Pads, term: Term)

  const DO_STRICT := Flags(Strict, PadYes, TermBuffer)
  const DO_LAX := Flags(Any, PadAny, TermChar)

  /** Up to four values, the pads behind them, what follows, and what follows when the pads are given back. */
  datatype Quantum = Quantum(values: seq<sextet>, pads: nat, rest: string, fromPad: string)

  /** One round of the loop of GetNextQuantum on the character in front; None where the loop stops. */
  function Round(parse: Parse, illegalPads: bool, s: string, q: Quantum): (next: Option<Quantum>)
    requires s != "" && |q.values| < 4
    ensures next.Some? ==> |q.values| <= |next.value.values| <= 4
    ensures next.Some? && |next.value.values| == 4 ==> next.value.pads == 0
  {
    var code := Code(s[0]);
    if code == ILLEGAL || (illegalPads && code == PADDING) then
      if parse == Any then Some(q) else None
    else if code == WHITESPACE then
      if parse != Strict then Some(q) else None
    else if code == PADDING then
      if |q.values| < 2 || |q.values| + q.pads >= 4 then
        if parse == Any then Some(q) else None
      else
        Some(q.(pads := q.pads + 1, fromPad := if q.pads == 0 then s else q.fromPad))
    else if q.pads > 0 && parse != Any then None
    else Some(q.(values := q.values + [code], pads := 0))
  }

  /** The whole loop; it stops at four values, at the end, or in front of what the mode forbids. */
  function Scan(parse: Parse, illegalPads: bool, s: string, q: Quantum): (r: Quantum)
    requires |q.values| <= 4
    ensures |q.values| <= |r.values| <= 4 && |r.rest| <= |s|
    ensures |r.values| > |q.values| ==> |r.rest| < |s|
    ensures |r.values| == 4 && |q.values| < 4 ==> r.pads == 0
    decreases |s|
  {
    if |q.values| == 4 || s == "" then q.(rest := s)
    else
      match Round(parse, illegalPads, s, q)
      case Some(next) => Scan(parse, illegalPads, s[1..], next)
      case None => q.(rest := s)
  }

  lemma ScanOnce(parse: Parse, illegalPads: bool, s: string, q: Quantum)
    requires s != "" && |q.values| < 4
    ensures var next := Round(parse, illegalPads, s, q);
      Scan(parse, illegalPads, s, q) ==
        if next.Some? then Scan(parse, illegalPads, s[1..], next.value) else q.(rest := s)
  {
  }

  lemma ScanStops(parse: Parse, illegalPads: bool, s: string, q: Quantum)
    requires |q.values| == 4 || (s == "" && |q.values| <= 4)
    ensures Scan(parse, illegalPads, s, q) == q.(rest := s)
  {
  }

  predicate Padded(q: Quantum) {
    |q.values| + q.pads == 4
  }

  /** What remains to be decoded: pads that do not fill up the quantum are given back. */
  function After(q: Quantum): string {
    if !Padded(q) && q.pads > 0 then q.fromPad else q.rest
  }

  const NoQuantum := Quantum([], 0, "", "")

  function Next(flags: Flags, s: string): (q: Quantum)
    ensures |q.values| <= 4
    ensures |q.values| == 4 ==> q.pads == 0 && |q.rest| < |s|
  {
    Scan(flags.parse, flags.pads == PadNo, s, NoQuantum)
  }

  /** The bytes that lie whole in up to four values. */
  function Whole(v: seq<sextet>): seq<byte>
    requires |v| <= 4
  {
    (if |v| >= 2 then [(v[0] as int) * 4 + (v[1] as int) / 16] else []) +
    (if |v| >= 3 then [(v[1] as int) % 16 * 16 + (v[2] as int) / 4] else []) +
    (if |v| >= 4 then [(v[2] as int) % 4 * 64 + (v[3] as int)] else [])
  }

  /** The bits that are left over. */
  function Unused(v: seq<sextet>): nat
    requires |v| <= 4
  {
    if |v| == 1 then (v[0] as int) * 4
    else if |v| == 2 then (v[1] as int) % 16 * 16
    else if |v| == 3 then (v[2] as int) % 4 * 64
    else 0
  }

  function Zeros(n: nat): seq<nat> {
    seq(n, _ => 0)
  }

  /** The first loop of GetNextQuantum. */
  method ReadQuantum(parse: Parse, illegalPads: bool, data: string, start: nat, qbuf: array<nat>)
    returns (byteLen: nat, dpos: nat, padLen: nat, padStart: nat, ghost q: Quantum)
    requires start <= |data| && qbuf.Length == 4
    modifies qbuf
    ensures byteLen == |q.values| <= 4 && padLen == q.pads && dpos <= |data|
    ensures forall i :: 0 <= i < byteLen ==> qbuf[i] == q.values[i]
    ensures padLen > 0 ==> padStart <= |data| && q.fromPad == data[padStart..]
    ensures q == Scan(parse, illegalPads, data[start..], NoQuantum) && q.rest == data[dpos..]
  {
    hide Scan, Code;
    byteLen, dpos, padLen, padStart, q := 0, start, 0, 0, NoQuantum;
    while byteLen < 4 && dpos < |data|
      invariant byteLen <= 4 && dpos <= |data|
      invariant byteLen == |q.values| && padLen == q.pads
      invariant forall i :: 0 <= i < byteLen ==> qbuf[i] == q.values[i]
      invariant padLen > 0 ==> padStart <= |data| && q.fromPad == data[padStart..]
      invariant Scan(parse, illegalPads, data[dpos..], q) == Scan(parse, illegalPads, data[start..], NoQuantum)
      decreases |data| - dpos
    {
      assert data[dpos..][0] == data[dpos] && data[dpos..][1..] == data[dpos + 1..];
      ScanOnce(parse, illegalPads, data[dpos..], q);
      qbuf[byteLen] := Code(data[dpos]);
      if qbuf[byteLen] == ILLEGAL || (illegalPads && qbuf[byteLen] == PADDING) {
        if parse != Any { break; }
      } else if qbuf[byteLen] == WHITESPACE {
        if parse == Strict { break; }
      } else if qbuf[byteLen] == PADDING {
        if byteLen < 2 {
          if parse != Any { break; }
        } else if byteLen + padLen >= 4 {
          if parse != Any { break; }
        } else {
          padLen := padLen + 1;
          if padLen == 1 {
            padStart := dpos;
          }
          q := q.(pads := padLen, fromPad := data[padStart..]);
        }
      } else {
        if padLen > 0 {
          if parse != Any { break; }
          padLen := 0;
        }
        q := q.(values := q.values + [qbuf[byteLen]], pads := 0);
        byteLen := byteLen + 1;
      }
      dpos := dpos + 1;
    }
    if byteLen == 4 || dpos == |data| {
      ScanStops(parse, illegalPads, data[dpos..], q);
    }
    q := q.(rest := data[dpos..]);
  }

  /** The last loop of GetNextQuantum. */
  method ZeroRest(qbuf: array<nat>, ghost values: seq<sextet>, byteLen: nat)
    requires qbuf.Length == 4 && byteLen == |values| <= 4
    requires forall i :: 0 <= i < byteLen ==> qbuf[i] == values[i]
    modifies qbuf
    ensures qbuf[..] == values + Zeros(4 - byteLen)
  {
    var i := byteLen;
    while i < 4
      invariant byteLen <= i <= 4
      invariant forall j :: 0 <= j < byteLen ==> qbuf[j] == values[j]
      invariant forall j :: byteLen <= j < i ==> qbuf[j] == 0
    {
      qbuf[i] := 0;
      i := i + 1;
    }
  }

  method GetNextQuantum(parse: Parse, illegalPads: bool, data: string, start: nat, qbuf: array<nat>)
    returns (byteLen: nat, dpos: nat, padded: bool, ghost q: Quantum)
    requires start <= |data| && qbuf.Length == 4
    modifies qbuf
    ensures q == Scan(parse, illegalPads, data[start..], NoQuantum)
    ensures byteLen == |q.values| && padded == Padded(q)
    ensures qbuf[..] == q.values + Zeros(4 - byteLen)
    ensures dpos <= |data| && data[dpos..] == After(q)
  {
    hide Scan;
    var padLen, padStart;
    byteLen, dpos, padLen, padStart, q := ReadQuantum(parse, illegalPads, data, start, qbuf);
    ZeroRest(qbuf, q.values, byteLen);
    padded := byteLen + padLen == 4;
    if !padded && padLen > 0 {
      dpos := padStart;
    }
  }

  /** The bytes, whether the input met the options, and what was not used of it. */
  datatype Decoded = Decoded(bytes: seq<byte>, success: bool, rest: string)

  function Decode(flags: Flags, s: string): Decoded
    decreases |s|
  {
    if s == "" then Decoded([], true, "")
    else
      var q := Next(flags, s);
      if |q.values| == 4 then
        var d := Decode(flags, After(q));
        d.(bytes := Whole(q.values) + d.bytes)
      else
        Decoded(Whole(q.values),
                && (flags.term != TermAny ==> Unused(q.values) == 0)
                && (flags.pads == PadYes ==> Padded(q))
                && (flags.term == TermBuffer ==> After(q) == ""),
                After(q))
  }

  lemma DecodeOnce(flags: Flags, s: string)
    requires s != ""
    ensures var q, d := Next(flags, s), Decode(flags, s);
      if |q.values| == 4 then
        var rest := Decode(flags, After(q)); |After(q)| < |s| && d == rest.(bytes := Whole(q.values) + rest.bytes)
      else
        && d.bytes == Whole(q.values) && d.rest == After(q)
        && (d.success <==> && (flags.term != TermAny ==> Unused(q.values) == 0)
                           && (flags.pads == PadYes ==> Padded(q))
                           && (flags.term == TermBuffer ==> After(q) == ""))
  {
  }

  lemma QuantumBytes(v: seq<sextet>, a: nat, b: nat, c: nat, d: nat)
    requires |v| <= 4 && [a, b, c, d] == v + Zeros(4 - |v|)
    ensures a < 64 && b < 64 && c < 64 && d < 64
    ensures
      var x, y, z := a * 4 + b / 16, b % 16 * 16 + c / 4, c % 4 * 64 + d;
      if |v| < 2 then Whole(v) == [] && Unused(v) == x
      else if |v| == 2 then Whole(v) == [x] && Unused(v) == y
      else if |v| == 3 then Whole(v) == [x, y] && Unused(v) == z
      else Whole(v) == [x, y, z]
  {
    var all := v + Zeros(4 - |v|);
    assert all[0] == a && all[1] == b && all[2] == c && all[3] == d;
  }

  lemma NextScans(flags: Flags, s: string)
    ensures Next(flags, s) == Scan(flags.parse, flags.pads == PadNo, s, NoQuantum)
  {
  }

  lemma DecodeNothing(flags: Flags)
    ensures Decode(flags, "") == Decoded([], true, "")
  {
  }

  /** The bytes of a quantum, and the bits left over. */
  method PushBytes(bytes: seq<byte>, qbuf: array<nat>, qlen: nat, ghost values: seq<sextet>)
    returns (result: seq<byte>, c: nat)
    requires qbuf.Length == 4 && qlen == |values| <= 4 && qbuf[..] == values + Zeros(4 - qlen)
    ensures result == bytes + Whole(values)
    ensures qlen < 4 ==> c == Unused(values)
  {
    hide Whole, Unused, Zeros;
    assert qbuf[..] == [qbuf[0], qbuf[1], qbuf[2], qbuf[3]];
    QuantumBytes(values, qbuf[0], qbuf[1], qbuf[2], qbuf[3]);
    result, c := bytes, qbuf[0] * 4 + qbuf[1] / 16;
    if qlen >= 2 {
      result := result + [c];
      c := qbuf[1] % 16 * 16 + qbuf[2] / 4;
      if qlen >= 3 {
        result := result + [c];
        c := qbuf[2] % 4 * 64 + qbuf[3];
        if qlen >= 4 {
          result := result + [c];
          c := 0;
        }
      }
    }
    assert bytes + [] == bytes;
  }

  method DecodeFromArray(data: string, flags: Flags) returns (result: seq<byte>, success: bool, dataUsed: nat)
    ensures dataUsed <= |data|
    ensures Decode(flags, data) == Decoded(result, success, data[dataUsed..])
  {
    hide Decode, Next, Scan, Padded, After, Whole, Unused, Zeros, Code;
    ghost var whole := Decode(flags, data);
    result, success := [], true;
    var dpos := 0;
    var qbuf := new nat[4];
    assert data[0..] == data;
    while dpos < |data|
      invariant dpos <= |data|
      invariant success
      invariant whole == (var d := Decode(flags, data[dpos..]); d.(bytes := result + d.bytes))
      decreases |data| - dpos
    {
      ghost var before, rest := result, data[dpos..];
      DecodeOnce(flags, rest);
      NextScans(flags, rest);
      var qlen, next, padded, q := GetNextQuantum(flags.parse, flags.pads == PadNo, data, dpos, qbuf);
      var c;
      result, c := PushBytes(result, qbuf, qlen, q.values);
      dpos := next;
      assert result + Decode(flags, After(q)).bytes == before + (Whole(q.values) + Decode(flags, After(q)).bytes);
      if qlen < 4 {
        if flags.term != TermAny && c != 0 {
          success := false;
        }
        if flags.pads == PadYes && !padded {
          success := false;
        }
        assert whole.bytes == result && whole.rest == data[dpos..];
        break;
      }
    }
    DecodeNothing(flags);
    assert data[dpos..] == "" <==> dpos == |data|;
    if flags.term == TermBuffer && dpos != |data| {
      success := false;
    }
    dataUsed := dpos;
  }

  // ---------------------------------------------------------------- theorems

  function Chars(v: seq<sextet>): string {
    if v == [] then "" else [Char(v[0])] + Chars(v[1..])
  }

  function Equals(n: nat): string {
    seq(n, _ => PAD)
  }

  /** The values that one round of the encoder writes. */
  function Sextets(data: seq<byte>): (v: seq<sextet>)
    requires 1 <= |data| <= 3
    ensures |v| == |data| + 1
  {
    [data[0] / 4, data[0] % 4 * 16 + if |data| > 1 then (data[1] as int) / 16 else 0] +
    (if |data| > 1 then [data[1] % 16 * 4 + if |data| > 2 then (data[2] as int) / 64 else 0] else []) +
    (if |data| > 2 then [data[2] % 64] else [])
  }

  lemma {:induction false} CharsAt(v: seq<sextet>)
    ensures |Chars(v)| == |v|
    ensures forall k :: 0 <= k < |v| ==> Chars(v)[k] == Char(v[k])
  {
    hide Char;
    if v != [] {
      CharsAt(v[1..]);
    }
  }

  lemma GroupIsChars(data: seq<byte>)
    requires 1 <= |data| <= 3
    ensures Group(data) == Chars(Sextets(data)) + Equals(3 - |data|)
  {
    hide Char, Chars;
    CharsAt(Sextets(data));
    var s := Chars(Sextets(data)) + Equals(3 - |data|);
    assert Group(data)[0] == s[0] && Group(data)[1] == s[1] && Group(data)[2] == s[2] && Group(data)[3] == s[3];
  }

  lemma SextetsWhole(data: seq<byte>)
    requires 1 <= |data| <= 3
    ensures Whole(Sextets(data)) == data && Unused(Sextets(data)) == 0
  {
  }

  lemma {:induction false} ScanChars(parse: Parse, illegalPads: bool, v: seq<sextet>, s: string, q: Quantum)
    requires |q.values| + |v| <= 4 && q.pads == 0
    ensures Scan(parse, illegalPads, Chars(v) + s, q) == Scan(parse, illegalPads, s, q.(values := q.values + v))
    decreases |v|
  {
    hide Code, Char, Scan;
    if v == [] {
      assert Chars(v) + s == s && q.values + v == q.values;
    } else {
      var all := Chars(v) + s;
      assert all[0] == Char(v[0]) && all[1..] == Chars(v[1..]) + s;
      assert Code(all[0]) == v[0] by { CharCode(); }
      ScanOnce(parse, illegalPads, all, q);
      var next := q.(values := q.values + [v[0]]);
      assert next.values + v[1..] == q.values + v;
      ScanChars(parse, illegalPads, v[1..], s, next);
    }
  }

  /** The pads behind two or three values, and nothing after them. */
  lemma ScanEquals(parse: Parse, illegalPads: bool, q: Quantum)
    requires 2 <= |q.values| < 4 && q.pads == 0
    ensures var n, r := 4 - |q.values|, Scan(parse, illegalPads, Equals(4 - |q.values|), q);
      && r.values == q.values
      && (!illegalPads ==> r.pads == n && r.rest == "")
      && (illegalPads ==> r.pads == 0 && r.rest == if parse == Any then "" else Equals(n))
  {
    var s := Equals(4 - |q.values|);
    ScanOnce(parse, illegalPads, s, q);
    var next := Round(parse, illegalPads, s, q);
    if |s| == 1 {
      assert s[1..] == "";
    } else if next.Some? {
      ScanOnce(parse, illegalPads, s[1..], next.value);
      assert s[1..][1..] == "";
    }
  }

  /** The one mode that refuses an encoding: pads are forbidden, not skipped, and must have been used. */
  predicate RefusesPads(flags: Flags) {
    flags.pads == PadNo && flags.parse != Any
  }

  lemma LastGroup(flags: Flags, data: seq<byte>)
    requires 1 <= |data| <= 2
    ensures var d := Decode(flags, Encode(data));
      && d.bytes == data
      && d.rest == (if RefusesPads(flags) then Equals(3 - |data|) else "")
      && (d.success <==> !(RefusesPads(flags) && flags.term == TermBuffer))
  {
    hide Encode, Scan, Decode, Sextets, Whole, Group, Chars;
    var v, s, illegalPads := Sextets(data), Encode(data), flags.pads == PadNo;
    NextGroup(data);
    GroupIsChars(data);
    SextetsWhole(data);
    EncodeNothing([]);
    assert s == Chars(v) + Equals(4 - |v|);
    ScanChars(flags.parse, illegalPads, v, Equals(4 - |v|), NoQuantum);
    assert NoQuantum.values + v == v;
    ScanEquals(flags.parse, illegalPads, NoQuantum.(values := v));
    assert s[|s| - 1] == Equals(4 - |v|)[3 - |v|];
    DecodeOnce(flags, s);
  }

  lemma SameGroup(data: seq<byte>)
    requires |data| >= 3
    ensures |Group(data)| == 4 && Group(data) == Group(data[..3])
  {
  }

  lemma FullGroup(flags: Flags, data: seq<byte>)
    requires |data| >= 3
    ensures Decode(flags, Encode(data)) ==
            (var d := Decode(flags, Encode(data[3..])); d.(bytes := data[..3] + d.bytes))
  {
    hide Encode, Scan, Decode, Sextets, Whole, Group, Chars;
    var v, rest, illegalPads := Sextets(data[..3]), Encode(data[3..]), flags.pads == PadNo;
    NextGroup(data);
    SameGroup(data);
    GroupIsChars(data[..3]);
    SextetsWhole(data[..3]);
    EncodeNothing([]);
    assert |data| == 3 ==> data[3..] == [];
    assert Equals(0) == "";
    assert Encode(data) == Chars(v) + rest;
    ScanChars(flags.parse, illegalPads, v, rest, NoQuantum);
    assert NoQuantum.values + v == v;
    ScanStops(flags.parse, illegalPads, rest, NoQuantum.(values := v));
    assert Encode(data) != "" by { SameGroup(data); }
    DecodeOnce(flags, Encode(data));
  }

  /**
   * Under every combination of the options the bytes of an encoding come back, and the decoder is content
   * unless it must use up pads that it may not read.
   */
  lemma {:induction false} RoundTrip(flags: Flags, data: seq<byte>)
    ensures var d, refused := Decode(flags, Encode(data)), RefusesPads(flags) && |data| % 3 != 0;
      && d.bytes == data
      && (d.rest == "" <==> !refused)
      && (d.success <==> !(refused && flags.term == TermBuffer))
    decreases |data|
  {
    hide Encode, Decode;
    if data == [] {
      EncodeNothing(data);
      DecodeNothing(flags);
    } else if |data| < 3 {
      LastGroup(flags, data);
      assert Equals(3 - |data|) != "";
    } else {
      FullGroup(flags, data);
      RoundTrip(flags, data[3..]);
      assert data == data[..3] + data[3..];
    }
  }

  // The converse for the strict mode.

  lemma StrictRound(s: string, q: Quantum)
    requires s != "" && |q.values| < 4 && Round(Strict, false, s, q).Some?
    ensures var code, next := Code(s[0]), Round(Strict, false, s, q).value;
      || (code == PADDING && s[0] == PAD && next.values == q.values && next.pads == q.pads + 1)
      || (code < 64 && s[0] == Char(code) && next.values == q.values + [code] && next.pads == q.pads == 0)
  {
    CharCode();
  }

  /** What was read, written out again. */
  function Written(q: Quantum, r: Quantum): string
    requires q.values <= r.values && q.pads <= r.pads
  {
    Chars(r.values[|q.values|..]) + Equals(r.pads - q.pads)
  }

  lemma NothingWritten(q: Quantum, r: Quantum)
    requires q.values == r.values && q.pads == r.pads
    ensures Written(q, r) == ""
  {
  }

  lemma PadWritten(q: Quantum, next: Quantum, r: Quantum)
    requires q.values == next.values == r.values && q.pads + 1 == next.pads <= r.pads
    ensures Written(q, r) == [PAD] + Written(next, r)
  {
    assert Equals(r.pads - q.pads) == [PAD] + Equals(r.pads - next.pads);
  }

  lemma CharWritten(q: Quantum, next: Quantum, r: Quantum, n: sextet)
    requires next.values == q.values + [n] <= r.values && q.pads == next.pads <= r.pads
    ensures Written(q, r) == [Char(n)] + Written(next, r)
  {
    hide Char;
    var more := r.values[|q.values|..];
    assert more[0] == n && more[1..] == r.values[|next.values|..];
  }

  lemma {:induction false} StrictShape(s: string, q: Quantum)
    requires |q.values| <= 4
    ensures var r := Scan(Strict, false, s, q);
      && q.values <= r.values && q.pads <= r.pads
      && s == Written(q, r) + r.rest
      && (q.pads > 0 ==> r.values == q.values)
    decreases |s|
  {
    hide Code, Char, Scan, Round, Written;
    var r := Scan(Strict, false, s, q);
    if |q.values| == 4 || s == "" {
      ScanStops(Strict, false, s, q);
      NothingWritten(q, r);
    } else {
      ScanOnce(Strict, false, s, q);
      if Round(Strict, false, s, q).Some? {
        var next := Round(Strict, false, s, q).value;
        StrictRound(s, q);
        StrictShape(s[1..], next);
        assert s == [s[0]] + s[1..];
        if next.values == q.values {
          PadWritten(q, next, r);
        } else {
          CharWritten(q, next, r, Code(s[0]));
        }
      } else {
        NothingWritten(q, r);
      }
    }
  }

  /** Values whose left-over bits are zero are those the encoder writes for their bytes. */
  lemma SextetsOfWhole(v: seq<sextet>)
    requires 2 <= |v| <= 4 && Unused(v) == 0
    ensures |Whole(v)| == |v| - 1 && Sextets(Whole(v)) == v
  {
  }

  lemma EncodeWhole(v: seq<sextet>, data: seq<byte>)
    requires 2 <= |v| <= 4 && Unused(v) == 0 && (|v| < 4 ==> data == [])
    ensures Encode(Whole(v) + data) == Chars(v) + Equals(4 - |v|) + Encode(data)
  {
    hide Encode, Sextets, Whole, Unused, Chars, Char;
    var w := Whole(v);
    SextetsOfWhole(v);
    GroupIsChars(w);
    NextGroup(w + data);
    EncodeNothing([]);
    assert Group(w + data) == Group(w);
    if |v| == 4 {
      assert |w + data| > 3 ==> (w + data)[3..] == data;
      assert Equals(0) == "";
      assert |w + data| <= 3 ==> data == [];
    }
  }

  /** The strict mode accepts exactly the encodings. */
  lemma {:induction false} StrictIsCanonical(s: string)
    ensures Decode(DO_STRICT, s).success <==> s == Encode(Decode(DO_STRICT, s).bytes)
    ensures Decode(DO_STRICT, s).success <==> exists data: seq<byte> :: s == Encode(data)
    decreases |s|
  {
    hide Encode, Decode;
    forall data: seq<byte> | s == Encode(data) ensures Decode(DO_STRICT, s).success {
      RoundTrip(DO_STRICT, data);
    }
    if Decode(DO_STRICT, s).success {
      AcceptedIsEncoding(s);
    }
  }

  lemma NoEquals()
    ensures Equals(0) == ""
  {
  }

  lemma {:induction false} AcceptedIsEncoding(s: string)
    requires Decode(DO_STRICT, s).success
    ensures s == Encode(Decode(DO_STRICT, s).bytes)
    decreases |s|
  {
    hide Encode, Scan, Decode, Whole, Chars, Equals;
    EncodeNothing([]);
    NoEquals();
    if s == "" {
      DecodeNothing(DO_STRICT);
    } else {
      var q := Next(DO_STRICT, s);
      StrictShape(s, NoQuantum);
      DecodeOnce(DO_STRICT, s);
      assert q.values[0..] == q.values;
      assert |q.values| == 4 ==> Unused(q.values) == 0;
      if |q.values| == 4 {
        AcceptedIsEncoding(q.rest);
        EncodeWhole(q.values, Decode(DO_STRICT, q.rest).bytes);
      } else {
        assert |q.values| >= 2 by { PadsNeedTwo(Strict, false, s, NoQuantum); }
        EncodeWhole(q.values, []);
        assert Whole(q.values) + [] == Whole(q.values);
      }
    }
  }

  lemma {:induction false} PadsNeedTwo(parse: Parse, illegalPads: bool, s: string, q: Quantum)
    requires |q.values| <= 4 && (q.pads > 0 ==> |q.values| >= 2 && |q.values| + q.pads <= 4)
    ensures var r := Scan(parse, illegalPads, s, q); r.pads > 0 ==> |r.values| >= 2 && |r.values| + r.pads <= 4
    decreases |s|
  {
    hide Code, Scan;
    if |q.values| == 4 || s == "" {
      ScanStops(parse, illegalPads, s, q);
    } else {
      ScanOnce(parse, illegalPads, s, q);
      var next := Round(parse, illegalPads, s, q);
      if next.Some? {
        PadsNeedTwo(parse, illegalPads, s[1..], next.value);
      }
    }
  }

  // The lax mode.

  /** The characters of the alphabet, in order. */
  function Alphabetic(s: string): string {
    if s == "" then "" else (if IsBase64Char(s[0]) then [s[0]] else "") + Alphabetic(s[1..])
  }

  lemma {:induction false} ScanAny(illegalPads: bool, s: string, q: Quantum, p: Quantum)
    requires |q.values| <= 4 && q.values == p.values
    ensures var r, t := Scan(Any, illegalPads, s, q), Scan(Any, illegalPads, Alphabetic(s), p);
      && r.values == t.values
      && Alphabetic(r.rest) == t.rest
      && (|r.values| < 4 ==> r.rest == "")
    decreases |s|
  {
    hide Code, Scan;
    var a := Alphabetic(s);
    if |q.values| == 4 || s == "" {
      ScanStops(Any, illegalPads, s, q);
      ScanStops(Any, illegalPads, a, p);
    } else {
      assert Code(s[0]) < 64 <==> IsBase64Char(s[0]) by { CharCode(); }
      ScanOnce(Any, illegalPads, s, q);
      var next := Round(Any, illegalPads, s, q).value;
      if Code(s[0]) < 64 {
        assert a[0] == s[0] && a[1..] == Alphabetic(s[1..]);
        ScanOnce(Any, illegalPads, a, p);
        ScanAny(illegalPads, s[1..], next, Round(Any, illegalPads, a, p).value);
      } else {
        assert a == Alphabetic(s[1..]);
        ScanAny(illegalPads, s[1..], next, p);
      }
    }
  }

  /**
   * When every character is parsed, the bytes depend on the characters of the alphabet alone; and so does the verdict
   * if pads are not required and the buffer need not be used up, as under DO_LAX.
   */
  lemma {:induction false} LaxIgnoresTheRest(flags: Flags, s: string)
    requires flags.parse == Any
    ensures var d, a := Decode(flags, s), Decode(flags, Alphabetic(s));
      d.bytes == a.bytes && (flags.pads != PadYes && flags.term != TermBuffer ==> d.success == a.success)
    decreases |s|
  {
    hide Scan, Decode;
    if s != "" {
      var q, a := Next(flags, s), Alphabetic(s);
      ScanAny(flags.pads == PadNo, s, NoQuantum, NoQuantum);
      DecodeOnce(flags, s);
      DecodeNothing(flags);
      if a != "" {
        DecodeOnce(flags, a);
      } else {
        ScanStops(Any, flags.pads == PadNo, a, NoQuantum);
      }
      if |q.values| == 4 {
        LaxIgnoresTheRest(flags, q.rest);
      }
    }
  }

  /** So anything but the alphabet may be strewn over an encoding. */
  lemma LaxRecovers(data: seq<byte>, s: string)
    requires Alphabetic(s) == Alphabetic(Encode(data))
    ensures Decode(DO_LAX, s).bytes == data && Decode(DO_LAX, s).success
  {
    LaxIgnoresTheRest(DO_LAX, s);
    LaxIgnoresTheRest(DO_LAX, Encode(data));
    RoundTrip(DO_LAX, data);
  }

  // The reference of section 4 of RFC 4648: groups of 24 bits, and the alphabet written out.

  const UPPER: string := "ABCDEFGHIJKLMNOPQRSTUVWXYZ"
  const LOWER: string := "abcdefghijklmnopqrstuvwxyz"
  const OTHERS: string := "0123456789+/"
  const ALPHABET: string := UPPER + LOWER + OTHERS

  function Letter(n: sextet): char {
    assert |ALPHABET| == 64;
    ALPHABET[n]
  }

  /** The 24 bits of up to three bytes, zeros at the end. */
  function Bits(data: seq<byte>): (n: nat)
    ensures n < 0x100_0000
  {
    (if |data| > 0 then data[0] as int * 0x1_0000 else 0) + (if |data| > 1 then data[1] as int * 0x100 else 0) +
    if |data| > 2 then data[2] as int else 0
  }

  /** Four characters for 24 bits, of which those without any bits of the data are pads. */
  function Reference(data: seq<byte>): string {
    if data == [] then ""
    else
      Four(Bits(data), |data|) + if |data| > 3 then Reference(data[3..]) else ""
  }

  function Four(n: nat, length: nat): string
    requires n < 0x100_0000
  {
    [Letter(n / 0x4_0000), Letter(n / 0x1000 % 64), if length > 1 then Letter(n / 64 % 64) else '=',
     if length > 2 then Letter(n % 64) else '=']
  }

  lemma CharIsInAlphabet(n: sextet)
    ensures Char(n) == Letter(n)
  {
    if n < 26 {
      assert UPPER[n] == ('A' as int + n) as char;
    } else if n < 52 {
      assert LOWER[n - 26] == ('a' as int + (n - 26)) as char;
      assert ALPHABET[n] == (UPPER + LOWER)[n] == LOWER[n - 26];
    } else {
      assert ALPHABET[n] == OTHERS[n - 52];
    }
  }

  lemma BitsAre(a: byte, b: byte, c: byte)
    ensures var n := a as int * 0x1_0000 + b as int * 0x100 + c as int;
      && n / 0x4_0000 == a as int / 4 && n / 0x1000 % 64 == a as int % 4 * 16 + b as int / 16
      && n / 64 % 64 == b as int % 16 * 4 + c as int / 64 && n % 64 == c as int % 64
  {
    var n := a as int * 0x1_0000 + b as int * 0x100 + c as int;
    assert n == (a as int / 4) * 0x4_0000 + (a as int % 4 * 0x1_0000 + b as int * 0x100 + c as int);
    assert n / 0x1000 == (a as int / 4) * 64 + (a as int % 4 * 16 + b as int / 16);
    assert n / 64 == (a as int * 16 + b as int / 16) * 64 + (b as int % 16 * 4 + c as int / 64);
    LowBits(a / 4, a % 4 * 16 + (b as int) / 16);
    LowBits(a * 16 + (b as int) / 16, b % 16 * 4 + (c as int) / 64);
  }

  /** The code that the loop computes is that of the reference. */
  lemma {:induction false} EncodeIsReference(data: seq<byte>)
    ensures Encode(data) == Reference(data)
    decreases |data|
  {
    hide Encode, Char;
    EncodeNothing([]);
    if data != [] {
      NextGroup(data);
      GroupIs(data);
      if |data| > 3 {
        EncodeIsReference(data[3..]);
      } else {
        assert Group(data) + "" == Group(data);
      }
    }
  }

  lemma GroupIs(data: seq<byte>)
    requires data != []
    ensures Group(data) == Four(Bits(data), |data|)
  {
    var a, b, c := data[0], if |data| > 1 then data[1] else 0, if |data| > 2 then data[2] else 0;
    assert Bits(data) == a as int * 0x1_0000 + b as int * 0x100 + c as int;
    hide Char, Letter, Bits, Group, Four;
    BitsAre(a, b, c);
    var w, x, y, z := a / 4, a % 4 * 16 + b as int / 16, b % 16 * 4 + c as int / 64, c % 64;
    FourIs(Bits(data), |data|, w, x, y, z);
    CharsAre(data, w, x, y, z);
  }

  function Letters(w: sextet, x: sextet, y: sextet, z: sextet, length: nat): string {
    [Letter(w), Letter(x), if length > 1 then Letter(y) else '=', if length > 2 then Letter(z) else '=']
  }

  lemma FourIs(n: nat, length: nat, w: sextet, x: sextet, y: sextet, z: sextet)
    requires n < 0x100_0000
    requires w == n / 0x4_0000 && x == n / 0x1000 % 64 && y == n / 64 % 64 && z == n % 64
    ensures Four(n, length) == Letters(w, x, y, z, length)
  {
    hide Letter;
  }

  lemma CharsAre(data: seq<byte>, w: sextet, x: sextet, y: sextet, z: sextet)
    requires data != [] && w == data[0] / 4
    requires x == data[0] % 4 * 16 + if |data| > 1 then data[1] as int / 16 else 0
    requires |data| > 1 ==> y == data[1] % 16 * 4 + if |data| > 2 then data[2] as int / 64 else 0
    requires |data| > 2 ==> z == data[2] % 64
    ensures Group(data) == Letters(w, x, y, z, |data|)
  {
    CharIsInAlphabet(w);
    CharIsInAlphabet(x);
    CharIsInAlphabet(y);
    CharIsInAlphabet(z);
    hide Letter, Char;
    assert Group(data)[0] == Char(w) && Group(data)[1] == Char(x);
    assert |data| > 1 ==> Group(data)[2] == Char(y);
    assert |data| > 2 ==> Group(data)[3] == Char(z);
  }
}
