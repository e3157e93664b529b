/** Integers as bytes in memory, in either byte order and on either kind of host. */
module ByteOrder {

  type byte = b: int | 0 <= b < 256

  /** The number of values of n bytes. */
  function Range(n: nat): (r: nat)
    ensures r > 0
  {
    if n == 0 then 1 else 256 * Range(n - 1)
  }

  function LE(v: nat, n: nat): (s: seq<byte>)
    ensures |s| == n
  {
    if n == 0 then [] else [v % 256] + LE(v / 256, n - 1)
  }

  function FromLE(s: seq<byte>): (v: nat)
    ensures v < Range(|s|)
  {
    if s == [] then 0 else s[0] + 256 * FromLE(s[1..])
  }

  function Reverse(s: seq<byte>): (r: seq<byte>)
    ensures |r| == |s| && forall i :: 0 <= i < |s| ==> r[i] == s[|s| - 1 - i]
  {
    seq(|s|, i requires 0 <= i < |s| => s[|s| - 1 - i])
  }

  function BE(v: nat, n: nat): (s: seq<byte>)
    ensures |s| == n
  {
    Reverse(LE(v, n))
  }

  function FromBE(s: seq<byte>): (v: nat)
    ensures v < Range(|s|)
  {
    FromLE(Reverse(s))
  }

  lemma {:induction false} FromLEOfLE(v: nat, n: nat)
    requires v < Range(n)
    ensures FromLE(LE(v, n)) == v
    decreases n
  {
    if n != 0 {
      FromLEOfLE(v / 256, n - 1);
      assert LE(v, n)[1..] == LE(v / 256, n - 1);
    }
  }

  lemma {:induction false} LEOfFromLE(s: seq<byte>)
    ensures LE(FromLE(s), |s|) == s
    decreases |s|
  {
    if s != [] {
      var v := FromLE(s);
      LEOfFromLE(s[1..]);
      assert v % 256 == s[0] && v / 256 == FromLE(s[1..]);
      assert s == [s[0]] + s[1..];
    }
  }

  lemma ReverseTwice(s: seq<byte>)
    ensures Reverse(Reverse(s)) == s
  {
  }

  lemma FromBEOfBE(v: nat, n: nat)
    requires v < Range(n)
    ensures FromBE(BE(v, n)) == v
  {
    ReverseTwice(LE(v, n));
    FromLEOfLE(v, n);
  }

  // ---------------------------------------------------------------- byteorder.h

  function SetBE32(v: nat): seq<byte> {
    [v / 0x100_0000 % 256, v / 0x1_0000 % 256, v / 0x100 % 256, v % 256]
  }

  function SetLE32(v: nat): seq<byte> {
    [v % 256, v / 0x100 % 256, v / 0x1_0000 % 256, v / 0x100_0000 % 256]
  }

  function GetBE32(m: seq<byte>): nat
    requires |m| == 4
  {
    m[0] as int * 0x100_0000 + m[1] as int * 0x1_0000 + m[2] as int * 0x100 + m[3] as int
  }

  function GetBE64(m: seq<byte>): nat
    requires |m| == 8
  {
    GetBE32(m[..4]) * 0x1_0000_0000 + GetBE32(m[4..])
  }

  lemma LE4(v: nat)
    ensures LE(v, 4) == SetLE32(v)
  {
    var a := v / 256;
    var b := a / 256;
    var c := b / 256;
    assert LE(c, 1) == [c % 256] + LE(c / 256, 0);
    assert LE(b, 2) == [b % 256] + LE(c, 1);
    assert LE(a, 3) == [a % 256] + LE(b, 2);
  }

  lemma BE4(v: nat)
    ensures BE(v, 4) == SetBE32(v)
  {
    LE4(v);
  }

  lemma FromBE4(m: seq<byte>)
    requires |m| == 4
    ensures FromBE(m) == GetBE32(m)
  {
    FromLE4(Reverse(m));
  }

  lemma FromLE4(m: seq<byte>)
    requires |m| == 4
    ensures FromLE(m) == m[0] as int + 256 * m[1] as int + 0x1_0000 * m[2] as int + 0x100_0000 * m[3] as int
  {
    assert m[1..][1..] == m[2..] && m[2..][1..] == m[3..] && m[3..][1..] == [];
    assert FromLE(m[3..]) == m[3];
    assert FromLE(m[2..]) == m[2] + 256 * FromLE(m[3..]);
    assert FromLE(m[1..]) == m[1] + 256 * FromLE(m[2..]);
  }

  lemma Regroup(r: nat, v: nat)
    ensures 256 * (r * v) == 256 * r * v
  {
  }

  lemma {:induction false} FromLEConcat(s: seq<byte>, t: seq<byte>)
    ensures FromLE(s + t) == FromLE(s) + Range(|s|) * FromLE(t)
    decreases |s|
  {
    if s == [] {
      assert s + t == t;
    } else {
      FromLEConcat(s[1..], t);
      assert (s + t)[1..] == s[1..] + t;
      Regroup(Range(|s| - 1), FromLE(t));
    }
  }

  lemma FromBE8(m: seq<byte>)
    requires |m| == 8
    ensures FromBE(m) == GetBE64(m)
  {
    assert Reverse(m) == Reverse(m[4..]) + Reverse(m[..4]);
    FromLEConcat(Reverse(m[4..]), Reverse(m[..4]));
    FromBE4(m[..4]);
    FromBE4(m[4..]);
    assert Range(4) == 256 * Range(3) && Range(3) == 256 * Range(2) && Range(2) == 256 * Range(1);
  }

  // ---------------------------------------------------------------- hosts

  /** The bytes in which the host keeps a number of n bytes. */
  function Memory(big: bool, v: nat, n: nat): (s: seq<byte>)
    ensures |s| == n
  {
    if big then BE(v, n) else LE(v, n)
  }

  function FromMemory(big: bool, s: seq<byte>): (v: nat)
    ensures v < Range(|s|)
  {
    if big then FromBE(s) else FromLE(s)
  }

  /** HostToNetwork and NetworkToHost of n bytes. */
  function Swap(big: bool, v: nat, n: nat): (r: nat)
    ensures v < Range(n) ==> r < Range(n)
  {
    if big then v else FromBE(Memory(big, v, n))
  }

  /** Whatever the host, a converted number lies in memory with its most significant byte first. */
  lemma NetworkImage(big: bool, v: nat, n: nat)
    ensures Memory(big, Swap(big, v, n), n) == BE(v, n)
  {
    LEOfFromLE(Reverse(LE(v, n)));
  }

  /** And such bytes, taken as a number of the host and converted, have the value they have on the wire. */
  lemma FromNetworkImage(big: bool, s: seq<byte>)
    ensures Swap(big, FromMemory(big, s), |s|) == FromBE(s)
  {
    LEOfFromLE(s);
  }

  lemma SwapTwice(big: bool, v: nat, n: nat)
    requires v < Range(n)
    ensures Swap(big, Swap(big, v, n), n) == v
  {
    NetworkImage(big, v, n);
    FromBEOfBE(v, n);
  }
}
