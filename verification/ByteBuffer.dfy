/** ByteBuffer: a queue of bytes in an array that is moved and replaced, read and written by type. */
module ByteBuffers {
  import opened Ascii
  import opened ByteOrder

  const DEFAULT_SIZE: nat := 4096

  datatype Order = Network | Host

  /** The n bytes that stand for a number in a buffer of this order on this kind of host. */
  function Wire(order: Order, big: bool, v: nat, n: nat): (s: seq<byte>)
    ensures |s| == n
  {
    if order == Network || big then BE(v, n) else LE(v, n)
  }

  function Unwire(order: Order, big: bool, s: seq<byte>): (v: nat)
    ensures v < Range(|s|)
  {
    if order == Network || big then FromBE(s) else FromLE(s)
  }

  /** Network order is most significant byte first on any host, and the order of the host is that of its memory. */
  lemma OrderIs(big: bool, v: nat, n: nat, s: seq<byte>)
    ensures Wire(Network, big, v, n) == BE(v, n) && Unwire(Network, big, s) == FromBE(s)
    ensures Wire(Host, big, v, n) == Memory(big, v, n) && Unwire(Host, big, s) == FromMemory(big, s)
  {
  }

  /** So on the wire 0x01020304 is 1, 2, 3, 4. */
  lemma NetworkExample(big: bool)
    ensures Wire(Network, big, 0x01020304, 4) == [1, 2, 3, 4]
    ensures Wire(Host, false, 0x01020304, 4) == [4, 3, 2, 1]
  {
    BE4(0x01020304);
    LE4(0x01020304);
  }

  lemma UnwireOfWire(order: Order, big: bool, v: nat, n: nat)
    requires v < Range(n)
    ensures Unwire(order, big, Wire(order, big, v, n)) == v
  {
    FromLEOfLE(v, n);
    FromBEOfBE(v, n);
  }

  lemma Ranges()
    ensures Range(1) == 0x100 && Range(2) == 0x1_0000 && Range(3) == 0x100_0000 && Range(4) == 0x1_0000_0000
  {
    assert Range(4) == 256 * Range(3) && Range(3) == 256 * Range(2) && Range(2) == 256 * Range(1);
  }

  /** Dropping the most significant of four bytes leaves the number modulo 2^24. */
  lemma ThreeOfFour(v: nat)
    requires v < Range(4)
    ensures LE(v, 4)[..3] == LE(v % 0x100_0000, 3) && BE(v, 4)[1..] == BE(v % 0x100_0000, 3)
  {
    hide LE, Range;
    var w, q := v % 0x100_0000, v / 0x100_0000;
    Ranges();
    FirstOfLE(v, 3);
    HighBits(w, q, 3);
    assert v == w + Range(3) * q;
    assert BE(v, 4)[1..] == Reverse(LE(v, 4)[..3]);
  }

  lemma {:induction false} HighBits(w: nat, q: nat, n: nat)
    ensures LE(w + Range(n) * q, n) == LE(w, n)
    decreases n
  {
    if n > 0 {
      Regroup(Range(n - 1), q);
      HighBits(w / 256, q, n - 1);
      LowByte(w, Range(n - 1) * q, n);
    }
  }

  lemma LowByte(w: nat, x: nat, n: nat)
    requires n > 0
    ensures LE(w + 256 * x, n) == [w % 256] + LE(w / 256 + x, n - 1)
  {
    assert (w + 256 * x) % 256 == w % 256 && (w + 256 * x) / 256 == w / 256 + x;
  }

  lemma {:induction false} FirstOfLE(v: nat, n: nat)
    ensures LE(v, n + 1)[..n] == LE(v, n)
    decreases n
  {
    if n > 0 {
      FirstOfLE(v / 256, n - 1);
      assert LE(v, n + 1) == [v % 256] + LE(v / 256, n);
    }
  }

  /** A zero where the fourth byte was read to, or left from, adds nothing. */
  lemma FourFromThree(s: seq<byte>)
    requires |s| == 3
    ensures FromLE(s + [0]) == FromLE(s) && FromBE([0] + s) == FromBE(s)
  {
    hide FromLE, FromBE, Range;
    Trailing(s);
    Leading(s);
  }

  lemma Leading(s: seq<byte>)
    ensures FromBE([0] + s) == FromBE(s)
  {
    hide FromLE, Range;
    Trailing(Reverse(s));
    var r := Reverse(s) + [0];
    assert |Reverse([0] + s)| == |r|;
    assert Reverse([0] + s) == r;
  }

  lemma Trailing(s: seq<byte>)
    ensures FromLE(s + [0]) == FromLE(s)
  {
    FromLEConcat(s, [0]);
    assert FromLE([0]) == 0;
  }

  class ByteBuffer {
    const order: Order
    /** Whether the host is big endian. */
    const big: bool
    var bytes: array<byte>
    var size: nat
    var start: nat
    var end: nat

    ghost predicate Valid()
      reads this
    {
      start <= end <= size == bytes.Length
    }

    /** The queue. */
    ghost function Contents(): (s: seq<byte>)
      requires Valid()
      reads this, bytes
      ensures |s| == end - start
    {
      bytes[start..end]
    }

    constructor (order: Order, big: bool)
      ensures Valid() && fresh(bytes) && this.order == order && this.big == big
      ensures Contents() == [] && size == DEFAULT_SIZE
    {
      this.order, this.big := order, big;
      start, end, size := 0, 0, DEFAULT_SIZE;
      bytes := new byte[DEFAULT_SIZE];
    }

    constructor Of(data: seq<byte>, order: Order, big: bool)
      ensures Valid() && fresh(bytes) && this.order == order && this.big == big
      ensures Contents() == data
    {
      this.order, this.big := order, big;
      start, end, size := 0, |data|, |data|;
      bytes := new byte[|data|](i requires 0 <= i < |data| => data[i]);
    }

    function Length(): nat
      requires Valid()
      reads this
    {
      end - start
    }

    function Capacity(): nat
      requires Valid()
      reads this
    {
      size - start
    }

    method Resize(wanted: nat)
      requires Valid()
      modifies this`bytes, this`size, this`start, this`end
      ensures Valid() && fresh(bytes) && start == 0
      ensures size == if old(size) < wanted < 3 * old(size) / 2 then 3 * old(size) / 2 else wanted
      ensures Contents() == old(if Length() <= wanted then Contents() else Contents()[..wanted])
    {
      var newSize := wanted;
      if newSize > size && newSize < 3 * size / 2 {
        newSize := 3 * size / 2;
      }
      var len := if end - start < newSize then end - start else newSize;
      var newBytes := new byte[newSize];
      forall i | 0 <= i < len {
        newBytes[i] := bytes[start + i];
      }
      start, end, size, bytes := 0, len, newSize, newBytes;
    }

    method WriteBytes(val: seq<byte>)
      requires Valid()
      modifies this`bytes, this`size, this`start, this`end, bytes
      ensures Valid() && (bytes == old(bytes) || fresh(bytes))
      ensures Contents() == old(Contents()) + val
    {
      if Length() + |val| > Capacity() {
        Resize(Length() + |val|);
      }
      ghost var before := Contents();
      forall i | 0 <= i < |val| {
        bytes[end + i] := val[i];
      }
      end := end + |val|;
      assert bytes[start..end] == before + val;
    }

    method ReadBytes(len: nat) returns (ok: bool, val: seq<byte>)
      requires Valid()
      modifies this`start
      ensures Valid()
      ensures ok == (len <= old(Length()))
      ensures ok ==> val == old(Contents())[..len] && Contents() == old(Contents())[len..]
      ensures !ok ==> start == old(start)
    {
      if len > Length() {
        return false, [];
      }
      ok, val := true, bytes[start..start + len];
      assert val == Contents()[..len];
      start := start + len;
    }

    /** Appends to what the caller has already. */
    method ReadString(into: seq<byte>, len: nat) returns (ok: bool, val: seq<byte>)
      requires Valid()
      modifies this`start
      ensures Valid()
      ensures ok == (len <= old(Length()))
      ensures ok ==> val == into + old(Contents())[..len] && Contents() == old(Contents())[len..]
      ensures !ok ==> start == old(start) && val == into
    {
      if len > Length() {
        return false, into;
      }
      assert bytes[start..start + len] == Contents()[..len];
      ok, val := true, into + bytes[start..start + len];
      start := start + len;
    }

    method Consume(n: nat) returns (ok: bool)
      requires Valid()
      modifies this`start
      ensures Valid()
      ensures ok == (n <= old(Length()))
      ensures Contents() == if ok then old(Contents())[n..] else old(Contents())
    {
      if n > Length() {
        return false;
      }
      start := start + n;
      return true;
    }

    method Shift(n: nat) returns (ok: bool)
      requires Valid()
      modifies this`start, this`end, bytes
      ensures Valid() && (ok ==> start == 0)
      ensures ok == (n <= old(Length()))
      ensures Contents() == if ok then old(Contents())[n..] else old(Contents())
    {
      if n > Length() {
        return false;
      }
      ghost var before := Contents();
      end := Length() - n;
      forall i | 0 <= i < end {
        bytes[i] := bytes[start + n + i];
      }
      start := 0;
      assert bytes[..end] == before[n..];
      return true;
    }

    // -------------------------------------------------------------- numbers

    method WriteUInt8(val: nat)
      requires Valid() && val < Range(1)
      modifies this`bytes, this`size, this`start, this`end, bytes
      ensures Valid() && (bytes == old(bytes) || fresh(bytes))
      ensures Contents() == old(Contents()) + Wire(order, big, val, 1)
    {
      OneByte(val);
      WriteBytes(Memory(big, val, 1));
    }

    method WriteUInt16(val: nat)
      requires Valid() && val < Range(2)
      modifies this`bytes, this`size, this`start, this`end, bytes
      ensures Valid() && (bytes == old(bytes) || fresh(bytes))
      ensures Contents() == old(Contents()) + Wire(order, big, val, 2)
    {
      NetworkImage(big, val, 2);
      var v := if order == Network then Swap(big, val, 2) else val;
      WriteBytes(Memory(big, v, 2));
    }

    /** The most significant byte of the argument is not written. */
    method WriteUInt24(val: nat)
      requires Valid() && val < Range(4)
      modifies this`bytes, this`size, this`start, this`end, bytes
      ensures Valid() && (bytes == old(bytes) || fresh(bytes))
      ensures Contents() == old(Contents()) + Wire(order, big, val % 0x100_0000, 3)
    {
      NetworkImage(big, val, 4);
      ThreeOfFour(val);
      var v := if order == Network then Swap(big, val, 4) else val;
      var from := if order == Network || big then 1 else 0;
      WriteBytes(Memory(big, v, 4)[from..from + 3]);
    }

    method WriteUInt32(val: nat)
      requires Valid() && val < Range(4)
      modifies this`bytes, this`size, this`start, this`end, bytes
      ensures Valid() && (bytes == old(bytes) || fresh(bytes))
      ensures Contents() == old(Contents()) + Wire(order, big, val, 4)
    {
      NetworkImage(big, val, 4);
      var v := if order == Network then Swap(big, val, 4) else val;
      WriteBytes(Memory(big, v, 4));
    }

    method WriteUInt64(val: nat)
      requires Valid() && val < Range(8)
      modifies this`bytes, this`size, this`start, this`end, bytes
      ensures Valid() && (bytes == old(bytes) || fresh(bytes))
      ensures Contents() == old(Contents()) + Wire(order, big, val, 8)
    {
      NetworkImage(big, val, 8);
      var v := if order == Network then Swap(big, val, 8) else val;
      WriteBytes(Memory(big, v, 8));
    }

    method ReadUInt8() returns (ok: bool, val: nat)
      requires Valid()
      modifies this`start
      ensures Valid() && ok == (1 <= old(Length()))
      ensures ok ==> val == Unwire(order, big, old(Contents())[..1]) && Contents() == old(Contents())[1..]
      ensures !ok ==> start == old(start)
    {
      var m;
      ok, m := ReadBytes(1);
      val := 0;
      if ok {
        val := FromMemory(big, m);
        OneByteBack(m);
      }
    }

    method ReadUInt16() returns (ok: bool, val: nat)
      requires Valid()
      modifies this`start
      ensures Valid() && ok == (2 <= old(Length()))
      ensures ok ==> val == Unwire(order, big, old(Contents())[..2]) && Contents() == old(Contents())[2..]
      ensures !ok ==> start == old(start)
    {
      var m;
      ok, m := ReadBytes(2);
      val := 0;
      if ok {
        var v := FromMemory(big, m);
        val := if order == Network then Swap(big, v, 2) else v;
        FromNetworkImage(big, m);
      }
    }

    /** Three bytes read into a zeroed number of four. */
    method ReadUInt24() returns (ok: bool, val: nat)
      requires Valid()
      modifies this`start
      ensures Valid() && ok == (3 <= old(Length()))
      ensures ok ==> val == Unwire(order, big, old(Contents())[..3]) && Contents() == old(Contents())[3..]
      ensures !ok ==> start == old(start)
    {
      var m;
      ok, m := ReadBytes(3);
      val := 0;
      if ok {
        FourFromThree(m);
        m := if order == Network || big then [0] + m else m + [0];
        var v := FromMemory(big, m);
        val := if order == Network then Swap(big, v, 4) else v;
        FromNetworkImage(big, m);
      }
    }

    method ReadUInt32() returns (ok: bool, val: nat)
      requires Valid()
      modifies this`start
      ensures Valid() && ok == (4 <= old(Length()))
      ensures ok ==> val == Unwire(order, big, old(Contents())[..4]) && Contents() == old(Contents())[4..]
      ensures !ok ==> start == old(start)
    {
      var m;
      ok, m := ReadBytes(4);
      val := 0;
      if ok {
        var v := FromMemory(big, m);
        val := if order == Network then Swap(big, v, 4) else v;
        FromNetworkImage(big, m);
      }
    }

    method ReadUInt64() returns (ok: bool, val: nat)
      requires Valid()
      modifies this`start
      ensures Valid() && ok == (8 <= old(Length()))
      ensures ok ==> val == Unwire(order, big, old(Contents())[..8]) && Contents() == old(Contents())[8..]
      ensures !ok ==> start == old(start)
    {
      var m;
      ok, m := ReadBytes(8);
      val := 0;
      if ok {
        var v := FromMemory(big, m);
        val := if order == Network then Swap(big, v, 8) else v;
        FromNetworkImage(big, m);
      }
    }
  }

  lemma OneByte(v: nat)
    ensures BE(v, 1) == LE(v, 1)
  {
  }

  lemma OneByteBack(s: seq<byte>)
    requires |s| == 1
    ensures FromBE(s) == FromLE(s)
  {
    assert Reverse(s) == s;
  }

  // ---------------------------------------------------------------- conversations

  datatype Kind = UInt8 | UInt16 | UInt24 | UInt32 | UInt64 | Characters(len: nat)

  datatype Item = Number(kind: Kind, value: nat) | Text(text: seq<byte>)

  function Width(kind: Kind): nat {
    match kind
    case UInt8 => 1
    case UInt16 => 2
    case UInt24 => 3
    case UInt32 => 4
    case UInt64 => 8
    case Characters(len) => len
  }

  function KindOf(item: Item): Kind {
    match item
    case Number(kind, _) => kind
    case Text(text) => Characters(|text|)
  }

  /** What the type of the argument of Write allows; WriteUInt24 takes 32 bits. */
  predicate Writable(item: Item) {
    item.Number? ==> !item.kind.Characters? && item.value < Range(if item.kind.UInt24? then 4 else Width(item.kind))
  }

  /** What arrives: of 24-bit numbers only 24 bits do. */
  function Kept(item: Item): Item {
    if item.Number? && item.kind.UInt24? then item.(value := item.value % 0x100_0000) else item
  }

  function KeptAll(items: seq<Item>): (r: seq<Item>)
    ensures |r| == |items| && forall i :: 0 <= i < |items| ==> r[i] == Kept(items[i])
  {
    seq(|items|, i requires 0 <= i < |items| => Kept(items[i]))
  }

  function Image(order: Order, big: bool, item: Item): seq<byte> {
    match item
    case Number(kind, value) => Wire(order, big, value, Width(kind))
    case Text(text) => text
  }

  function Images(order: Order, big: bool, items: seq<Item>): seq<byte> {
    if items == [] then [] else Image(order, big, items[0]) + Images(order, big, items[1..])
  }

  lemma {:induction false} ImagesAppend(order: Order, big: bool, items: seq<Item>, item: Item)
    ensures Images(order, big, items + [item]) == Images(order, big, items) + Image(order, big, item)
    decreases |items|
  {
    hide Image;
    if items == [] {
      assert (items + [item])[1..] == [];
    } else {
      ImagesAppend(order, big, items[1..], item);
      assert (items + [item])[1..] == items[1..] + [item];
    }
  }

  lemma ImagesFront(order: Order, big: bool, items: seq<Item>)
    ensures Images(order, big, []) == []
    ensures items != [] ==> Images(order, big, items) == Image(order, big, items[0]) + Images(order, big, items[1..])
  {
  }

  method WriteItem(b: ByteBuffer, item: Item)
    requires b.Valid() && Writable(item)
    modifies b`bytes, b`size, b`start, b`end, b.bytes
    ensures b.Valid() && (b.bytes == old(b.bytes) || fresh(b.bytes))
    ensures b.Contents() == old(b.Contents()) + Image(b.order, b.big, Kept(item))
  {
    hide Wire, Range;
    match item
    case Text(text) => b.WriteBytes(text);
    case Number(kind, value) =>
      match kind
      case UInt8 => b.WriteUInt8(value);
      case UInt16 => b.WriteUInt16(value);
      case UInt24 => b.WriteUInt24(value);
      case UInt32 => b.WriteUInt32(value);
      case UInt64 => b.WriteUInt64(value);
  }

  /** Reads by kind; `next` is what lies in front. */
  method ReadItem(b: ByteBuffer, kind: Kind, ghost next: Item, ghost rest: seq<byte>) returns (item: Item)
    requires b.Valid() && Writable(next) && Kept(next) == next && KindOf(next) == kind
    requires b.Contents() == Image(b.order, b.big, next) + rest
    modifies b`start
    ensures b.Valid()
    ensures item == next && b.Contents() == rest
  {
    hide Wire, Unwire, Range, Writable;
    var ok, v;
    assert |Image(b.order, b.big, next)| == Width(kind);
    assert b.Contents()[..Width(kind)] == Image(b.order, b.big, next) && b.Contents()[Width(kind)..] == rest;
    KeptFits(b.order, b.big, next);
    match kind {
      case Characters(len) =>
        var text;
        ok, text := b.ReadString([], len);
        assert text == Image(b.order, b.big, next) && next.Text?;
        return Text(text);
      case UInt8 => ok, v := b.ReadUInt8();
      case UInt16 => ok, v := b.ReadUInt16();
      case UInt24 => ok, v := b.ReadUInt24();
      case UInt32 => ok, v := b.ReadUInt32();
      case UInt64 => ok, v := b.ReadUInt64();
    }
    item := Number(kind, v);
  }

  lemma KeptFits(order: Order, big: bool, item: Item)
    requires Writable(item) && Kept(item) == item
    ensures item.Text? == KindOf(item).Characters?
    ensures item.Number? ==> Unwire(order, big, Image(order, big, item)) == item.value
  {
    Ranges();
    if item.Number? {
      UnwireOfWire(order, big, item.value, Width(item.kind));
    }
  }

  lemma KeptIsWritable(item: Item)
    requires Writable(item)
    ensures Writable(Kept(item)) && Kept(Kept(item)) == Kept(item)
  {
    Ranges();
  }

  /**
   Write and Read an item; drop the next item with Consume or with Shift; drop the last one with a Resize that has no
   room for it; make room; move to the front of the array.
   */
  datatype Step = Write(item: Item) | Read | Skip | ShiftOut | CutLast | Grow(room: nat) | Compact

  /** What has become of the items at the front: None for those that were dropped. */
  predicate Outcome(got: seq<Option<Item>>, items: seq<Item>) {
    |got| <= |items| && forall i :: 0 <= i < |got| ==> got[i] == None || got[i] == Some(Kept(items[i]))
  }

  /** Takes the next item out of the buffer, unread. */
  method DropItem(b: ByteBuffer, kind: Kind, shift: bool, ghost next: Item, ghost rest: seq<byte>)
    requires b.Valid() && KindOf(next) == kind && b.Contents() == Image(b.order, b.big, next) + rest
    modifies b`start, b`end, b.bytes
    ensures b.Valid() && b.Contents() == rest
  {
    hide Wire;
    assert |Image(b.order, b.big, next)| == Width(kind);
    assert b.Contents()[Width(kind)..] == rest;
    var ok;
    if shift {
      ok := b.Shift(Width(kind));
    } else {
      ok := b.Consume(Width(kind));
    }
  }

  /** Reads or drops the item number `k`, which lies in front. */
  method TakeNext(b: ByteBuffer, how: Step, sent: seq<Item>, k: nat) returns (item: Option<Item>)
    requires b.Valid() && k < |sent| && (forall i :: 0 <= i < |sent| ==> Writable(sent[i]))
    requires b.Contents() == Images(b.order, b.big, KeptAll(sent)[k..])
    modifies b`start, b`end, b.bytes
    ensures b.Valid() && item == if how == Read then Some(Kept(sent[k])) else None
    ensures b.Contents() == Images(b.order, b.big, KeptAll(sent)[k + 1..])
  {
    hide Writable, Image, Images, Kept, Range, KindOf;
    ghost var pending := KeptAll(sent)[k..];
    ghost var rest := Images(b.order, b.big, pending[1..]);
    ImagesFront(b.order, b.big, pending);
    KeptIsWritable(sent[k]);
    assert pending[0] == Kept(sent[k]) && pending[1..] == KeptAll(sent)[k + 1..];
    var kind := KindOf(Kept(sent[k]));
    item := None;
    if how == Read {
      var read := ReadItem(b, kind, pending[0], rest);
      item := Some(read);
    } else {
      DropItem(b, kind, how == ShiftOut, pending[0], rest);
    }
  }

  /** Makes the buffer too small for the last item. */
  method CutItem(b: ByteBuffer, sent: seq<Item>, k: nat)
    requires b.Valid() && k < |sent| && b.Contents() == Images(b.order, b.big, KeptAll(sent)[k..])
    modifies b`bytes, b`size, b`start, b`end
    ensures b.Valid() && fresh(b.bytes)
    ensures b.Contents() == Images(b.order, b.big, KeptAll(sent[..|sent| - 1])[k..])
  {
    hide Wire, Images, Kept;
    ghost var last, front := Kept(sent[|sent| - 1]), KeptAll(sent[..|sent| - 1])[k..];
    assert KeptAll(sent)[k..] == front + [last];
    ImagesAppend(b.order, b.big, front, last);
    ghost var kept := Images(b.order, b.big, front);
    var width := Width(KindOf(Kept(sent[|sent| - 1])));
    assert |Image(b.order, b.big, last)| == width;
    assert b.Contents()[..|kept|] == kept;
    b.Resize(b.Length() - width);
  }

  method PutItem(b: ByteBuffer, item: Item, ghost sent: seq<Item>, ghost k: nat)
    requires b.Valid() && Writable(item) && k <= |sent|
    requires b.Contents() == Images(b.order, b.big, KeptAll(sent)[k..])
    modifies b`bytes, b`size, b`start, b`end, b.bytes
    ensures b.Valid() && (b.bytes == old(b.bytes) || fresh(b.bytes))
    ensures b.Contents() == Images(b.order, b.big, KeptAll(sent + [item])[k..])
  {
    hide Writable, Image, Images, Kept, Range, KindOf;
    ImagesAppend(b.order, b.big, KeptAll(sent)[k..], Kept(item));
    assert KeptAll(sent + [item])[k..] == KeptAll(sent)[k..] + [Kept(item)];
    WriteItem(b, item);
  }

  /**
   Any mixture of writing, reading what comes next by its kind, dropping items at the front or at the end, making room,
   and moving: the items read are those written at their place, and what the buffer holds are the others, in order.
   */
  method Converse(b: ByteBuffer, steps: seq<Step>) returns (sent: seq<Item>, got: seq<Option<Item>>)
    requires b.Valid() && b.Contents() == []
    requires forall i :: 0 <= i < |steps| && steps[i].Write? ==> Writable(steps[i].item)
    modifies b, b.bytes
    ensures b.Valid() && Outcome(got, sent)
    ensures b.Contents() == Images(b.order, b.big, KeptAll(sent)[|got|..])
  {
    hide Writable, Image, Images, Kept, Range, KindOf, KeptAll;
    ImagesFront(b.order, b.big, []);
    sent, got := [], [];
    for i := 0 to |steps|
      invariant b.Valid() && (b.bytes == old(b.bytes) || fresh(b.bytes)) && Outcome(got, sent)
      invariant forall k :: 0 <= k < |sent| ==> Writable(sent[k])
      invariant b.Contents() == Images(b.order, b.big, KeptAll(sent)[|got|..])
    {
      match steps[i] {
        case Write(item) =>
          PutItem(b, item, sent, |got|);
          sent := sent + [item];
        case CutLast =>
          if |got| < |sent| {
            CutItem(b, sent, |got|);
            sent := sent[..|sent| - 1];
          }
        case Grow(room) =>
          b.Resize(b.Length() + room);
        case Compact =>
          var ok := b.Shift(0);
        case how =>
          if |got| < |sent| {
            var item := TakeNext(b, how, sent, |got|);
            got := got + [item];
          }
      }
    }
  }
}
