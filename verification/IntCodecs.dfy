/** src/rosy/codec.py: integers of fixed and of variable length. */
module IntCodecs {
  import opened Streams

  datatype ByteOrder = Big | Little

  function Pow256(k: nat): (p: int)
    ensures 1 <= p
  {
    if k == 0 then 1 else 256 * Pow256(k - 1)
  }

  function Abs(v: int): nat {
    if v < 0 then -v else v
  }

  /** Python's `int.bit_length`: the number of binary digits of |v|, none for zero. */
  function BitLength(v: int): nat
    decreases Abs(v)
  {
    if v == 0 then 0 else 1 + BitLength(Abs(v) / 2)
  }

  function ByteLength(v: int): nat {
    (BitLength(v) + 7) / 8
  }

  // ---------- int.to_bytes and int.from_bytes ----------

  /** The values `to_bytes(k, signed=signed)` accepts; it raises `OverflowError` for the others. */
  predicate Fits(v: int, k: nat, signed: bool) {
    if signed then -Pow256(k) <= 2 * v < Pow256(k) else 0 <= v < Pow256(k)
  }

  function LittleBytes(v: nat, k: nat): (s: seq<byte>)
    ensures |s| == k
  {
    if k == 0 then [] else [v % 256] + LittleBytes(v / 256, k - 1)
  }

  function FromLittle(s: seq<byte>): nat {
    if s == [] then 0 else s[0] + 256 * FromLittle(s[1..])
  }

  function Reversed(s: seq<byte>): (r: seq<byte>)
    ensures |r| == |s|
  {
    if s == [] then [] else Reversed(s[1..]) + [s[0]]
  }

  function Ordered(s: seq<byte>, order: ByteOrder): (r: seq<byte>)
    ensures |r| == |s|
  {
    if order.Big? then Reversed(s) else s
  }

  function ToBytes(v: int, k: nat, order: ByteOrder, signed: bool): Option<seq<byte>> {
    if Fits(v, k, signed) then
      Some(Ordered(LittleBytes(if v < 0 then v + Pow256(k) else v, k), order))
    else
      None
  }

  function FromBytes(s: seq<byte>, order: ByteOrder, signed: bool): int {
    var u := FromLittle(Ordered(s, order));
    if signed && 2 * u >= Pow256(|s|) then u - Pow256(|s|) else u
  }

  // ---------- FixedLengthIntCodec ----------

  function FixedEncode(k: nat, order: ByteOrder, signed: bool, v: int): Written {
    match ToBytes(v, k, order, signed)
    case Some(data) => Written(data, true)
    case None => Written([], false)
  }

  function FixedDecode(k: nat, order: ByteOrder, signed: bool, s: seq<byte>): Parsed<int> {
    var (data, rest) :- Read(k, s);
    Value(FromBytes(data, order, signed), rest)
  }

  function FixedInt(k: nat, order: ByteOrder := Little, signed: bool := false): Codec<int> {
    Codec(v => FixedEncode(k, order, signed, v), s => FixedDecode(k, order, signed, s))
  }

  // ---------- VariableLengthIntCodec ----------

  /** What the constructor's `require` leaves of `max_byte_length`. */
  type MaxLength = m: int | 0 < m <= 255 witness 8

  function VarEncode(max: MaxLength, order: ByteOrder, signed: bool, v: int): Written {
    var k := ByteLength(v);
    if k > max then Written([], false)
    else if k == 0 then Written([0], true)
    else match ToBytes(v, k, order, signed)
      case Some(data) => Written([k] + data, true)
      case None => Written([], false)
  }

  function VarDecode(max: MaxLength, order: ByteOrder, signed: bool, s: seq<byte>): Parsed<int> {
    var (header, rest) :- Read(1, s);
    var k := header[0];
    if k == 0 then Value(0, rest)
    else if k > max then Invalid
    else
      var (data, rest') :- Read(k, rest);
      Value(FromBytes(data, order, signed), rest')
  }

  function VarInt(max: MaxLength := 8, order: ByteOrder := Little, signed: bool := false): Codec<int> {
    Codec(v => VarEncode(max, order, signed, v), s => VarDecode(max, order, signed, s))
  }

  // ---------- Positional notation ----------

  lemma {:induction false} LittleInverse(v: nat, k: nat)
    requires v < Pow256(k)
    ensures FromLittle(LittleBytes(v, k)) == v
  {
    if k > 0 {
      LittleInverse(v / 256, k - 1);
      assert LittleBytes(v, k)[1..] == LittleBytes(v / 256, k - 1);
    }
  }

  lemma {:induction false} FromLittleBound(s: seq<byte>)
    ensures FromLittle(s) < Pow256(|s|)
  {
    if s != [] {
      FromLittleBound(s[1..]);
    }
  }

  lemma {:induction false} FromLittleInverse(s: seq<byte>)
    ensures LittleBytes(FromLittle(s), |s|) == s
  {
    if s != [] {
      FromLittleInverse(s[1..]);
      var u := FromLittle(s[1..]);
      assert (s[0] + 256 * u) / 256 == u && (s[0] + 256 * u) % 256 == s[0];
      assert s == [s[0]] + s[1..];
    }
  }

  lemma {:induction false} ReversedSnoc(s: seq<byte>, b: byte)
    ensures Reversed(s + [b]) == [b] + Reversed(s)
  {
    if s != [] {
      ReversedSnoc(s[1..], b);
      assert (s + [b])[1..] == s[1..] + [b];
    } else {
      assert s + [b] == [b];
    }
  }

  lemma {:induction false} ReversedTwice(s: seq<byte>)
    ensures Reversed(Reversed(s)) == s
  {
    if s != [] {
      ReversedSnoc(Reversed(s[1..]), s[0]);
      ReversedTwice(s[1..]);
      assert s == [s[0]] + s[1..];
    }
  }

  lemma OrderedTwice(s: seq<byte>, order: ByteOrder)
    ensures Ordered(Ordered(s, order), order) == s
  {
    ReversedTwice(s);
  }

  /** `to_bytes` loses nothing, in either byte order and with or without sign. */
  lemma ToBytesInverse(v: int, k: nat, order: ByteOrder, signed: bool)
    requires Fits(v, k, signed)
    ensures var b := ToBytes(v, k, order, signed);
      |b.value| == k && FromBytes(b.value, order, signed) == v
  {
    var u := if v < 0 then v + Pow256(k) else v;
    LittleInverse(u, k);
    OrderedTwice(LittleBytes(u, k), order);
  }

  /** Every k bytes are the encoding of exactly one value that fits: the codec wastes no string. */
  lemma FromBytesInverse(s: seq<byte>, order: ByteOrder, signed: bool)
    ensures var v := FromBytes(s, order, signed);
      Fits(v, |s|, signed) && ToBytes(v, |s|, order, signed) == Some(s)
  {
    FromLittleBound(Ordered(s, order));
    FromLittleInverse(Ordered(s, order));
    OrderedTwice(s, order);
  }

  lemma TimesKeepsOrder(d: nat, a: int, b: int)
    requires a <= b
    ensures d * a <= d * b
  {
  }

  lemma DivisionIsUnique(v: int, d: nat, q: int, r: int)
    requires v == d * q + r && 0 <= r < d
    ensures v / d == q
  {
    var p := v / d;
    if p > q {
      TimesKeepsOrder(d, q + 1, p);
    } else if p < q {
      TimesKeepsOrder(d, p + 1, q);
    }
  }

  lemma DivideTwice(v: nat, p: int)
    requires 1 <= p
    ensures v / 256 / p == v / (256 * p)
  {
    var a, b := v / 256, v % 256;
    var q, c := a / p, a % p;
    assert v == 256 * (p * q + c) + b;
    assert 256 * (p * q) == (256 * p) * q;
    DivisionIsUnique(v, 256 * p, q, 256 * c + b);
  }

  lemma {:induction false} LittleByteAt(v: nat, k: nat, i: nat)
    requires i < k
    ensures LittleBytes(v, k)[i] == v / Pow256(i) % 256
  {
    if i > 0 {
      LittleByteAt(v / 256, k - 1, i - 1);
      DivideTwice(v, Pow256(i - 1));
    }
  }

  lemma {:induction false} ReversedAt(s: seq<byte>, i: nat)
    requires i < |s|
    ensures Reversed(s)[|s| - 1 - i] == s[i]
  {
    if i > 0 {
      ReversedAt(s[1..], i - 1);
    }
  }

  /** The digits of v to the base 256, of its two's complement if it is negative: the lowest comes first in
      little-endian and last in big-endian order. */
  lemma BytesAreDigits(v: int, k: nat, order: ByteOrder, signed: bool, i: nat)
    requires Fits(v, k, signed) && i < k
    ensures var bytes := ToBytes(v, k, order, signed).value;
      && |bytes| == k
      && bytes[if order.Little? then i else k - 1 - i] == (if v < 0 then v + Pow256(k) else v) / Pow256(i) % 256
  {
    var u := if v < 0 then v + Pow256(k) else v;
    LittleByteAt(u, k, i);
    ReversedAt(LittleBytes(u, k), i);
  }

  // ---------- byte_length ----------

  function Pow2(n: nat): (p: int)
    ensures 1 <= p
  {
    if n == 0 then 1 else 2 * Pow2(n - 1)
  }

  lemma {:induction false} Pow2IsPow256(k: nat)
    ensures Pow2(8 * k) == Pow256(k)
  {
    if k > 0 {
      Pow2IsPow256(k - 1);
      var n := 8 * (k - 1);
      assert Pow2(n + 2) == 2 * Pow2(n + 1);
      assert Pow2(n + 4) == 2 * Pow2(n + 3) && Pow2(n + 3) == 2 * Pow2(n + 2);
      assert Pow2(n + 6) == 2 * Pow2(n + 5) && Pow2(n + 5) == 2 * Pow2(n + 4);
      assert Pow2(n + 8) == 2 * Pow2(n + 7) && Pow2(n + 7) == 2 * Pow2(n + 6);
    }
  }

  lemma {:induction false} BitLengthBound(v: int, n: nat)
    ensures Abs(v) < Pow2(n) <==> BitLength(v) <= n
    decreases n
  {
    if v != 0 && n > 0 {
      BitLengthBound(Abs(v) / 2, n - 1);
    }
  }

  /** `byte_length(v)` is the least k with |v| < 256^k. */
  lemma ByteLengthIsLeast(v: int, k: nat)
    ensures Abs(v) < Pow256(k) <==> ByteLength(v) <= k
  {
    Pow2IsPow256(k);
    BitLengthBound(v, 8 * k);
  }

  // ---------- What is accepted ----------

  /** A k-byte request ID codec takes exactly the IDs below 2^(8k), the caller's ID range. */
  lemma FixedUnsignedAccepts(k: nat, order: ByteOrder, v: int)
    ensures FixedEncode(k, order, false, v).ok <==> 0 <= v < Pow2(8 * k)
  {
    Pow2IsPow256(k);
  }

  lemma VarUnsignedAccepts(max: MaxLength, order: ByteOrder, v: int)
    ensures VarEncode(max, order, false, v).ok <==> 0 <= v < Pow256(max)
    ensures !VarEncode(max, order, false, v).ok ==> VarEncode(max, order, false, v).bytes == []
  {
    ByteLengthIsLeast(v, max);
    ByteLengthIsLeast(v, ByteLength(v));
    ByteLengthIsLeast(v, 0);
  }

  /** Signed values are laid out in `byte_length(v)` bytes, which counts magnitude bits only. So of
      the values with |v| < 256^max the codec takes zero and those whose magnitude leaves the sign
      bit of their own top byte free; -256^j/2 is the one value of its length that needs no more. */
  lemma VarSignedAccepts(max: MaxLength, order: ByteOrder, v: int)
    ensures VarEncode(max, order, true, v).ok <==>
      Abs(v) < Pow256(max) && (v == 0 || -Pow256(ByteLength(v)) <= 2 * v < Pow256(ByteLength(v)))
    ensures !VarEncode(max, order, true, v).ok ==> VarEncode(max, order, true, v).bytes == []
  {
    ByteLengthIsLeast(v, max);
    ByteLengthIsLeast(v, 0);
  }

  /** 128 needs two signed bytes and a limit of eight is generous, yet it is rejected. */
  lemma VarSignedRejects128(order: ByteOrder)
    ensures Fits(128, 8, true) && !VarEncode(8, order, true, 128).ok
  {
    VarSignedAccepts(8, order, 128);
    assert Pow256(1) == 256 && Pow256(2) == 0x1_0000;
    ByteLengthIsLeast(128, 1);
    ByteLengthIsLeast(128, 0);
    assert Pow256(4) == 0x1_0000 * Pow256(2);
    assert Pow256(6) == 0x1_0000 * Pow256(4);
  }

  // ---------- Laws ----------

  lemma FixedLawful(k: nat, order: ByteOrder, signed: bool)
    ensures Lawful(FixedInt(k, order, signed))
  {
    var c := FixedInt(k, order, signed);
    forall s, t ensures StreamsAt(c.decode, s, t) {
      ReadStreams(k, s, t);
    }
    forall v, rest ensures RoundTripsAt(c, v, rest) {
      if Fits(v, k, signed) {
        ToBytesInverse(v, k, order, signed);
        ReadBack(c.encode(v).bytes, rest);
      }
    }
  }

  lemma VarStreamsAt(max: MaxLength, order: ByteOrder, signed: bool, s: seq<byte>, t: seq<byte>)
    ensures StreamsAt(VarInt(max, order, signed).decode, s, t)
  {
    ReadStreams(1, s, t);
    if |s| >= 1 {
      ReadStreams(s[0], s[1..], t);
    }
  }

  lemma VarDecodeOf(max: MaxLength, order: ByteOrder, signed: bool, k: byte, body: seq<byte>, rest: seq<byte>)
    requires 0 < k <= max && |body| == k
    ensures VarDecode(max, order, signed, [k] + (body + rest)) == Value(FromBytes(body, order, signed), rest)
  {
    ReadBack([k], body + rest);
    ReadBack(body, rest);
  }

  /** What the encoder does with a value that needs k bytes. */
  lemma VarEncodeOf(max: MaxLength, order: ByteOrder, signed: bool, v: int)
    ensures var k, out := ByteLength(v), VarEncode(max, order, signed, v);
      && (out.ok <==> k == 0 || (k <= max && Fits(v, k, signed)))
      && (out.ok ==> k < 256 && out.bytes == [k] + (if k == 0 then [] else ToBytes(v, k, order, signed).value))
      && (!out.ok ==> out.bytes == [])
  {
  }

  lemma VarRoundTripsAt(max: MaxLength, order: ByteOrder, signed: bool, v: int, rest: seq<byte>)
    ensures RoundTripsAt(VarInt(max, order, signed), v, rest)
  {
    VarEncodeOf(max, order, signed, v);
    var out := VarEncode(max, order, signed, v);
    if out.ok {
      ByteLengthIsLeast(v, 0);
      VarReadsBack(max, order, signed, ByteLength(v), v, rest);
      assert VarDecode(max, order, signed, out.bytes + rest) == Value(v, rest);
    }
  }

  lemma VarReadsBack(max: MaxLength, order: ByteOrder, signed: bool, k: byte, v: int, rest: seq<byte>)
    requires k <= max && if k == 0 then v == 0 else Fits(v, k, signed)
    ensures VarDecode(max, order, signed, [k] + (if k == 0 then [] else ToBytes(v, k, order, signed).value) + rest) ==
      Value(v, rest)
  {
    if k == 0 {
      assert [k] + [] + rest == [k] + rest;
      ReadBack([k], rest);
    } else {
      var body := ToBytes(v, k, order, signed).value;
      ToBytesInverse(v, k, order, signed);
      VarDecodeOf(max, order, signed, k, body, rest);
      assert [k] + body + rest == [k] + (body + rest);
    }
  }

  lemma VarLawful(max: MaxLength, order: ByteOrder, signed: bool)
    ensures Lawful(VarInt(max, order, signed))
  {
    forall s, t ensures StreamsAt(VarInt(max, order, signed).decode, s, t) {
      VarStreamsAt(max, order, signed, s, t);
    }
    forall v, rest ensures RoundTripsAt(VarInt(max, order, signed), v, rest) {
      VarRoundTripsAt(max, order, signed, v, rest);
    }
  }

  // ---------- The codecs as they act on a writer and a reader ----------

  method EncodeFixedInt(w: BufferWriter, k: nat, order: ByteOrder, signed: bool, v: int) returns (ok: bool)
    modifies w
    ensures ok == Fits(v, k, signed)
    ensures w.data == old(w.data) + FixedInt(k, order, signed).encode(v).bytes
  {
    var data := ToBytes(v, k, order, signed);
    if data.None? {
      return false;
    }
    w.Write(data.value);
    return true;
  }

  method DecodeFixedInt(r: BufferReader, k: nat, order: ByteOrder, signed: bool) returns (out: Parsed<int>)
    requires r.Valid()
    modifies r
    ensures r.Valid()
    ensures out == FixedInt(k, order, signed).decode(old(r.Remaining()))
    ensures out.Value? ==> r.Remaining() == out.rest
  {
    var data := r.ReadExactly(k);
    if data.IsFailure() {
      return data.PropagateFailure();
    }
    return Value(FromBytes(data.value, order, signed), r.Remaining());
  }

  method EncodeVarInt(w: BufferWriter, max: MaxLength, order: ByteOrder, signed: bool, v: int) returns (ok: bool)
    modifies w
    ensures ok == VarInt(max, order, signed).encode(v).ok
    ensures w.data == old(w.data) + VarInt(max, order, signed).encode(v).bytes
    ensures !ok ==> w.data == old(w.data)
  {
    VarEncodeOf(max, order, signed, v);
    var k := ByteLength(v);
    if k > max {
      return false;
    }
    var header: seq<byte> := [k];
    var data: seq<byte> := [];
    if k > 0 {
      var encoded := ToBytes(v, k, order, signed);
      if encoded.None? {
        return false;
      }
      data := encoded.value;
    }
    ok := WriteHeaderAndData(w, header, data);
  }

  method WriteHeaderAndData(w: BufferWriter, header: seq<byte>, data: seq<byte>) returns (ok: bool)
    modifies w
    ensures ok && w.data == old(w.data) + (header + data)
  {
    w.Write(header);
    if data != [] {
      w.Write(data);
    }
    assert old(w.data) + header + data == old(w.data) + (header + data);
    ok := true;
  }

  method DecodeVarInt(r: BufferReader, max: MaxLength, order: ByteOrder, signed: bool) returns (out: Parsed<int>)
    requires r.Valid()
    modifies r
    ensures r.Valid()
    ensures out == VarInt(max, order, signed).decode(old(r.Remaining()))
    ensures old(r.Remaining()) != [] && old(r.Remaining())[0] > max ==> out.Invalid?
    ensures out.Value? ==> r.Remaining() == out.rest
  {
    var header := r.ReadExactly(1);
    if header.IsFailure() {
      return header.PropagateFailure();
    }
    var k := header.value[0];
    if k == 0 {
      return Value(0, r.Remaining());
    }
    if k > max {
      return Invalid;
    }
    var data := r.ReadExactly(k);
    if data.IsFailure() {
      return data.PropagateFailure();
    }
    return Value(FromBytes(data.value, order, signed), r.Remaining());
  }
}
