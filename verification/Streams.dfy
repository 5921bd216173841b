/** Byte streams: what one end writes, what the other end reads, and the two laws
    every codec of the wire format has to keep. */
module Streams {

  type byte = b: int | 0 <= b < 256

  datatype Option<+T> = None | Some(value: T)

  /** What an encoder put on its writer, and whether it returned (true) or raised (false).
      An encoder that raises may already have written something. */
  datatype Written = Written(bytes: seq<byte>, ok: bool) {
    /** Runs `next` only if this encoder returned. */
    function Then(next: Written): Written {
      if ok then Written(bytes + next.bytes, next.ok) else this
    }
  }

  /** What a decoder made of the bytes available before end of stream: a value and the unread
      rest, an `EOFError`, or any other exception. Reading raises `EOFError` because the bytes ran short;
      a library that loads a payload may raise it for reasons of its own. */
  datatype Parsed<+T> = Value(value: T, rest: seq<byte>) | Eof | Invalid {
    predicate IsFailure() {
      !Value?
    }
    function PropagateFailure<U>(): Parsed<U>
      requires IsFailure()
    {
      if Eof? then Eof else Invalid
    }
    function Extract(): (T, seq<byte>)
      requires !IsFailure()
    {
      (value, rest)
    }
  }

  datatype Codec<!T> = Codec(encode: T -> Written, decode: seq<byte> -> Parsed<T>)

  /** `readexactly(n)` */
  function Read(n: int, s: seq<byte>): Parsed<seq<byte>> {
    if n < 0 then Invalid
    else if |s| < n then Eof
    else Value(s[..n], s[n..])
  }

  lemma ThenAssociates(a: Written, b: Written, c: Written)
    ensures a.Then(b).Then(c) == a.Then(b.Then(c))
  {
    assert a.bytes + b.bytes + c.bytes == a.bytes + (b.bytes + c.bytes);
  }

  // ---------- Laws ----------

  /** `q` is the outcome `p` would become if the bytes `t` arrived behind those `p` was read from:
      a value stays and leaves `t` unread, an invalid stream stays invalid. */
  ghost predicate Settled<T>(p: Parsed<T>, t: seq<byte>, q: Parsed<T>) {
    match p
    case Value(v, rest) => q == Value(v, rest + t)
    case Invalid => q == Invalid
    case Eof => true
  }

  predicate IsSuffix(rest: seq<byte>, s: seq<byte>) {
    |rest| <= |s| && rest == s[|s| - |rest|..]
  }

  /** On `s` the decoder decides by the bytes it has read, whatever `t` comes behind them, and
      never moves backwards. */
  ghost predicate StreamsAt<T>(decode: seq<byte> -> Parsed<T>, s: seq<byte>, t: seq<byte>) {
    && Settled(decode(s), t, decode(s + t))
    && (decode(s).Value? ==> IsSuffix(decode(s).rest, s))
  }

  ghost predicate Streaming<T>(decode: seq<byte> -> Parsed<T>) {
    forall s, t :: StreamsAt(decode, s, t)
  }

  /** Every value read takes at least one byte, so reading one after another comes to an end. */
  ghost predicate Advancing<T>(decode: seq<byte> -> Parsed<T>) {
    forall s: seq<byte> :: AdvancesAt(decode, s)
  }

  ghost predicate AdvancesAt<T>(decode: seq<byte> -> Parsed<T>, s: seq<byte>) {
    decode(s).Value? ==> |decode(s).rest| < |s|
  }

  /** If `x` is accepted it comes back unchanged, and what follows it is untouched. */
  ghost predicate RoundTripsAt<T>(c: Codec<T>, x: T, rest: seq<byte>) {
    c.encode(x).ok ==> c.decode(c.encode(x).bytes + rest) == Value(x, rest)
  }

  ghost predicate RoundTrips<T(!new)>(c: Codec<T>) {
    forall x, rest :: RoundTripsAt(c, x, rest)
  }

  ghost predicate Lawful<T(!new)>(c: Codec<T>) {
    RoundTrips(c) && Streaming(c.decode)
  }

  /** `frame` is read back as `x`, whatever follows it. */
  ghost predicate Frames<T>(decode: seq<byte> -> Parsed<T>, frame: seq<byte>, x: T) {
    forall rest: seq<byte> :: FramesBefore(decode, frame, x, rest)
  }

  ghost predicate FramesBefore<T>(decode: seq<byte> -> Parsed<T>, frame: seq<byte>, x: T, rest: seq<byte>) {
    decode(frame + rest) == Value(x, rest)
  }

  /** A frame cut short anywhere runs out of bytes: it never decodes to something else and is
      never taken for garbage. */
  lemma ProperPrefixIsEof<T>(decode: seq<byte> -> Parsed<T>, frame: seq<byte>, x: T, cut: nat)
    requires Streaming(decode) && Frames(decode, frame, x)
    requires cut < |frame|
    ensures decode(frame[..cut]) == Eof
  {
    var p, t := frame[..cut], frame[cut..];
    assert p + t == frame == frame + [];
    assert FramesBefore(decode, frame, x, []) && StreamsAt(decode, p, t);
  }

  /** No frame of a lawful codec is a proper prefix of another one. */
  lemma FramesArePrefixFree<T(!new)>(c: Codec<T>, x: T, y: T)
    requires Lawful(c) && c.encode(x).ok && c.encode(y).ok
    requires c.encode(x).bytes <= c.encode(y).bytes
    ensures x == y && c.encode(x).bytes == c.encode(y).bytes
  {
    var a, b := c.encode(x).bytes, c.encode(y).bytes;
    assert a + b[|a|..] == b == b + [];
    assert RoundTripsAt(c, x, b[|a|..]) && RoundTripsAt(c, y, []);
  }

  lemma ReadStreams(n: int, s: seq<byte>, t: seq<byte>)
    ensures Settled(Read(n, s), t, Read(n, s + t))
    ensures Read(n, s).Value? ==> IsSuffix(Read(n, s).rest, s)
  {
    if 0 <= n <= |s| {
      assert (s + t)[..n] == s[..n] && (s + t)[n..] == s[n..] + t;
    }
  }

  lemma ReadBack(d: seq<byte>, rest: seq<byte>)
    ensures Read(|d|, d + rest) == Value(d, rest)
  {
    assert (d + rest)[..|d|] == d && (d + rest)[|d|..] == rest;
  }

  function Without<T>(s: seq<T>, i: nat): (r: seq<T>)
    requires i < |s|
    ensures |r| == |s| - 1 && forall x :: x in r ==> x in s
  {
    s[..i] + s[i + 1..]
  }

  // ---------- Buffers ----------

  class BufferWriter {
    var data: seq<byte>

    constructor ()
      ensures data == []
    {
      data := [];
    }

    method Write(bytes: seq<byte>)
      modifies this
      ensures data == old(data) + bytes
    {
      data := data + bytes;
    }

    /** Lets a component codec write; false when it raises. */
    method Encode<T>(c: Codec<T>, x: T) returns (ok: bool)
      modifies this
      ensures ok == c.encode(x).ok && data == old(data) + c.encode(x).bytes
    {
      var out := c.encode(x);
      Write(out.bytes);
      ok := out.ok;
    }
  }

  /** A connection's writer and its lock. Waiting for the lock is left to the caller's task. */
  class LockableWriter {
    var sent: seq<byte>
    var locked: bool

    constructor ()
      ensures sent == [] && !locked
    {
      sent, locked := [], false;
    }

    method Acquire()
      requires !locked
      modifies this
      ensures locked && sent == old(sent)
    {
      locked := true;
    }

    method Release()
      requires locked
      modifies this
      ensures !locked && sent == old(sent)
    {
      locked := false;
    }

    /** Raises, and writes nothing, unless somebody holds the lock. */
    method Write(bytes: seq<byte>) returns (ok: bool)
      modifies this
      ensures ok == old(locked) == locked
      ensures sent == if ok then old(sent) + bytes else old(sent)
    {
      if !locked {
        return false;
      }
      sent := sent + bytes;
      return true;
    }

    /** Lets a component codec write; false when it raises. */
    method Encode<T>(c: Codec<T>, x: T) returns (ok: bool)
      requires locked
      modifies this
      ensures locked
      ensures ok == c.encode(x).ok && sent == old(sent) + c.encode(x).bytes
    {
      var out := c.encode(x);
      var written := Write(out.bytes);
      ok := out.ok;
    }
  }

  class BufferReader {
    const source: seq<byte>
    var pos: nat

    ghost predicate Valid()
      reads this
    {
      pos <= |source|
    }

    function Remaining(): seq<byte>
      requires Valid()
      reads this
    {
      source[pos..]
    }

    constructor (data: seq<byte>)
      ensures Valid() && Remaining() == data && source == data
    {
      source, pos := data, 0;
    }

    /** A short read still swallows what there was. */
    method ReadExactly(n: int) returns (r: Parsed<seq<byte>>)
      requires Valid()
      modifies this
      ensures Valid()
      ensures r == Read(n, old(Remaining()))
      ensures Remaining() == match r case Value(_, rest) => rest
                                     case Eof => []
                                     case Invalid => old(Remaining())
    {
      r := Read(n, Remaining());
      if r.Value? {
        pos := pos + n;
      } else if r.Eof? {
        pos := |source|;
      }
    }

    /** Lets a component codec read from here. Where the reader stands after an exception is
        left open: nothing reads on after one. */
    method Decode<T>(c: Codec<T>) returns (r: Parsed<T>)
      requires Valid() && Streaming(c.decode)
      modifies this
      ensures Valid()
      ensures r == c.decode(old(Remaining()))
      ensures r.Value? ==> Remaining() == r.rest
    {
      r := c.decode(Remaining());
      if r.Value? {
        assert StreamsAt(c.decode, Remaining(), []);
        pos := |source| - |r.rest|;
      }
    }
  }
}
