/** What it means that a read loop leaves through the branch for end of stream: whether the bytes ran short,
    or a whole payload was loaded and the library raised `EOFError` about it. */
module EndOfStream {
  import opened Streams
  import opened IntCodecs
  import opened CompositeCodecs
  import opened MessageCodecs
  import opened ClientLoop

  ghost predicate NotEof<T>(decode: seq<byte> -> Parsed<T>, s: seq<byte>, t: seq<byte>) {
    !decode(s + t).Eof?
  }

  /** Some bytes behind `s` give the decoder a value or something invalid. */
  ghost predicate SatisfiableAt<T>(decode: seq<byte> -> Parsed<T>, s: seq<byte>) {
    exists t :: NotEof(decode, s, t)
  }

  /** An end of stream always means that bytes are missing. */
  ghost predicate Satisfiable<T>(decode: seq<byte> -> Parsed<T>) {
    forall s: seq<byte> :: SatisfiableAt(decode, s)
  }

  // ---------- Codecs built from satisfiable ones ----------

  function Zeros(n: nat): (zeros: seq<byte>)
    ensures |zeros| == n
  {
    seq(n, i => 0)
  }

  lemma FixedSatisfiable(k: nat)
    ensures Satisfiable(FixedInt(k).decode)
  {
    forall s ensures SatisfiableAt(FixedInt(k).decode, s) {
      assert NotEof(FixedInt(k).decode, s, Zeros(k));
    }
  }

  lemma FixedBelow(k: nat, s: seq<byte>)
    ensures FixedInt(k).decode(s).Value? ==> 0 <= FixedInt(k).decode(s).value < Pow256(k)
  {
    if k <= |s| {
      FromLittleBound(Ordered(s[..k], Little));
    }
  }

  /** One part behind another: bytes that satisfy the first, then bytes that satisfy the second. */
  lemma ThenSatisfied<T, U>(first: seq<byte> -> Parsed<T>, second: seq<byte> -> Parsed<U>, s: seq<byte>)
    returns (t: seq<byte>)
    requires Streaming(first) && Satisfiable(first) && Satisfiable(second)
    ensures !first(s + t).Eof?
    ensures first(s + t).Value? ==> !second(first(s + t).rest).Eof?
  {
    assert SatisfiableAt(first, s);
    t :| NotEof(first, s, t);
    if first(s + t).Value? {
      var rest := first(s + t).rest;
      assert SatisfiableAt(second, rest);
      var more :| NotEof(second, rest, more);
      assert StreamsAt(first, s + t, more);
      assert s + t + more == s + (t + more);
      t := t + more;
    }
  }

  lemma PairSatisfiable<K, V>(key: Codec<K>, value: Codec<V>)
    requires Streaming(key.decode) && Satisfiable(key.decode) && Satisfiable(value.decode)
    ensures Satisfiable(Pair(key, value).decode)
  {
    forall s ensures SatisfiableAt(Pair(key, value).decode, s) {
      var t := ThenSatisfied(key.decode, value.decode, s);
      assert NotEof(Pair(key, value).decode, s, t);
    }
  }

  /** No `low` to `high` - 1 bytes make loading raise `EOFError`. */
  ghost predicate NeverOutOfInput<T>(form: Form<T>, low: nat, high: nat) {
    forall data: seq<byte> :: low <= |data| < high ==> !form.load(data).OutOfInput?
  }

  lemma ReadSatisfied(n: int, s: seq<byte>) returns (t: seq<byte>)
    ensures !Read(n, s + t).Eof?
  {
    t := Zeros(if n < 0 then 0 else n);
  }

  /** A length and as many bytes. */
  lemma LengthSatisfied(len: Codec<int>, s: seq<byte>) returns (t: seq<byte>)
    requires Streaming(len.decode) && Satisfiable(len.decode)
    ensures !len.decode(s + t).Eof?
    ensures len.decode(s + t).Value? ==> !Read(len.decode(s + t).value, len.decode(s + t).rest).Eof?
  {
    assert SatisfiableAt(len.decode, s);
    t :| NotEof(len.decode, s, t);
    if len.decode(s + t).Value? {
      var more := ReadSatisfied(len.decode(s + t).value, len.decode(s + t).rest);
      assert StreamsAt(len.decode, s + t, more);
      assert s + t + more == s + (t + more);
      t := t + more;
    }
  }

  lemma BlobSatisfiable<T>(k: nat, form: Form<T>)
    requires NeverOutOfInput(form, 0, Pow256(k))
    ensures Satisfiable(Blob(FixedInt(k), form).decode)
  {
    FixedLawful(k, Little, false);
    FixedSatisfiable(k);
    forall s ensures SatisfiableAt(Blob(FixedInt(k), form).decode, s) {
      var t := LengthSatisfied(FixedInt(k), s);
      FixedBelow(k, s + t);
      assert NotEof(Blob(FixedInt(k), form).decode, s, t);
    }
  }

  lemma StringSatisfiable(k: nat, text: Form<string>)
    requires NeverOutOfInput(text, 1, Pow256(k))
    ensures Satisfiable(String(FixedInt(k), text).decode)
  {
    FixedLawful(k, Little, false);
    FixedSatisfiable(k);
    forall s ensures SatisfiableAt(String(FixedInt(k), text).decode, s) {
      var t := LengthSatisfied(FixedInt(k), s);
      FixedBelow(k, s + t);
      assert NotEof(String(FixedInt(k), text).decode, s, t);
    }
  }

  lemma {:induction false} ItemsSatisfied<T>(item: Codec<T>, n: int, s: seq<byte>) returns (t: seq<byte>)
    requires Streaming(item.decode) && Satisfiable(item.decode)
    ensures !DecodeItems(item, n, s + t).Eof?
    decreases if n < 0 then 0 else n
  {
    t := [];
    if n > 0 {
      assert SatisfiableAt(item.decode, s);
      t :| NotEof(item.decode, s, t);
      if item.decode(s + t).Value? {
        var more := ItemsSatisfied(item, n - 1, item.decode(s + t).rest);
        assert StreamsAt(item.decode, s + t, more);
        assert s + t + more == s + (t + more);
        t := t + more;
      }
    }
  }

  lemma {:induction false} EntriesSatisfied<K, V>(entry: Codec<(K, V)>, n: int, d: Dict<K, V>, s: seq<byte>)
    returns (t: seq<byte>)
    requires Streaming(entry.decode) && Satisfiable(entry.decode)
    ensures !DecodeEntries(entry, n, d, s + t).Eof?
    decreases if n < 0 then 0 else n
  {
    t := [];
    if n > 0 {
      assert SatisfiableAt(entry.decode, s);
      t :| NotEof(entry.decode, s, t);
      if entry.decode(s + t).Value? {
        var Value(p, rest) := entry.decode(s + t);
        var more := EntriesSatisfied(entry, n - 1, Put(d, p.0, p.1), rest);
        assert StreamsAt(entry.decode, s + t, more);
        assert s + t + more == s + (t + more);
        t := t + more;
      }
    }
  }

  lemma SequenceSatisfiable<T>(len: Codec<int>, item: Codec<T>)
    requires Streaming(len.decode) && Satisfiable(len.decode) && Streaming(item.decode) && Satisfiable(item.decode)
    ensures Satisfiable(Sequence(len, item).decode)
  {
    forall s ensures SatisfiableAt(Sequence(len, item).decode, s) {
      assert SatisfiableAt(len.decode, s);
      var t :| NotEof(len.decode, s, t);
      if len.decode(s + t).Value? {
        var more := ItemsSatisfied(item, len.decode(s + t).value, len.decode(s + t).rest);
        assert StreamsAt(len.decode, s + t, more);
        assert s + t + more == s + (t + more);
        t := t + more;
      }
      assert NotEof(Sequence(len, item).decode, s, t);
    }
  }

  lemma DictionarySatisfiable<K(!new), V(!new)>(len: Codec<int>, key: Codec<K>, value: Codec<V>)
    requires Streaming(len.decode) && Satisfiable(len.decode)
    requires Lawful(key) && Satisfiable(key.decode) && Lawful(value) && Satisfiable(value.decode)
    ensures Satisfiable(Dictionary(len, key, value).decode)
  {
    var entry := Pair(key, value);
    PairLawful(key, value);
    PairSatisfiable(key, value);
    forall s ensures SatisfiableAt(Dictionary(len, key, value).decode, s) {
      assert SatisfiableAt(len.decode, s);
      var t :| NotEof(len.decode, s, t);
      if len.decode(s + t).Value? {
        var more := EntriesSatisfied(entry, len.decode(s + t).value, [], len.decode(s + t).rest);
        assert StreamsAt(len.decode, s + t, more);
        assert s + t + more == s + (t + more);
        t := t + more;
      }
      assert NotEof(Dictionary(len, key, value).decode, s, t);
    }
  }

  // ---------- Messages ----------

  ghost predicate SatisfiableParts(c: Parts) {
    Satisfiable(c.id.decode) && Satisfiable(c.text.decode) && Satisfiable(c.args.decode) && Satisfiable(c.kwargs.decode)
  }

  lemma TopicSatisfiable(c: Parts)
    requires LawfulParts(c) && SatisfiableParts(c)
    ensures Satisfiable(TopicCodec(c).decode)
  {
    var inner := Pair(c.args, c.kwargs);
    PairSatisfiable(c.args, c.kwargs);
    forall s ensures SatisfiableAt(TopicCodec(c).decode, s) {
      var t := ThenSatisfied(c.text.decode, inner.decode, s);
      assert NotEof(TopicCodec(c).decode, s, t);
    }
  }

  lemma RequestSatisfiable(c: Parts)
    requires LawfulParts(c) && SatisfiableParts(c)
    ensures Satisfiable(RequestCodec(c).decode)
  {
    TopicSatisfiable(c);
    forall s ensures SatisfiableAt(RequestCodec(c).decode, s) {
      var t := ThenSatisfied(c.id.decode, TopicCodec(c).decode, s);
      assert NotEof(RequestCodec(c).decode, s, t);
    }
  }

  lemma MessageSatisfiable(c: Parts)
    requires LawfulParts(c) && SatisfiableParts(c)
    ensures Satisfiable(MessageCodec(c).decode)
  {
    TopicSatisfiable(c);
    RequestSatisfiable(c);
    forall s ensures SatisfiableAt(MessageCodec(c).decode, s) {
      if s == [] {
        assert NotEof(MessageCodec(c).decode, s, [0]);
      } else {
        var body := s[1..];
        assert SatisfiableAt(TopicCodec(c).decode, body) && SatisfiableAt(RequestCodec(c).decode, body);
        var t := [];
        if s[0] == TOPIC_PREFIX {
          t :| NotEof(TopicCodec(c).decode, body, t);
        } else if s[0] == SERVICE_PREFIX {
          t :| NotEof(RequestCodec(c).decode, body, t);
        }
        assert (s + t)[1..] == body + t;
        assert NotEof(MessageCodec(c).decode, s, t);
      }
    }
  }

  // ---------- A loop ----------

  /** With more bytes the loop would have gone further, or ended otherwise. */
  ghost predicate GoesOn<T>(decode: seq<byte> -> Parsed<T>, s: seq<byte>)
    requires Advancing(decode)
  {
    exists t :: ReadsOtherwise(decode, s, t)
  }

  ghost predicate ReadsOtherwise<T>(decode: seq<byte> -> Parsed<T>, s: seq<byte>, t: seq<byte>)
    requires Advancing(decode)
  {
    DecodeAll(decode, s + t) != DecodeAll(decode, s)
  }

  /** Whatever comes, the loop ends at end of stream where it is: for good. */
  ghost predicate EndsForGood<T>(decode: seq<byte> -> Parsed<T>, s: seq<byte>)
    requires Advancing(decode)
  {
    DecodeAll(decode, s).ending.AtEof? && !GoesOn(decode, s)
  }

  lemma {:induction false} SatisfiableGoesOn<T>(decode: seq<byte> -> Parsed<T>, s: seq<byte>)
    requires Streaming(decode) && Advancing(decode) && Satisfiable(decode) && DecodeAll(decode, s).ending.AtEof?
    ensures GoesOn(decode, s)
    decreases |s|
  {
    assert AdvancesAt(decode, s);
    if decode(s).Value? {
      var rest := decode(s).rest;
      SatisfiableGoesOn(decode, rest);
      var t :| ReadsOtherwise(decode, rest, t);
      assert StreamsAt(decode, s, t) && AdvancesAt(decode, s + t);
      var a, b := DecodeAll(decode, rest), DecodeAll(decode, rest + t);
      assert ([decode(s).value] + a.values)[1..] == a.values && ([decode(s).value] + b.values)[1..] == b.values;
      assert ReadsOtherwise(decode, s, t);
    } else {
      assert SatisfiableAt(decode, s);
      var t :| NotEof(decode, s, t);
      assert AdvancesAt(decode, s + t);
      assert ReadsOtherwise(decode, s, t);
    }
  }

  /** End of stream ends no loop for good exactly if the decoder can always be satisfied. */
  lemma NeverForGoodExactly<T>(decode: seq<byte> -> Parsed<T>)
    requires Streaming(decode) && Advancing(decode)
    ensures (forall s :: !EndsForGood(decode, s)) <==> Satisfiable(decode)
  {
    if Satisfiable(decode) {
      forall s ensures !EndsForGood(decode, s) {
        if DecodeAll(decode, s).ending.AtEof? {
          SatisfiableGoesOn(decode, s);
        }
      }
    } else {
      var s: seq<byte> :| !SatisfiableAt(decode, s);
      assert !NotEof(decode, s, []) && s + [] == s;
      assert AdvancesAt(decode, s) && DecodeAll(decode, s) == Log([], AtEof);
      forall t ensures !ReadsOtherwise(decode, s, t) {
        assert !NotEof(decode, s, t) && AdvancesAt(decode, s + t);
      }
      assert EndsForGood(decode, s);
    }
  }

  // ---------- The codecs of a node ----------

  /** Nothing a node loads, of a length that its codecs deliver, raises `EOFError`. */
  ghost predicate LoadsRaiseNoEof(form: Form<Data>, utf8: Form<string>) {
    NeverOutOfInput(form, 0, 0x1_0000_0000) && NeverOutOfInput(utf8, 1, 0x100)
  }

  lemma NodePartsSatisfiable(k: nat, form: Form<Data>, utf8: Form<string>)
    requires Faithful(form) && Faithful(utf8) && utf8.load([]) == Loaded("") && LoadsRaiseNoEof(form, utf8)
    ensures LawfulParts(BuildParts(k, DataCodec(form), utf8)) && SatisfiableParts(BuildParts(k, DataCodec(form), utf8))
  {
    var data, shortText := DataCodec(form), String(FixedInt(1), utf8);
    PowersOf256();
    FixedLawful(1, Little, false);
    FixedLawful(4, Little, false);
    BlobLawful(FixedInt(4), form);
    StringLawful(FixedInt(1), utf8);
    BuiltPartsAreLawful(k, data, utf8);
    FixedSatisfiable(k);
    FixedSatisfiable(1);
    BlobSatisfiable(4, form);
    StringSatisfiable(1, utf8);
    SequenceSatisfiable(FixedInt(1), data);
    DictionarySatisfiable(FixedInt(1), shortText, data);
  }

  /** A topic message without a name whose one argument is the payload `data`, up to the end of that. */
  function MessageOfPayload(data: seq<byte>): seq<byte>
    requires |data| < 0x1_0000_0000
  {
    [TOPIC_PREFIX] + ([0] + ([1] + (FixedInt(4).encode(|data|).bytes + data)))
  }

  /** A topic message up to the end of its name. */
  function MessageOfName(name: seq<byte>): seq<byte>
    requires |name| < 0x100
  {
    [TOPIC_PREFIX] + ([|name|] + name)
  }

  lemma OneByte(b: byte, rest: seq<byte>)
    ensures FixedInt(1).decode([b] + rest) == Value(b as int, rest)
  {
    ReadBack([b], rest);
    assert Ordered([b], Little) == [b] && FromLittle([b]) == b + 256 * FromLittle([]);
  }

  lemma PayloadEndsBlob(form: Form<Data>, data: seq<byte>, rest: seq<byte>)
    requires |data| < 0x1_0000_0000 && form.load(data) == OutOfInput
    ensures DataCodec(form).decode(FixedInt(4).encode(|data|).bytes + (data + rest)) == Eof
  {
    PowersOf256();
    FixedLawful(4, Little, false);
    assert RoundTripsAt(FixedInt(4), |data|, data + rest);
    ReadBack(data, rest);
  }

  lemma PayloadEndsArgs(form: Form<Data>, data: seq<byte>, rest: seq<byte>)
    requires |data| < 0x1_0000_0000 && form.load(data) == OutOfInput
    ensures var args := Sequence(FixedInt(1), DataCodec(form));
      args.decode([1] + (FixedInt(4).encode(|data|).bytes + (data + rest))) == Eof
  {
    var blob := FixedInt(4).encode(|data|).bytes + (data + rest);
    OneByte(1, blob);
    PayloadEndsBlob(form, data, rest);
    assert DecodeItems(DataCodec(form), 1, blob) == Eof;
  }

  /** A payload that loads with `EOFError` ends the loop whatever is sent behind it. With pickle the empty
      payload is one. */
  lemma PayloadEndsLoop(k: nat, form: Form<Data>, utf8: Form<string>, data: seq<byte>, rest: seq<byte>)
    requires |data| < 0x1_0000_0000 && form.load(data) == OutOfInput
    ensures MessageDecode(BuildParts(k, DataCodec(form), utf8), MessageOfPayload(data) + rest) == Eof
  {
    var c := BuildParts(k, DataCodec(form), utf8);
    var args := [1] + (FixedInt(4).encode(|data|).bytes + (data + rest));
    assert MessageOfPayload(data) + rest == [TOPIC_PREFIX] + ([0] + args);
    ReadBack([TOPIC_PREFIX], [0] + args);
    OneByte(0, args);
    assert c.text.decode([0] + args) == Value("", args);
    PayloadEndsArgs(form, data, rest);
    assert c.args.decode(args) == Eof;
  }

  lemma NameEndsLoop(k: nat, form: Form<Data>, utf8: Form<string>, name: seq<byte>, rest: seq<byte>)
    requires 0 < |name| < 0x100 && utf8.load(name) == OutOfInput
    ensures MessageDecode(BuildParts(k, DataCodec(form), utf8), MessageOfName(name) + rest) == Eof
  {
    var c := BuildParts(k, DataCodec(form), utf8);
    assert MessageOfName(name) + rest == [TOPIC_PREFIX] + ([|name|] + (name + rest));
    ReadBack([TOPIC_PREFIX], [|name|] + (name + rest));
    OneByte(|name|, name + rest);
    ReadBack(name, rest);
    assert c.text.decode([|name|] + (name + rest)) == Eof;
  }

  lemma EofPayloadUnsatisfiable(k: nat, form: Form<Data>, utf8: Form<string>)
    requires !LoadsRaiseNoEof(form, utf8)
    ensures !Satisfiable(MessageCodec(BuildParts(k, DataCodec(form), utf8)).decode)
  {
    var decode := MessageCodec(BuildParts(k, DataCodec(form), utf8)).decode;
    var s: seq<byte>;
    if !NeverOutOfInput(form, 0, 0x1_0000_0000) {
      var data: seq<byte> :| |data| < 0x1_0000_0000 && form.load(data).OutOfInput?;
      s := MessageOfPayload(data);
      forall t ensures !NotEof(decode, s, t) {
        PayloadEndsLoop(k, form, utf8, data, t);
      }
    } else {
      var name: seq<byte> :| 1 <= |name| < 0x100 && utf8.load(name).OutOfInput?;
      s := MessageOfName(name);
      forall t ensures !NotEof(decode, s, t) {
        NameEndsLoop(k, form, utf8, name, t);
      }
    }
    assert !SatisfiableAt(decode, s);
  }

  /** When the read loop of a node leaves through the branch for end of stream, bytes were missing: there are
      bytes with which it would have gone on. That holds of all streams exactly if no payload below 2^32
      bytes, and no text of 1 to 255 bytes, loads with `EOFError`. */
  lemma EofMeansShortExactly(k: nat, form: Form<Data>, utf8: Form<string>)
    requires Faithful(form) && Faithful(utf8) && utf8.load([]) == Loaded("")
    ensures Advancing(MessageCodec(BuildParts(k, DataCodec(form), utf8)).decode)
    ensures var decode := MessageCodec(BuildParts(k, DataCodec(form), utf8)).decode;
      && (Satisfiable(decode) <==> LoadsRaiseNoEof(form, utf8))
      && ((forall s :: !EndsForGood(decode, s)) <==> LoadsRaiseNoEof(form, utf8))
  {
    var c := BuildParts(k, DataCodec(form), utf8);
    FixedLawful(4, Little, false);
    BlobLawful(FixedInt(4), form);
    BuiltPartsAreLawful(k, DataCodec(form), utf8);
    MessageLawful(c);
    NeverForGoodExactly(MessageCodec(c).decode);
    if LoadsRaiseNoEof(form, utf8) {
      NodePartsSatisfiable(k, form, utf8);
      MessageSatisfiable(c);
    } else {
      EofPayloadUnsatisfiable(k, form, utf8);
    }
  }
}
