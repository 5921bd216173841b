/** src/rosy/codec.py: strings, opaque payloads, sequences and dicts, built from component codecs. */
module CompositeCodecs {
  import opened Streams

  /** What loading gives: a value, an `EOFError` as pickle raises it, or any other exception. */
  datatype Loaded<+T> = Loaded(value: T) | OutOfInput | Malformed {
    function Parsed(rest: seq<byte>): Parsed<T> {
      match this
      case Loaded(x) => Value(x, rest)
      case OutOfInput => Eof
      case Malformed => Invalid
    }
  }

  /** Library code seen from outside: UTF-8, pickle, orjson or msgpack. `dump` may raise. */
  datatype Form<!T> = Form(dump: T -> Option<seq<byte>>, load: seq<byte> -> Loaded<T>)

  ghost predicate Faithful<T(!new)>(f: Form<T>) {
    forall x :: f.dump(x).Some? ==> f.load(f.dump(x).value) == Loaded(x)
  }

  /** A dict as Python keeps it: distinct keys in insertion order. */
  type Dict<K, V> = d: seq<(K, V)> | DistinctKeys(d) witness []

  ghost predicate DistinctKeys<K, V>(d: seq<(K, V)>) {
    forall i, j :: 0 <= i < j < |d| ==> d[i].0 != d[j].0
  }

  /** Where the key k is, or the length of d if it is missing. */
  function IndexOf<K(==), V>(d: seq<(K, V)>, k: K): (i: nat)
    ensures i <= |d| && (i < |d| ==> d[i].0 == k)
    ensures forall j :: 0 <= j < i ==> d[j].0 != k
  {
    if d == [] || d[0].0 == k then 0 else 1 + IndexOf(d[1..], k)
  }

  /** `d[k] = v`: a known key keeps its place, a new one goes to the end. */
  function Put<K(==), V>(d: Dict<K, V>, k: K, v: V): Dict<K, V> {
    var i := IndexOf(d, k);
    if i < |d| then d[i := (k, v)] else d + [(k, v)]
  }

  /** `d.get(k)` */
  function Get<K(==), V>(d: Dict<K, V>, k: K): Option<V> {
    var i := IndexOf(d, k);
    if i < |d| then Some(d[i].1) else None
  }

  /** Afterwards the key has the new value, every other key what it had, all keys keep their places, and a
      new one is the last. */
  lemma PutStores<K(!new), V(!new)>(d: Dict<K, V>, k: K, v: V)
    ensures var r := Put(d, k, v);
      && (forall p :: p in r <==> p == (k, v) || (p in d && p.0 != k))
      && |d| <= |r| && (forall i :: 0 <= i < |d| ==> r[i].0 == d[i].0)
      && ((exists i :: 0 <= i < |d| && d[i].0 == k) ==> |r| == |d|)
      && ((forall i :: 0 <= i < |d| ==> d[i].0 != k) ==> |r| == |d| + 1 && r[|d|] == (k, v))
  {
    var i, r := IndexOf(d, k), Put(d, k, v);
    assert r[i] == (k, v);
    forall p | p in d && p.0 != k ensures p in r {
      var j :| 0 <= j < |d| && d[j] == p;
      assert r[j] == p;
    }
  }

  lemma GetFinds<K(!new), V(!new)>(d: Dict<K, V>, k: K)
    ensures forall v :: Get(d, k) == Some(v) <==> (k, v) in d
    ensures Get(d, k).None? <==> forall i :: 0 <= i < |d| ==> d[i].0 != k
  {
    forall v | (k, v) in d ensures Get(d, k) == Some(v) {
      var j :| 0 <= j < |d| && d[j] == (k, v);
      assert IndexOf(d, k) == j;
    }
  }

  // ---------- PickleCodec, JsonCodec, MsgpackCodec ----------

  function BlobEncode<T>(len: Codec<int>, form: Form<T>, x: T): Written {
    match form.dump(x)
    case Some(data) => len.encode(|data|).Then(Written(data, true))
    case None => Written([], false)
  }

  function BlobDecode<T>(len: Codec<int>, form: Form<T>, s: seq<byte>): Parsed<T> {
    var (n, rest) :- len.decode(s);
    var (data, rest') :- Read(n, rest);
    form.load(data).Parsed(rest')
  }

  function Blob<T>(len: Codec<int>, form: Form<T>): Codec<T> {
    Codec(x => BlobEncode(len, form, x), s => BlobDecode(len, form, s))
  }

  // ---------- LengthPrefixedStringCodec ----------

  function StringDecode(len: Codec<int>, text: Form<string>, s: seq<byte>): Parsed<string> {
    var (n, rest) :- len.decode(s);
    if n == 0 then Value("", rest)
    else
      var (data, rest') :- Read(n, rest);
      text.load(data).Parsed(rest')
  }

  function String(len: Codec<int>, text: Form<string>): Codec<string> {
    Codec(x => BlobEncode(len, text, x), s => StringDecode(len, text, s))
  }

  // ---------- SequenceCodec ----------

  function EncodeItems<T>(item: Codec<T>, xs: seq<T>): Written {
    if xs == [] then Written([], true)
    else item.encode(xs[0]).Then(EncodeItems(item, xs[1..]))
  }

  function DecodeItems<T>(item: Codec<T>, n: int, s: seq<byte>): Parsed<seq<T>> {
    if n <= 0 then Value([], s)
    else
      var (x, rest) :- item.decode(s);
      var (xs, rest') :- DecodeItems(item, n - 1, rest);
      Value([x] + xs, rest')
  }

  function SequenceDecode<T>(len: Codec<int>, item: Codec<T>, s: seq<byte>): Parsed<seq<T>> {
    var (n, rest) :- len.decode(s);
    DecodeItems(item, n, rest)
  }

  function Sequence<T>(len: Codec<int>, item: Codec<T>): Codec<seq<T>> {
    Codec(xs => len.encode(|xs|).Then(EncodeItems(item, xs)), s => SequenceDecode(len, item, s))
  }

  // ---------- DictCodec ----------

  function Pair<K, V>(key: Codec<K>, value: Codec<V>): Codec<(K, V)> {
    Codec((p: (K, V)) => key.encode(p.0).Then(value.encode(p.1)), s => PairDecode(key, value, s))
  }

  function PairDecode<K, V>(key: Codec<K>, value: Codec<V>, s: seq<byte>): Parsed<(K, V)> {
    var (k, rest) :- key.decode(s);
    var (v, rest') :- value.decode(rest);
    Value((k, v), rest')
  }

  /** Reads n entries into the dict `d`. */
  function DecodeEntries<K(==), V>(entry: Codec<(K, V)>, n: int, d: Dict<K, V>, s: seq<byte>): Parsed<Dict<K, V>>
    decreases if n < 0 then 0 else n
  {
    if n <= 0 then Value(d, s)
    else
      var (p, rest) :- entry.decode(s);
      DecodeEntries(entry, n - 1, Put(d, p.0, p.1), rest)
  }

  function DictDecode<K(==), V>(len: Codec<int>, key: Codec<K>, value: Codec<V>, s: seq<byte>): Parsed<Dict<K, V>> {
    var (n, rest) :- len.decode(s);
    DecodeEntries(Pair(key, value), n, [], rest)
  }

  function Dictionary<K(==), V>(len: Codec<int>, key: Codec<K>, value: Codec<V>): Codec<Dict<K, V>> {
    Codec((d: Dict<K, V>) => len.encode(|d|).Then(EncodeItems(Pair(key, value), d)),
          s => DictDecode(len, key, value, s))
  }

  // ---------- Laws ----------

  lemma BlobStreamsAt<T>(len: Codec<int>, form: Form<T>, s: seq<byte>, t: seq<byte>)
    requires Streaming(len.decode)
    ensures StreamsAt(Blob(len, form).decode, s, t)
  {
    assert StreamsAt(len.decode, s, t);
    if len.decode(s).Value? {
      ReadStreams(len.decode(s).value, len.decode(s).rest, t);
    }
  }

  lemma BlobRoundTripsAt<T(!new)>(len: Codec<int>, form: Form<T>, x: T, rest: seq<byte>)
    requires RoundTrips(len) && Faithful(form)
    ensures RoundTripsAt(Blob(len, form), x, rest)
  {
    if BlobEncode(len, form, x).ok {
      var data := form.dump(x).value;
      var header := len.encode(|data|).bytes;
      assert header + data + rest == header + (data + rest);
      assert RoundTripsAt(len, |data|, data + rest);
      ReadBack(data, rest);
    }
  }

  lemma BlobLawful<T(!new)>(len: Codec<int>, form: Form<T>)
    requires Lawful(len) && Faithful(form)
    ensures Lawful(Blob(len, form))
  {
    forall s, t ensures StreamsAt(Blob(len, form).decode, s, t) {
      BlobStreamsAt(len, form, s, t);
    }
    forall x, rest ensures RoundTripsAt(Blob(len, form), x, rest) {
      BlobRoundTripsAt(len, form, x, rest);
    }
  }

  lemma StringDecodesAsBlob(len: Codec<int>, text: Form<string>, s: seq<byte>)
    requires text.load([]) == Loaded("")
    ensures StringDecode(len, text, s) == BlobDecode(len, text, s)
  {
    if len.decode(s).Value? && len.decode(s).value == 0 {
      var rest := len.decode(s).rest;
      assert rest[..0] == [] && rest[0..] == rest;
    }
  }

  /** The empty-string shortcut of the string decoder is sound because no bytes mean "". */
  lemma StringLawful(len: Codec<int>, text: Form<string>)
    requires Lawful(len) && Faithful(text) && text.load([]) == Loaded("")
    ensures Lawful(String(len, text))
  {
    forall s, t ensures StreamsAt(String(len, text).decode, s, t) {
      BlobStreamsAt(len, text, s, t);
      StringDecodesAsBlob(len, text, s);
      StringDecodesAsBlob(len, text, s + t);
    }
    forall x, rest ensures RoundTripsAt(String(len, text), x, rest) {
      BlobRoundTripsAt(len, text, x, rest);
      StringDecodesAsBlob(len, text, BlobEncode(len, text, x).bytes + rest);
    }
  }

  lemma {:induction false} ItemsStreamAt<T>(item: Codec<T>, n: int, s: seq<byte>, t: seq<byte>)
    requires Streaming(item.decode)
    ensures Settled(DecodeItems(item, n, s), t, DecodeItems(item, n, s + t))
    ensures DecodeItems(item, n, s).Value? ==> IsSuffix(DecodeItems(item, n, s).rest, s)
    decreases if n < 0 then 0 else n
  {
    if n > 0 {
      assert StreamsAt(item.decode, s, t);
      if item.decode(s).Value? {
        ItemsStreamAt(item, n - 1, item.decode(s).rest, t);
      }
    }
  }

  lemma {:induction false} ItemsRoundTripAt<T(!new)>(item: Codec<T>, xs: seq<T>, rest: seq<byte>)
    requires RoundTrips(item) && EncodeItems(item, xs).ok
    ensures DecodeItems(item, |xs|, EncodeItems(item, xs).bytes + rest) == Value(xs, rest)
  {
    if xs == [] {
      assert [] + rest == rest;
    } else {
      var head, tail := item.encode(xs[0]).bytes, EncodeItems(item, xs[1..]).bytes;
      assert head + tail + rest == head + (tail + rest);
      assert RoundTripsAt(item, xs[0], tail + rest);
      ItemsRoundTripAt(item, xs[1..], rest);
      assert [xs[0]] + xs[1..] == xs;
    }
  }

  lemma SequenceLawful<T(!new)>(len: Codec<int>, item: Codec<T>)
    requires Lawful(len) && Lawful(item)
    ensures Lawful(Sequence(len, item))
  {
    forall s, t ensures StreamsAt(Sequence(len, item).decode, s, t) {
      assert StreamsAt(len.decode, s, t);
      if len.decode(s).Value? {
        ItemsStreamAt(item, len.decode(s).value, len.decode(s).rest, t);
      }
    }
    forall xs, rest ensures RoundTripsAt(Sequence(len, item), xs, rest) {
      if Sequence(len, item).encode(xs).ok {
        var header, body := len.encode(|xs|).bytes, EncodeItems(item, xs).bytes;
        assert header + body + rest == header + (body + rest);
        assert RoundTripsAt(len, |xs|, body + rest);
        ItemsRoundTripAt(item, xs, rest);
      }
    }
  }

  lemma PairLawful<K(!new), V(!new)>(key: Codec<K>, value: Codec<V>)
    requires Lawful(key) && Lawful(value)
    ensures Lawful(Pair(key, value))
  {
    forall s, t ensures StreamsAt(Pair(key, value).decode, s, t) {
      assert StreamsAt(key.decode, s, t);
      if key.decode(s).Value? {
        assert StreamsAt(value.decode, key.decode(s).rest, t);
      }
    }
    forall p, rest ensures RoundTripsAt(Pair(key, value), p, rest) {
      var a, b := key.encode(p.0).bytes, value.encode(p.1).bytes;
      assert a + b + rest == a + (b + rest);
      assert RoundTripsAt(key, p.0, b + rest) && RoundTripsAt(value, p.1, rest);
    }
  }

  lemma {:induction false} EntriesStreamAt<K, V>(entry: Codec<(K, V)>, n: int, d: Dict<K, V>, s: seq<byte>,
      t: seq<byte>)
    requires Streaming(entry.decode)
    ensures Settled(DecodeEntries(entry, n, d, s), t, DecodeEntries(entry, n, d, s + t))
    ensures DecodeEntries(entry, n, d, s).Value? ==> IsSuffix(DecodeEntries(entry, n, d, s).rest, s)
    decreases if n < 0 then 0 else n
  {
    if n > 0 {
      assert StreamsAt(entry.decode, s, t);
      if entry.decode(s).Value? {
        var Value(p, rest) := entry.decode(s);
        EntriesStreamAt(entry, n - 1, Put(d, p.0, p.1), rest, t);
      }
    }
  }

  lemma PutNext<K(!new), V(!new)>(d: Dict<K, V>, i: nat, front: Dict<K, V>)
    requires i < |d| && front == d[..i]
    ensures Put(front, d[i].0, d[i].1) == d[..i + 1]
  {
    assert IndexOf(front, d[i].0) == i;
    assert front + [d[i]] == d[..i + 1];
  }

  lemma ReadsOneEntry<K(!new), V(!new)>(entry: Codec<(K, V)>, n: nat, d: Dict<K, V>, next: Dict<K, V>, p: (K, V),
                                       bytes: seq<byte>, more: seq<byte>)
    requires RoundTrips(entry) && entry.encode(p).ok && n > 0
    requires next == Put(d, p.0, p.1) && bytes == entry.encode(p).bytes + more
    ensures DecodeEntries(entry, n, d, bytes) == DecodeEntries(entry, n - 1, next, more)
  {
    assert RoundTripsAt(entry, p, more);
  }

  lemma EncodeItemsFrom<T>(item: Codec<T>, xs: seq<T>, i: nat)
    requires i < |xs|
    ensures EncodeItems(item, xs[i..]) == item.encode(xs[i]).Then(EncodeItems(item, xs[i + 1..]))
  {
    assert xs[i..][0] == xs[i] && xs[i..][1..] == xs[i + 1..];
  }

  lemma ItemBytes<T>(item: Codec<T>, xs: seq<T>, i: nat, rest: seq<byte>)
    requires i < |xs| && EncodeItems(item, xs[i..]).ok
    ensures item.encode(xs[i]).ok && EncodeItems(item, xs[i + 1..]).ok
    ensures EncodeItems(item, xs[i..]).bytes + rest ==
      item.encode(xs[i]).bytes + (EncodeItems(item, xs[i + 1..]).bytes + rest)
  {
    EncodeItemsFrom(item, xs, i);
    var head, tail := item.encode(xs[i]).bytes, EncodeItems(item, xs[i + 1..]).bytes;
    assert head + tail + rest == head + (tail + rest);
  }

  /** Reading the entries of `d` back into a dict that has the first i of them. */
  lemma {:induction false} EntriesRoundTripAt<K(!new), V(!new)>(entry: Codec<(K, V)>, d: Dict<K, V>, i: nat,
                                                                front: Dict<K, V>, rest: seq<byte>)
    requires RoundTrips(entry) && i <= |d| && front == d[..i] && EncodeItems(entry, d[i..]).ok
    ensures DecodeEntries(entry, |d| - i, front, EncodeItems(entry, d[i..]).bytes + rest) == Value(d, rest)
    decreases |d| - i
  {
    if i == |d| {
      assert d[..i] == d && [] + rest == rest;
    } else {
      var next, more := Put(front, d[i].0, d[i].1), EncodeItems(entry, d[i + 1..]).bytes + rest;
      PutNext(d, i, front);
      ItemBytes(entry, d, i, rest);
      ReadsOneEntry(entry, |d| - i, front, next, d[i], EncodeItems(entry, d[i..]).bytes + rest, more);
      EntriesRoundTripAt(entry, d, i + 1, next, rest);
    }
  }

  lemma DictionaryLawful<K(!new), V(!new)>(len: Codec<int>, key: Codec<K>, value: Codec<V>)
    requires Lawful(len) && Lawful(key) && Lawful(value)
    ensures Lawful(Dictionary(len, key, value))
  {
    var entry := Pair(key, value);
    PairLawful(key, value);
    forall s, t ensures StreamsAt(Dictionary(len, key, value).decode, s, t) {
      assert StreamsAt(len.decode, s, t);
      if len.decode(s).Value? {
        EntriesStreamAt(entry, len.decode(s).value, [], len.decode(s).rest, t);
      }
    }
    forall d: Dict<K, V>, rest ensures RoundTripsAt(Dictionary(len, key, value), d, rest) {
      if Dictionary(len, key, value).encode(d).ok {
        assert d[0..] == d && d[..0] == [];
        var header, body := len.encode(|d|).bytes, EncodeItems(entry, d).bytes;
        assert header + body + rest == header + (body + rest);
        assert RoundTripsAt(len, |d|, body + rest);
        EntriesRoundTripAt(entry, d, 0, [], rest);
      }
    }
  }

  // ---------- Dicts with repeated keys ----------

  /** The value of the last entry with the key k. */
  function LastOf<K(==), V>(entries: seq<(K, V)>, k: K): Option<V> {
    if entries == [] then None
    else
      var last := entries[|entries| - 1];
      if last.0 == k then Some(last.1) else LastOf(entries[..|entries| - 1], k)
  }

  /** The keys in the order in which they first come up. */
  function FirstKeys<K(==), V>(entries: seq<(K, V)>): seq<K> {
    if entries == [] then []
    else
      var keys, last := FirstKeys(entries[..|entries| - 1]), entries[|entries| - 1].0;
      if last in keys then keys else keys + [last]
  }

  function KeysOf<K, V>(d: Dict<K, V>): seq<K> {
    seq(|d|, i requires 0 <= i < |d| => d[i].0)
  }

  /** As dicts, a and b have the same keys in the same order, and the same values. */
  ghost predicate SameEntries<K(!new), V>(a: seq<(K, V)>, b: seq<(K, V)>) {
    FirstKeys(a) == FirstKeys(b) && forall k :: LastOf(a, k) == LastOf(b, k)
  }

  lemma {:induction false} SameWithMore<K(!new), V(!new)>(a: seq<(K, V)>, b: seq<(K, V)>, more: seq<(K, V)>)
    requires SameEntries(a, b)
    ensures SameEntries(a + more, b + more)
    decreases |more|
  {
    if more == [] {
      assert a + more == a && b + more == b;
    } else {
      var front := more[..|more| - 1];
      SameWithMore(a, b, front);
      assert (a + more)[..|a + more| - 1] == a + front && (b + more)[..|b + more| - 1] == b + front;
    }
  }

  lemma {:induction false} DictIsItsEntries<K(!new), V(!new)>(d: Dict<K, V>)
    ensures FirstKeys(d) == KeysOf(d) && forall k :: LastOf(d, k) == Get(d, k)
    decreases |d|
  {
    if d != [] {
      var front: Dict<K, V>, last := d[..|d| - 1], d[|d| - 1];
      DictIsItsEntries(front);
      assert KeysOf(d) == KeysOf(front) + [last.0];
      forall k ensures LastOf(d, k) == Get(d, k) {
        GetFinds(d, k);
        GetFinds(front, k);
        if last.0 == k {
          assert (k, last.1) in d;
        } else if LastOf(d, k).Some? {
          assert (k, LastOf(d, k).value) in front;
        }
      }
    }
  }

  lemma PutIsOneMore<K(!new), V(!new)>(d: Dict<K, V>, p: (K, V), next: Dict<K, V>)
    requires next == Put(d, p.0, p.1)
    ensures SameEntries(next, d + [p])
  {
    var e := d + [p];
    assert e[..|e| - 1] == d;
    DictIsItsEntries(d);
    DictIsItsEntries(next);
    PutStores(d, p.0, p.1);
    assert KeysOf(next) == if p.0 in KeysOf(d) then KeysOf(d) else KeysOf(d) + [p.0] by {
      assert forall i :: 0 <= i < |d| ==> KeysOf(d)[i] == d[i].0;
    }
    forall k ensures LastOf(next, k) == LastOf(e, k) {
      GetFinds(d, k);
      GetFinds(next, k);
      if k == p.0 {
        assert p in next;
      } else if Get(d, k).Some? {
        assert (k, Get(d, k).value) in next;
      }
    }
  }

  lemma PutBefore<K(!new), V(!new)>(d: Dict<K, V>, p: (K, V), next: Dict<K, V>, more: seq<(K, V)>, r: seq<(K, V)>)
    requires next == Put(d, p.0, p.1) && SameEntries(r, next + more)
    ensures SameEntries(r, d + ([p] + more))
  {
    PutIsOneMore(d, p, next);
    SameWithMore(next, d + [p], more);
    assert d + ([p] + more) == d + [p] + more;
  }

  /** Reading entries into a dict comes to what reading them as a sequence gives: each key has the value of
      its last entry and the place of its first. */
  lemma {:induction false} EntriesAreLastWins<K(!new), V(!new)>(entry: Codec<(K, V)>, n: int, d: Dict<K, V>,
                                                                s: seq<byte>)
    ensures var read, out := DecodeItems(entry, n, s), DecodeEntries(entry, n, d, s);
      && (read.Value? <==> out.Value?) && (read.Eof? <==> out.Eof?)
      && (out.Value? ==> out.rest == read.rest && SameEntries(out.value, d + read.value))
    decreases if n < 0 then 0 else n
  {
    if n <= 0 {
      assert d + [] == d;
    } else if entry.decode(s).Value? {
      var Value(p, rest) := entry.decode(s);
      var next := Put(d, p.0, p.1);
      EntriesAreLastWins(entry, n - 1, next, rest);
      var read, out := DecodeItems(entry, n - 1, rest), DecodeEntries(entry, n - 1, next, rest);
      if read.Value? {
        PutBefore(d, p, next, read.value, out.value);
      }
    }
  }

  /** What a decoded dict holds: of every key the last value that was read, the keys in the order in which
      they were first read. */
  lemma DecodedDictIsLastWins<K(!new), V(!new)>(len: Codec<int>, key: Codec<K>, value: Codec<V>, s: seq<byte>)
    requires DictDecode(len, key, value, s).Value?
    ensures len.decode(s).Value?
    ensures var read := DecodeItems(Pair(key, value), len.decode(s).value, len.decode(s).rest);
      var d := DictDecode(len, key, value, s).value;
      && read.Value? && DictDecode(len, key, value, s).rest == read.rest
      && KeysOf(d) == FirstKeys(read.value)
      && forall k, v :: (k, v) in d <==> LastOf(read.value, k) == Some(v)
  {
    var entry, n, rest := Pair(key, value), len.decode(s).value, len.decode(s).rest;
    EntriesAreLastWins(entry, n, [], rest);
    var read, d := DecodeItems(entry, n, rest).value, DictDecode(len, key, value, s).value;
    assert [] + read == read;
    DictIsItsEntries(d);
    forall k, v ensures (k, v) in d <==> LastOf(read, k) == Some(v) {
      GetFinds(d, k);
    }
  }

  lemma {:induction false} EncodeItemsAppend<T>(item: Codec<T>, xs: seq<T>, ys: seq<T>)
    ensures EncodeItems(item, xs + ys) == EncodeItems(item, xs).Then(EncodeItems(item, ys))
  {
    if xs == [] {
      assert xs + ys == ys;
    } else {
      EncodeItemsAppend(item, xs[1..], ys);
      assert (xs + ys)[1..] == xs[1..] + ys;
      ThenAssociates(item.encode(xs[0]), EncodeItems(item, xs[1..]), EncodeItems(item, ys));
    }
  }

  /** One item further: either it is written behind the others, or the whole encoding ends there. */
  lemma EncodeItemsStep<T>(item: Codec<T>, xs: seq<T>, i: nat)
    requires i < |xs| && EncodeItems(item, xs[..i]).ok
    ensures var out := Written(EncodeItems(item, xs[..i]).bytes + item.encode(xs[i]).bytes, item.encode(xs[i]).ok);
      EncodeItems(item, xs[..i + 1]) == out && (!out.ok ==> EncodeItems(item, xs) == out)
  {
    assert xs[..i + 1] == xs[..i] + [xs[i]];
    EncodeItemsAppend(item, xs[..i], [xs[i]]);
    assert item.encode(xs[i]).bytes + [] == item.encode(xs[i]).bytes;
    assert EncodeItems(item, [xs[i]]) == item.encode(xs[i]);
    assert xs == xs[..i + 1] + xs[i + 1..];
    EncodeItemsAppend(item, xs[..i + 1], xs[i + 1..]);
  }

  lemma {:induction false} ItemsEncodable<T>(item: Codec<T>, xs: seq<T>)
    ensures EncodeItems(item, xs).ok <==> forall i :: 0 <= i < |xs| ==> item.encode(xs[i]).ok
  {
    if xs != [] {
      ItemsEncodable(item, xs[1..]);
      assert forall i :: 0 < i < |xs| ==> xs[i] == xs[1..][i - 1];
      assert forall i :: 0 <= i < |xs[1..]| ==> xs[1..][i] == xs[i + 1];
    }
  }

  /** A sequence is encodable iff its size and every item are. */
  lemma SequenceEncodable<T>(len: Codec<int>, item: Codec<T>, xs: seq<T>)
    ensures Sequence(len, item).encode(xs).ok <==>
      len.encode(|xs|).ok && forall i :: 0 <= i < |xs| ==> item.encode(xs[i]).ok
  {
    ItemsEncodable(item, xs);
  }

  /** A dict is encodable iff its size, every key and every value are. */
  lemma DictionaryEncodable<K, V>(len: Codec<int>, key: Codec<K>, value: Codec<V>, d: Dict<K, V>)
    ensures Dictionary(len, key, value).encode(d).ok <==>
      len.encode(|d|).ok && forall i :: 0 <= i < |d| ==> key.encode(d[i].0).ok && value.encode(d[i].1).ok
  {
    ItemsEncodable(Pair(key, value), d);
    forall i | 0 <= i < |d|
      ensures Pair(key, value).encode(d[i]).ok <==> key.encode(d[i].0).ok && value.encode(d[i].1).ok
    {
    }
  }

  // ---------- The codecs as they act on a writer and a reader ----------

  method EncodeString(w: BufferWriter, len: Codec<int>, text: Form<string>, x: string) returns (ok: bool)
    modifies w
    ensures ok == String(len, text).encode(x).ok
    ensures w.data == old(w.data) + String(len, text).encode(x).bytes
  {
    var data := text.dump(x);
    if data.None? {
      return false;
    }
    ok := w.Encode(len, |data.value|);
    if ok && data.value != [] {
      label headerWritten:
      w.Write(data.value);
      assert old@headerWritten(w.data) == old(w.data) + len.encode(|data.value|).bytes;
    }
  }

  method DecodeString(r: BufferReader, len: Codec<int>, text: Form<string>) returns (out: Parsed<string>)
    requires r.Valid() && Streaming(len.decode)
    modifies r
    ensures r.Valid()
    ensures out == String(len, text).decode(old(r.Remaining()))
    ensures var n := len.decode(old(r.Remaining())); n.Value? && n.value == 0 ==> out == Value("", n.rest)
    ensures out.Value? ==> r.Remaining() == out.rest
  {
    var n := r.Decode(len);
    if n.IsFailure() {
      return n.PropagateFailure();
    }
    if n.value == 0 {
      return Value("", r.Remaining());
    }
    var data := r.ReadExactly(n.value);
    if data.IsFailure() {
      return data.PropagateFailure();
    }
    return text.load(data.value).Parsed(r.Remaining());
  }

  method EncodeBlob<T(!new)>(w: BufferWriter, len: Codec<int>, form: Form<T>, x: T) returns (ok: bool)
    modifies w
    ensures ok == Blob(len, form).encode(x).ok
    ensures w.data == old(w.data) + Blob(len, form).encode(x).bytes
  {
    var data := form.dump(x);
    if data.None? {
      return false;
    }
    ok := w.Encode(len, |data.value|);
    if ok {
      label headerWritten:
      w.Write(data.value);
      assert old@headerWritten(w.data) == old(w.data) + len.encode(|data.value|).bytes;
    }
  }

  method DecodeBlob<T(!new)>(r: BufferReader, len: Codec<int>, form: Form<T>) returns (out: Parsed<T>)
    requires r.Valid() && Streaming(len.decode)
    modifies r
    ensures r.Valid()
    ensures out == Blob(len, form).decode(old(r.Remaining()))
    ensures out.Value? ==> r.Remaining() == out.rest
  {
    var n := r.Decode(len);
    if n.IsFailure() {
      return n.PropagateFailure();
    }
    var data := r.ReadExactly(n.value);
    if data.IsFailure() {
      return data.PropagateFailure();
    }
    return form.load(data.value).Parsed(r.Remaining());
  }

  method EncodeSequence<T(!new)>(w: BufferWriter, len: Codec<int>, item: Codec<T>, xs: seq<T>) returns (ok: bool)
    modifies w
    ensures ok == Sequence(len, item).encode(xs).ok
    ensures w.data == old(w.data) + Sequence(len, item).encode(xs).bytes
  {
    ok := w.Encode(len, |xs|);
    if !ok {
      return;
    }
    ghost var header := len.encode(|xs|).bytes;
    assert header + [] == header;
    for i := 0 to |xs|
      invariant ok && EncodeItems(item, xs[..i]).ok
      invariant w.data == old(w.data) + (header + EncodeItems(item, xs[..i]).bytes)
    {
      EncodeItemsStep(item, xs, i);
      ok := EncodeNext(w, item, xs[i], old(w.data), header, EncodeItems(item, xs[..i]).bytes);
      if !ok {
        return;
      }
    }
    assert xs[..|xs|] == xs;
  }

  method EncodeNext<T>(w: BufferWriter, item: Codec<T>, x: T, ghost before: seq<byte>, ghost header: seq<byte>,
                       ghost body: seq<byte>)
    returns (ok: bool)
    requires w.data == before + (header + body)
    modifies w
    ensures ok == item.encode(x).ok && w.data == before + (header + (body + item.encode(x).bytes))
  {
    ok := w.Encode(item, x);
    assert before + (header + body) + item.encode(x).bytes == before + (header + (body + item.encode(x).bytes));
  }

  /** What the reading of a sequence gives once `xs` have been read and `more` is what is read next. */
  ghost function ReadAfter<T>(xs: seq<T>, more: Parsed<seq<T>>): Parsed<seq<T>> {
    if more.Value? then Value(xs + more.value, more.rest) else more
  }

  lemma StartedBy<T>(whole: Parsed<seq<T>>)
    ensures whole == ReadAfter([], whole)
  {
    if whole.Value? {
      assert [] + whole.value == whole.value;
    }
  }

  lemma OneMoreRead<T>(xs: seq<T>, x: T, more: Parsed<seq<T>>)
    ensures ReadAfter(xs, ReadAfter([x], more)) == ReadAfter(xs + [x], more)
  {
    if more.Value? {
      assert xs + ([x] + more.value) == (xs + [x]) + more.value;
    }
  }

  method DecodeSequence<T(!new)>(r: BufferReader, len: Codec<int>, item: Codec<T>) returns (out: Parsed<seq<T>>)
    requires r.Valid() && Streaming(len.decode) && Streaming(item.decode)
    modifies r
    ensures r.Valid()
    ensures out == Sequence(len, item).decode(old(r.Remaining()))
    ensures out.Value? ==> r.Remaining() == out.rest
  {
    var n := r.Decode(len);
    if n.IsFailure() {
      return n.PropagateFailure();
    }
    var xs: seq<T> := [];
    var left := n.value;
    ghost var whole := DecodeItems(item, n.value, r.Remaining());
    ghost var more := whole;
    StartedBy(whole);
    while left > 0
      invariant r.Valid() && more == DecodeItems(item, left, r.Remaining())
      invariant whole == ReadAfter(xs, more)
      decreases left
    {
      var x := r.Decode(item);
      if x.IsFailure() {
        return x.PropagateFailure();
      }
      more := DecodeItems(item, left - 1, r.Remaining());
      OneMoreRead(xs, x.value, more);
      xs, left := xs + [x.value], left - 1;
    }
    assert xs + [] == xs;
    return Value(xs, r.Remaining());
  }

  method EncodeDict<K(!new, ==), V(!new)>(w: BufferWriter, len: Codec<int>, key: Codec<K>, value: Codec<V>,
                                          d: Dict<K, V>)
    returns (ok: bool)
    modifies w
    ensures ok == Dictionary(len, key, value).encode(d).ok
    ensures w.data == old(w.data) + Dictionary(len, key, value).encode(d).bytes
  {
    ok := EncodeSequence(w, len, Pair(key, value), d);
  }

  method DecodeEntry<K, V>(r: BufferReader, key: Codec<K>, value: Codec<V>) returns (out: Parsed<(K, V)>)
    requires r.Valid() && Streaming(key.decode) && Streaming(value.decode)
    modifies r
    ensures r.Valid()
    ensures out == Pair(key, value).decode(old(r.Remaining()))
    ensures out.Value? ==> r.Remaining() == out.rest
  {
    var k := r.Decode(key);
    if k.IsFailure() {
      return k.PropagateFailure();
    }
    var v := r.Decode(value);
    if v.IsFailure() {
      return v.PropagateFailure();
    }
    return Value((k.value, v.value), r.Remaining());
  }

  method DecodeDict<K(!new, ==), V(!new)>(r: BufferReader, len: Codec<int>, key: Codec<K>, value: Codec<V>)
    returns (out: Parsed<Dict<K, V>>)
    requires r.Valid() && Streaming(len.decode) && Streaming(key.decode) && Streaming(value.decode)
    modifies r
    ensures r.Valid()
    ensures out == Dictionary(len, key, value).decode(old(r.Remaining()))
    ensures out.Value? ==> r.Remaining() == out.rest
    ensures out.Value? ==>
      var n := len.decode(old(r.Remaining()));
      var read := DecodeItems(Pair(key, value), n.value, n.rest);
      && read.Value? && KeysOf(out.value) == FirstKeys(read.value)
      && forall k, v :: (k, v) in out.value <==> LastOf(read.value, k) == Some(v)
  {
    ghost var start := r.Remaining();
    var n := r.Decode(len);
    if n.IsFailure() {
      return n.PropagateFailure();
    }
    var result: Dict<K, V> := [];
    var left := n.value;
    ghost var entry := Pair(key, value);
    ghost var whole := DecodeEntries(entry, n.value, [], r.Remaining());
    while left > 0
      invariant r.Valid()
      invariant whole == DecodeEntries(entry, left, result, r.Remaining())
      decreases left
    {
      var p := DecodeEntry(r, key, value);
      if p.IsFailure() {
        return p.PropagateFailure();
      }
      result, left := Put(result, p.value.0, p.value.1), left - 1;
    }
    DecodedDictIsLastWins(len, key, value, start);
    return Value(result, r.Remaining());
  }
}
