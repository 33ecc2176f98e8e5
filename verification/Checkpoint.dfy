/** Signed checkpoints of the event chain: what is signed, what is written, and what is read back. */
module Checkpoint {
  import opened Common
  import opened Decimal
  import opened Hex
  import opened Timestamp
  import Json
  import Utf8

  type Hash = h: Bytes | |h| == 32 witness seq(32, _ => 0)

  datatype StreamHead = StreamHead(streamId: string, position: nat, hash: Hash)

  datatype SealedStream = SealedStream(streamId: string, hash: Hash)

  datatype Checkpoint = Checkpoint(
    version: string,
    sequence: nat,
    createdAt: DateTime,
    heads: seq<StreamHead>,
    sealed: seq<SealedStream>)

  datatype Baseline = Baseline(maxPosition: nat, migratedAt: DateTime)

  /** A checkpoint and the unsigned notes written beside it. */
  datatype ToEmit = ToEmit(checkpoint: Checkpoint, maxGlobalPosition: nat, baseline: Option<Baseline>)

  /** Within the ranges of the source's types: 64-bit numbers and instants that exist. */
  ghost predicate InRange(c: Checkpoint) {
    c.sequence <= U64_MAX && Valid(c.createdAt) && forall i :: 0 <= i < |c.heads| ==> c.heads[i].position <= U64_MAX
  }

  // ----- Wire form -------------------------------------------------------------------------------

  datatype HeadWire = HeadWire(streamId: string, position: nat, hash: string)

  datatype SealedWire = SealedWire(streamId: string, hash: string)

  datatype Body = Body(version: string, sequence: nat, createdAt: DateTime, heads: seq<HeadWire>, sealed: seq<SealedWire>)

  datatype Wire = Wire(body: Body, signature: string)

  ghost predicate WellFormed(b: Body) {
    b.sequence <= U64_MAX && Valid(b.createdAt) && forall i :: 0 <= i < |b.heads| ==> b.heads[i].position <= U64_MAX
  }

  function HeadToWire(h: StreamHead): HeadWire {
    HeadWire(h.streamId, h.position, HexOf(h.hash))
  }

  function SealedToWire(s: SealedStream): SealedWire {
    SealedWire(s.streamId, HexOf(s.hash))
  }

  function HeadsWire(heads: seq<StreamHead>): (r: seq<HeadWire>)
    ensures |r| == |heads| && forall i :: 0 <= i < |r| ==> r[i] == HeadToWire(heads[i])
  {
    seq(|heads|, i requires 0 <= i < |heads| => HeadToWire(heads[i]))
  }

  function SealedsWire(sealed: seq<SealedStream>): (r: seq<SealedWire>)
    ensures |r| == |sealed| && forall i :: 0 <= i < |r| ==> r[i] == SealedToWire(sealed[i])
  {
    seq(|sealed|, i requires 0 <= i < |sealed| => SealedToWire(sealed[i]))
  }

  function BodyOf(c: Checkpoint): Body {
    Body(c.version, c.sequence, c.createdAt, HeadsWire(c.heads), SealedsWire(c.sealed))
  }

  // ----- JSON ------------------------------------------------------------------------------------

  type Pair = (string, Json.Value)

  function FieldsOf(pairs: seq<Pair>): Json.Fields {
    if pairs == [] then Json.NoFields else Json.Field(pairs[0].0, pairs[0].1, FieldsOf(pairs[1..]))
  }

  function HeadPairs(h: HeadWire): seq<Pair> {
    [("stream_id", Json.Text(h.streamId)),
     ("final_stream_position", Json.Number(h.position)),
     ("head_event_hash", Json.Text(h.hash))]
  }

  function SealedPairs(s: SealedWire): seq<Pair> {
    [("sealed_stream_id", Json.Text(s.streamId)), ("final_event_hash", Json.Text(s.hash))]
  }

  function HeadJson(h: HeadWire): Json.Value {
    Json.Object(FieldsOf(HeadPairs(h)))
  }

  function SealedJson(s: SealedWire): Json.Value {
    Json.Object(FieldsOf(SealedPairs(s)))
  }

  function HeadItems(heads: seq<HeadWire>): Json.Items {
    if heads == [] then Json.NoItems else Json.Item(HeadJson(heads[0]), HeadItems(heads[1..]))
  }

  function SealedItems(sealed: seq<SealedWire>): Json.Items {
    if sealed == [] then Json.NoItems else Json.Item(SealedJson(sealed[0]), SealedItems(sealed[1..]))
  }

  /** The signed fields in declaration order. */
  function BodyPairs(b: Body): (r: seq<Pair>)
    ensures |r| == 5
  {
    [("chain_format_version", Json.Text(b.version)),
     ("checkpoint_seq", Json.Number(b.sequence)),
     ("created_at", Json.Text(InstantText(b.createdAt))),
     ("stream_heads", Json.List(HeadItems(b.heads))),
     ("sealed_streams", Json.List(SealedItems(b.sealed)))]
  }

  function ToVec(v: Json.Value): Bytes {
    Utf8.Encode(Json.Print(v))
  }

  /** The bytes a signature covers. */
  function SignedBytes(b: Body): Bytes {
    ToVec(Json.Object(FieldsOf(BodyPairs(b))))
  }

  function BaselinePairs(baseline: Option<Baseline>): seq<Pair> {
    if baseline == None then []
    else
      [("backfill_baseline", Json.Bool(true)),
       ("baseline_max_global_position", Json.Number(baseline.value.maxPosition)),
       ("migration_timestamp", Json.Text(InstantText(baseline.value.migratedAt)))]
  }

  /** What the emitter writes after the signed fields: the signature and the unsigned notes. */
  function NotePairs(e: ToEmit, signature: string): seq<Pair> {
    [("signature", Json.Text(signature)), ("max_global_position", Json.Number(e.maxGlobalPosition))]
    + BaselinePairs(e.baseline)
  }

  function DocumentPairs(e: ToEmit, signature: string): seq<Pair> {
    BodyPairs(BodyOf(e.checkpoint)) + NotePairs(e, signature)
  }

  // ----- Injectivity -----------------------------------------------------------------------------

  lemma ToVecInjective(v: Json.Value, v': Json.Value)
    requires ToVec(v) == ToVec(v')
    ensures v == v'
  {
    Utf8.DecodeEncoded(Json.Print(v));
    Utf8.DecodeEncoded(Json.Print(v'));
    Json.PrintInjective(v, v');
  }

  lemma {:induction false} HeadItemsInjective(a: seq<HeadWire>, b: seq<HeadWire>)
    requires HeadItems(a) == HeadItems(b)
    ensures a == b
  {
    if a != [] && b != [] {
      var p, p' := HeadPairs(a[0]), HeadPairs(b[0]);
      FieldsOfInjective(p, p');
      assert p[0].1 == p'[0].1 && p[1].1 == p'[1].1 && p[2].1 == p'[2].1;
      HeadItemsInjective(a[1..], b[1..]);
      assert a == [a[0]] + a[1..] && b == [b[0]] + b[1..];
    }
  }

  lemma {:induction false} SealedItemsInjective(a: seq<SealedWire>, b: seq<SealedWire>)
    requires SealedItems(a) == SealedItems(b)
    ensures a == b
  {
    if a != [] && b != [] {
      var p, p' := SealedPairs(a[0]), SealedPairs(b[0]);
      FieldsOfInjective(p, p');
      assert p[0].1 == p'[0].1 && p[1].1 == p'[1].1;
      SealedItemsInjective(a[1..], b[1..]);
      assert a == [a[0]] + a[1..] && b == [b[0]] + b[1..];
    }
  }

  lemma {:induction false} FieldsOfInjective(a: seq<Pair>, b: seq<Pair>)
    requires FieldsOf(a) == FieldsOf(b)
    ensures a == b
  {
    if a != [] && b != [] {
      FieldsOfInjective(a[1..], b[1..]);
      assert a == [a[0]] + a[1..] && b == [b[0]] + b[1..];
    }
  }

  lemma BodyPairsInjective(b: Body, b': Body)
    requires Valid(b.createdAt) && Valid(b'.createdAt) && BodyPairs(b) == BodyPairs(b')
    ensures b == b'
  {
    var p, p' := BodyPairs(b), BodyPairs(b');
    assert p[0].1 == p'[0].1 && p[1].1 == p'[1].1 && p[2].1 == p'[2].1 && p[3].1 == p'[3].1 && p[4].1 == p'[4].1;
    InstantTextInjective(b.createdAt, b'.createdAt);
    HeadItemsInjective(b.heads, b'.heads);
    SealedItemsInjective(b.sealed, b'.sealed);
  }

  /** The signed bytes determine the signed fields. */
  lemma SignedBytesInjective(b: Body, b': Body)
    requires Valid(b.createdAt) && Valid(b'.createdAt)
    ensures SignedBytes(b) == SignedBytes(b') <==> b == b'
  {
    if SignedBytes(b) == SignedBytes(b') {
      ToVecInjective(Json.Object(FieldsOf(BodyPairs(b))), Json.Object(FieldsOf(BodyPairs(b'))));
      FieldsOfInjective(BodyPairs(b), BodyPairs(b'));
      BodyPairsInjective(b, b');
    }
  }

  // ----- Back to the domain ----------------------------------------------------------------------

  /** A hash is 64 hex digits in either case. */
  function ParseHash(s: string): (r: Option<Hash>) {
    var raw := HexDecode(s);
    if raw.Some? && |raw.value| == 32 then Some(raw.value) else None
  }

  function HeadOf(h: HeadWire): Option<StreamHead> {
    var hash := ParseHash(h.hash);
    if hash == None then None else Some(StreamHead(h.streamId, h.position, hash.value))
  }

  function SealedOf(s: SealedWire): Option<SealedStream> {
    var hash := ParseHash(s.hash);
    if hash == None then None else Some(SealedStream(s.streamId, hash.value))
  }

  function HeadsOf(heads: seq<HeadWire>): Option<seq<StreamHead>> {
    if heads == [] then Some([])
    else
      var front, last := HeadsOf(heads[..|heads| - 1]), HeadOf(heads[|heads| - 1]);
      if front == None || last == None then None else Some(front.value + [last.value])
  }

  function SealedsOf(sealed: seq<SealedWire>): Option<seq<SealedStream>> {
    if sealed == [] then Some([])
    else
      var front, last := SealedsOf(sealed[..|sealed| - 1]), SealedOf(sealed[|sealed| - 1]);
      if front == None || last == None then None else Some(front.value + [last.value])
  }

  function DomainOf(b: Body): Option<Checkpoint> {
    var heads, sealed := HeadsOf(b.heads), SealedsOf(b.sealed);
    if heads == None || sealed == None then None
    else Some(Checkpoint(b.version, b.sequence, b.createdAt, heads.value, sealed.value))
  }

  lemma HeadRoundTrip(h: StreamHead)
    ensures HeadOf(HeadToWire(h)) == Some(h)
  {
    HexRoundTrip(h.hash);
  }

  lemma SealedRoundTrip(s: SealedStream)
    ensures SealedOf(SealedToWire(s)) == Some(s)
  {
    HexRoundTrip(s.hash);
  }

  lemma {:induction false} HeadsOfEach(wires: seq<HeadWire>, heads: seq<StreamHead>)
    requires |wires| == |heads| && forall i :: 0 <= i < |heads| ==> HeadOf(wires[i]) == Some(heads[i])
    ensures HeadsOf(wires) == Some(heads)
  {
    if heads != [] {
      HeadsOfEach(wires[..|wires| - 1], heads[..|heads| - 1]);
      assert heads == heads[..|heads| - 1] + [heads[|heads| - 1]];
    }
  }

  lemma {:induction false} SealedsOfEach(wires: seq<SealedWire>, sealed: seq<SealedStream>)
    requires |wires| == |sealed| && forall i :: 0 <= i < |sealed| ==> SealedOf(wires[i]) == Some(sealed[i])
    ensures SealedsOf(wires) == Some(sealed)
  {
    if sealed != [] {
      SealedsOfEach(wires[..|wires| - 1], sealed[..|sealed| - 1]);
      assert sealed == sealed[..|sealed| - 1] + [sealed[|sealed| - 1]];
    }
  }

  lemma HeadsRoundTrip(heads: seq<StreamHead>)
    ensures HeadsOf(HeadsWire(heads)) == Some(heads)
  {
    forall i | 0 <= i < |heads| ensures HeadOf(HeadsWire(heads)[i]) == Some(heads[i]) {
      HeadRoundTrip(heads[i]);
    }
    HeadsOfEach(HeadsWire(heads), heads);
  }

  lemma SealedsRoundTrip(sealed: seq<SealedStream>)
    ensures SealedsOf(SealedsWire(sealed)) == Some(sealed)
  {
    forall i | 0 <= i < |sealed| ensures SealedOf(SealedsWire(sealed)[i]) == Some(sealed[i]) {
      SealedRoundTrip(sealed[i]);
    }
    SealedsOfEach(SealedsWire(sealed), sealed);
  }

  lemma DomainRoundTrip(c: Checkpoint)
    ensures DomainOf(BodyOf(c)) == Some(c)
  {
    HeadsRoundTrip(c.heads);
    SealedsRoundTrip(c.sealed);
  }

  /** Two checkpoints are signed alike exactly when they are the same checkpoint. */
  lemma SignedAlikeExactly(c: Checkpoint, c': Checkpoint)
    requires Valid(c.createdAt) && Valid(c'.createdAt)
    ensures SignedBytes(BodyOf(c)) == SignedBytes(BodyOf(c')) <==> c == c'
  {
    if SignedBytes(BodyOf(c)) == SignedBytes(BodyOf(c')) {
      SignedBytesInjective(BodyOf(c), BodyOf(c'));
      DomainRoundTrip(c);
      DomainRoundTrip(c');
    }
  }
}
