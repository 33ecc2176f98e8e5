/** The anchor store: emitting signed checkpoints and reading back those that verify. */
module CheckpointAnchor {
  import opened Common
  import opened Decimal
  import opened Hex
  import opened Timestamp
  import opened Rfc3339
  import opened Text
  import opened Checkpoint
  import opened CheckpointWire
  import opened ObjectListing
  import Json

  // ----- Signatures ------------------------------------------------------------------------------

  /** A key pair's two halves as functions. */
  datatype Scheme = Scheme(sign: Bytes -> Bytes, verify: (Bytes, Bytes) -> bool)

  /** A signature made on `c` is 64 bytes long and verifies. */
  ghost predicate Signs(scheme: Scheme, c: Checkpoint) {
    var message := SignedBytes(BodyOf(c));
    |scheme.sign(message)| == 64 && scheme.verify(message, scheme.sign(message))
  }

  // ----- One document ----------------------------------------------------------------------------

  function Document(scheme: Scheme, e: ToEmit): Bytes {
    var signature := HexOf(scheme.sign(SignedBytes(BodyOf(e.checkpoint))));
    ToVec(Json.Object(FieldsOf(DocumentPairs(e, signature))))
  }

  predicate SignatureHolds(scheme: Scheme, wire: Wire) {
    var signature := HexDecode(wire.signature);
    signature.Some? && |signature.value| == 64 && scheme.verify(SignedBytes(wire.body), signature.value)
  }

  function Verified(scheme: Scheme, wire: Wire): Option<Checkpoint> {
    if SignatureHolds(scheme, wire) then DomainOf(wire.body) else None
  }

  /** What an object stands for: a checkpoint, or nothing at all. */
  function Accepted(reader: Reader, scheme: Scheme, bytes: Bytes): Option<Checkpoint> {
    var wire := reader(bytes);
    if wire == None then None else Verified(scheme, wire.value)
  }

  /** Check the signature, then turn the hashes from hex into bytes, head by head. */
  method VerifyAndIntoDomain(scheme: Scheme, wire: Wire) returns (r: Option<Checkpoint>)
    ensures r == Verified(scheme, wire)
  {
    if !SignatureHolds(scheme, wire) {
      return None;
    }
    var body := wire.body;
    var heads: seq<StreamHead> := [];
    for i := 0 to |body.heads|
      invariant HeadsOf(body.heads[..i]) == Some(heads)
    {
      HeadsOfStep(body.heads, i);
      var hash := ParseHash(body.heads[i].hash);
      if hash == None {
        HeadsOfBroken(body.heads, i + 1);
        return None;
      }
      heads := heads + [StreamHead(body.heads[i].streamId, body.heads[i].position, hash.value)];
    }
    assert body.heads[..|body.heads|] == body.heads;
    var sealed: seq<SealedStream> := [];
    for i := 0 to |body.sealed|
      invariant SealedsOf(body.sealed[..i]) == Some(sealed)
    {
      SealedsOfStep(body.sealed, i);
      var hash := ParseHash(body.sealed[i].hash);
      if hash == None {
        SealedsOfBroken(body.sealed, i + 1);
        return None;
      }
      sealed := sealed + [SealedStream(body.sealed[i].streamId, hash.value)];
    }
    assert body.sealed[..|body.sealed|] == body.sealed;
    return Some(Checkpoint(body.version, body.sequence, body.createdAt, heads, sealed));
  }

  lemma HeadsOfStep(heads: seq<HeadWire>, i: nat)
    requires i < |heads|
    ensures HeadsOf(heads[..i + 1]) ==
            if HeadsOf(heads[..i]) == None || HeadOf(heads[i]) == None then None
            else Some(HeadsOf(heads[..i]).value + [HeadOf(heads[i]).value])
  {
    assert heads[..i + 1][..i] == heads[..i];
  }

  lemma SealedsOfStep(sealed: seq<SealedWire>, i: nat)
    requires i < |sealed|
    ensures SealedsOf(sealed[..i + 1]) ==
            if SealedsOf(sealed[..i]) == None || SealedOf(sealed[i]) == None then None
            else Some(SealedsOf(sealed[..i]).value + [SealedOf(sealed[i]).value])
  {
    assert sealed[..i + 1][..i] == sealed[..i];
  }

  lemma {:induction false} HeadsOfBroken(heads: seq<HeadWire>, i: nat)
    requires i <= |heads| && HeadsOf(heads[..i]) == None
    ensures HeadsOf(heads) == None
    decreases |heads| - i
  {
    if i < |heads| {
      HeadsOfStep(heads, i);
      HeadsOfBroken(heads, i + 1);
    } else {
      assert heads[..i] == heads;
    }
  }

  lemma {:induction false} SealedsOfBroken(sealed: seq<SealedWire>, i: nat)
    requires i <= |sealed| && SealedsOf(sealed[..i]) == None
    ensures SealedsOf(sealed) == None
    decreases |sealed| - i
  {
    if i < |sealed| {
      SealedsOfStep(sealed, i);
      SealedsOfBroken(sealed, i + 1);
    } else {
      assert sealed[..i] == sealed;
    }
  }

  /** Whatever the unsigned notes hold, an emitted document reads back as exactly its checkpoint. */
  lemma EmittedReadsBack(reader: Reader, scheme: Scheme, e: ToEmit)
    requires IsReader(reader) && InRange(e.checkpoint) && Signs(scheme, e.checkpoint)
    ensures Accepted(reader, scheme, Document(scheme, e)) == Some(e.checkpoint)
  {
    var signature := scheme.sign(SignedBytes(BodyOf(e.checkpoint)));
    ReadWrittenDocument(e, HexOf(signature));
    DocumentWithin(e, HexOf(signature));
    HexRoundTrip(signature);
    DomainRoundTrip(e.checkpoint);
  }

  // ----- Reading the whole store -----------------------------------------------------------------

  function Accept(reader: Reader, scheme: Scheme): Bytes -> Option<Checkpoint> {
    bytes => Accepted(reader, scheme, bytes)
  }

  /**
   Reading the anchor: it fails exactly when the store does, and a document that does not read or
   verify is passed over.
   */
  method ReadAll(reader: Reader, scheme: Scheme, listing: seq<Listed>) returns (r: Option<seq<Checkpoint>>)
    ensures r == ReadOf(Accept(reader, scheme), listing)
  {
    ghost var accept := Accept(reader, scheme);
    var out: seq<Checkpoint> := [];
    for i := 0 to |listing|
      invariant AllFetched(listing[..i]) && out == AllAccepted(accept, listing[..i])
    {
      if !listing[i].Found? {
        return None;
      }
      ReadOneMore(accept, listing, i);
      var checkpoint := ReadOne(reader, scheme, listing[i].bytes);
      if checkpoint.Some? {
        out := out + [checkpoint.value];
      }
    }
    assert listing[..|listing|] == listing;
    return Some(out);
  }

  /** Parse and verify one object. */
  method ReadOne(reader: Reader, scheme: Scheme, bytes: Bytes) returns (r: Option<Checkpoint>)
    ensures r == Accepted(reader, scheme, bytes)
  {
    var wire := reader(bytes);
    if wire == None {
      return None;
    }
    r := VerifyAndIntoDomain(scheme, wire.value);
  }

  // ----- Authenticity ----------------------------------------------------------------------------

  /** No signature verifies but on the messages of `emitted`. */
  ghost predicate Unforgeable(scheme: Scheme, emitted: set<Checkpoint>) {
    forall message, signature :: scheme.verify(message, signature) ==>
      exists c :: c in emitted && Valid(c.createdAt) && message == SignedBytes(BodyOf(c))
  }

  lemma AcceptedWasEmitted(reader: Reader, scheme: Scheme, emitted: set<Checkpoint>, bytes: Bytes)
    requires IsReader(reader) && Unforgeable(scheme, emitted) && Accepted(reader, scheme, bytes).Some?
    ensures Accepted(reader, scheme, bytes).value in emitted
  {
    var wire := reader(bytes).value;
    var signature := HexDecode(wire.signature).value;
    assert scheme.verify(SignedBytes(wire.body), signature);
    var c :| c in emitted && Valid(c.createdAt) && SignedBytes(wire.body) == SignedBytes(BodyOf(c));
    SignedBytesInjective(wire.body, BodyOf(c));
    DomainRoundTrip(c);
  }

  /** Whatever bytes the store holds, every checkpoint read from it was emitted. */
  lemma {:induction false} ReadsAreAuthentic(reader: Reader, scheme: Scheme, emitted: set<Checkpoint>, listing: seq<Listed>)
    requires IsReader(reader) && Unforgeable(scheme, emitted)
    ensures forall c :: c in AllAccepted(Accept(reader, scheme), listing) ==> c in emitted
  {
    if listing != [] {
      ReadsAreAuthentic(reader, scheme, emitted, listing[..|listing| - 1]);
      var last := listing[|listing| - 1];
      if last.Found? && Accepted(reader, scheme, last.bytes).Some? {
        AcceptedWasEmitted(reader, scheme, emitted, last.bytes);
      }
    }
  }

  // ----- Emitting --------------------------------------------------------------------------------

  const KEY_PREFIX := "hort-event-chain-checkpoints/"
  const KEY_SUFFIX := ".json"

  function SequenceTail(sequence: nat): string {
    ['-'] + (Digits(sequence) + KEY_SUFFIX)
  }

  function ObjectKey(c: Checkpoint): string {
    KEY_PREFIX + (SecondText(c.createdAt) + SequenceTail(c.sequence))
  }

  lemma SamePrefix<T>(prefix: seq<T>, a: seq<T>, b: seq<T>)
    requires prefix + a == prefix + b
    ensures a == b
  {
    assert a == (prefix + a)[|prefix|..] && b == (prefix + b)[|prefix|..];
  }

  lemma SameSuffix<T>(a: seq<T>, b: seq<T>, suffix: seq<T>)
    requires a + suffix == b + suffix
    ensures a == b
  {
    assert |a + suffix| == |b + suffix|;
    assert a == (a + suffix)[..|a|] && b == (b + suffix)[..|b|];
  }

  lemma TailsEqual(n: nat, n': nat)
    requires SequenceTail(n) == SequenceTail(n')
    ensures n == n'
  {
    SamePrefix(['-'], Digits(n) + KEY_SUFFIX, Digits(n') + KEY_SUFFIX);
    SameSuffix(Digits(n), Digits(n'), KEY_SUFFIX);
    DigitsInjective(n, n');
  }

  /** Object keys tell checkpoints apart exactly by second and sequence number. */
  lemma KeysEqualExactly(c: Checkpoint, c': Checkpoint)
    requires Valid(c.createdAt) && Valid(c'.createdAt)
    ensures ObjectKey(c) == ObjectKey(c') <==> SameSecond(c.createdAt, c'.createdAt) && c.sequence == c'.sequence
  {
    var tail, tail' := SequenceTail(c.sequence), SequenceTail(c'.sequence);
    if ObjectKey(c) == ObjectKey(c') {
      SamePrefix(KEY_PREFIX, SecondText(c.createdAt) + tail, SecondText(c'.createdAt) + tail');
      SecondTextSplits(c.createdAt, tail, c'.createdAt, tail');
      TailsEqual(c.sequence, c'.sequence);
    }
  }

  /** For years of four digits, keys sort by second. */
  lemma KeysSortBySecond(c: Checkpoint, c': Checkpoint)
    requires Valid(c.createdAt) && Valid(c'.createdAt) && 0 <= c.createdAt.year < 10_000 && 0 <= c'.createdAt.year < 10_000
    requires !SameSecond(c.createdAt, c'.createdAt)
    ensures LexLeq(ObjectKey(c), ObjectKey(c')) <==> NoLater(c.createdAt, c'.createdAt)
  {
    var text, text' := SecondText(c.createdAt) + SequenceTail(c.sequence), SecondText(c'.createdAt) + SequenceTail(c'.sequence);
    LexConcat(KEY_PREFIX, KEY_PREFIX, text, text');
    SecondsSort(c.createdAt, SequenceTail(c.sequence), c'.createdAt, SequenceTail(c'.sequence));
  }

  ghost predicate Apart(list: seq<ToEmit>) {
    && (forall i :: 0 <= i < |list| ==> InRange(list[i].checkpoint))
    && forall i, j :: 0 <= i < j < |list| ==>
         !(SameSecond(list[i].checkpoint.createdAt, list[j].checkpoint.createdAt)
           && list[i].checkpoint.sequence == list[j].checkpoint.sequence)
  }

  ghost function Puts(scheme: Scheme, list: seq<ToEmit>): (r: seq<Put<Checkpoint>>)
    ensures |r| == |list|
    ensures forall i :: 0 <= i < |r| ==> r[i] == Put(ObjectKey(list[i].checkpoint), Document(scheme, list[i]), list[i].checkpoint)
  {
    seq(|list|, i requires 0 <= i < |list| => Put(ObjectKey(list[i].checkpoint), Document(scheme, list[i]), list[i].checkpoint))
  }

  lemma ApartKeys(scheme: Scheme, list: seq<ToEmit>)
    requires Apart(list)
    ensures KeysApart(Puts(scheme, list))
  {
    var puts := Puts(scheme, list);
    forall i, j | 0 <= i < j < |puts| ensures puts[i].key != puts[j].key {
      KeysEqualExactly(list[i].checkpoint, list[j].checkpoint);
    }
  }

  /** Every reader takes the object under the checkpoint's key for exactly that checkpoint. */
  ghost predicate Stored(scheme: Scheme, store: Store, c: Checkpoint) {
    && ObjectKey(c) in store
    && forall reader: Reader :: IsReader(reader) ==> Accepted(reader, scheme, store[ObjectKey(c)]) == Some(c)
  }

  class CheckpointEmitter {
    var store: Store
    const scheme: Scheme

    constructor (scheme: Scheme)
      ensures this.scheme == scheme && store == map[]
    {
      this.scheme := scheme;
      store := map[];
    }

    /**
     Sign, serialize and put. The checkpoint is then under its key, where every reader finds it, and
     the objects under other keys are as they were.
     */
    method Emit(e: ToEmit)
      modifies this`store
      ensures store == old(store)[ObjectKey(e.checkpoint) := Document(scheme, e)]
      ensures InRange(e.checkpoint) && Signs(scheme, e.checkpoint) ==> Stored(scheme, store, e.checkpoint)
      ensures forall c :: Stored(scheme, old(store), c) && ObjectKey(c) != ObjectKey(e.checkpoint) ==> Stored(scheme, store, c)
    {
      store := store[ObjectKey(e.checkpoint) := Document(scheme, e)];
      if InRange(e.checkpoint) && Signs(scheme, e.checkpoint) {
        forall reader: Reader | IsReader(reader) ensures Accepted(reader, scheme, store[ObjectKey(e.checkpoint)]) == Some(e.checkpoint) {
          EmittedReadsBack(reader, scheme, e);
        }
      }
    }

    /** Checkpoints told apart by second and sequence number are all kept, each under its own key. */
    method EmitAll(list: seq<ToEmit>)
      requires store == map[] && Apart(list)
      modifies this`store
      ensures Holds(store, Puts(scheme, list))
    {
      ghost var puts := Puts(scheme, list);
      ApartKeys(scheme, list);
      for i := 0 to |list|
        invariant Holds(store, puts[..i])
      {
        HoldsAfterPut(store, puts, i);
        Emit(list[i]);
      }
      assert puts[..|puts|] == puts;
    }
  }

  function Checkpoints(list: seq<ToEmit>): seq<Checkpoint> {
    if list == [] then [] else Checkpoints(list[..|list| - 1]) + [list[|list| - 1].checkpoint]
  }

  lemma {:induction false} ValuesAreCheckpoints(puts: seq<Put<Checkpoint>>, list: seq<ToEmit>)
    requires |puts| == |list| && forall i :: 0 <= i < |list| ==> puts[i].value == list[i].checkpoint
    ensures Values(puts) == Checkpoints(list)
  {
    if list != [] {
      ValuesAreCheckpoints(puts[..|puts| - 1], list[..|list| - 1]);
    }
  }

  /**
   After emitting any list of checkpoints told apart by second and sequence number into an empty
   store, every listing of it reads back exactly those checkpoints, up to the order of the listing.
   */
  lemma EmittedAreReadBack(reader: Reader, scheme: Scheme, store: Store, list: seq<ToEmit>, listing: seq<Listed>)
    requires IsReader(reader) && Apart(list) && Holds(store, Puts(scheme, list)) && Lists(store, listing)
    requires forall i :: 0 <= i < |list| ==> Signs(scheme, list[i].checkpoint)
    ensures multiset(AllAccepted(Accept(reader, scheme), listing)) == multiset(Checkpoints(list))
  {
    var puts, accept := Puts(scheme, list), Accept(reader, scheme);
    ApartKeys(scheme, list);
    forall i | 0 <= i < |puts| ensures accept(puts[i].bytes) == Some(puts[i].value) {
      EmittedReadsBack(reader, scheme, list[i]);
    }
    PutsAreReadBack(accept, store, puts, listing);
    ValuesAreCheckpoints(puts, list);
  }
}
