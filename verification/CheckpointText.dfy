/** What the signed text says, as a reader of JSON finds it: the names, in order, and what each holds. */
module CheckpointText {
  import opened Common
  import opened Timestamp
  import opened Rfc3339
  import opened Checkpoint
  import opened Json
  import Hex
  import Utf8

  /** The value a text of its own is read as. */
  ghost function Parsed(bytes: Hex.Bytes): Option<Value> {
    var text := Utf8.Decode(bytes);
    if text == None then None else Read(text.value)
  }

  /** The items of a list, in order. */
  ghost function ItemsIn(items: Items): seq<Value> {
    if items.NoItems? then [] else [items.value] + ItemsIn(items.rest)
  }

  lemma PrintedIsParsed(v: Value)
    ensures Parsed(ToVec(v)) == Some(v)
  {
    Utf8.DecodeEncoded(Print(v));
    RoundTrip(v);
  }

  lemma {:induction false} HeadsInOrder(heads: seq<HeadWire>)
    ensures |ItemsIn(HeadItems(heads))| == |heads|
    ensures forall i :: 0 <= i < |heads| ==> IsHead(ItemsIn(HeadItems(heads))[i], heads[i])
  {
    if heads != [] {
      HeadsInOrder(heads[1..]);
      HeadIsHead(heads[0]);
    }
  }

  lemma {:induction false} SealedInOrder(sealed: seq<SealedWire>)
    ensures |ItemsIn(SealedItems(sealed))| == |sealed|
    ensures forall i :: 0 <= i < |sealed| ==> IsSealed(ItemsIn(SealedItems(sealed))[i], sealed[i])
  {
    if sealed != [] {
      SealedInOrder(sealed[1..]);
      SealedIsSealed(sealed[0]);
    }
  }

  /** One field, and the fields after it. */
  ghost predicate Begins(fields: Fields, name: string, value: Value) {
    fields.Field? && fields.name == name && fields.value == value
  }

  ghost predicate IsHead(v: Value, h: HeadWire) {
    && v.Object? && Begins(v.fields, "stream_id", Text(h.streamId))
    && Begins(v.fields.rest, "final_stream_position", Number(h.position))
    && Begins(v.fields.rest.rest, "head_event_hash", Text(h.hash)) && v.fields.rest.rest.rest.NoFields?
  }

  ghost predicate IsSealed(v: Value, s: SealedWire) {
    && v.Object? && Begins(v.fields, "sealed_stream_id", Text(s.streamId))
    && Begins(v.fields.rest, "final_event_hash", Text(s.hash)) && v.fields.rest.rest.NoFields?
  }

  lemma FieldAt(pairs: seq<Pair>, i: nat)
    requires i < |pairs|
    ensures FieldsOf(pairs[i..]) == Field(pairs[i].0, pairs[i].1, FieldsOf(pairs[i + 1..]))
  {
    assert pairs[i..][1..] == pairs[i + 1..];
  }

  lemma HeadIsHead(h: HeadWire)
    ensures IsHead(HeadJson(h), h)
  {
    var p := HeadPairs(h);
    assert p[0..] == p && p[3..] == [];
    FieldAt(p, 0);
    FieldAt(p, 1);
    FieldAt(p, 2);
  }

  lemma SealedIsSealed(s: SealedWire)
    ensures IsSealed(SealedJson(s), s)
  {
    var p := SealedPairs(s);
    assert p[0..] == p && p[2..] == [];
    FieldAt(p, 0);
    FieldAt(p, 1);
  }

  /** The instant is written as one that RFC 3339 reads back. */
  ghost predicate IsInstant(v: Value, d: DateTime) {
    v.Text? && ReadInstant(v.text) == Some(d)
  }

  ghost predicate IsHeads(v: Value, heads: seq<HeadWire>) {
    v.List? && |ItemsIn(v.items)| == |heads| && forall i :: 0 <= i < |heads| ==> IsHead(ItemsIn(v.items)[i], heads[i])
  }

  ghost predicate IsSealeds(v: Value, sealed: seq<SealedWire>) {
    v.List? && |ItemsIn(v.items)| == |sealed| && forall i :: 0 <= i < |sealed| ==> IsSealed(ItemsIn(v.items)[i], sealed[i])
  }

  /** An object with the five signed names in declaration order, and nothing else. */
  ghost predicate IsBody(v: Value, b: Body) {
    && v.Object? && Begins(v.fields, "chain_format_version", Text(b.version))
    && var f1 := v.fields.rest;
    && Begins(f1, "checkpoint_seq", Number(b.sequence))
    && var f2 := f1.rest;
    && f2.Field? && f2.name == "created_at" && IsInstant(f2.value, b.createdAt)
    && var f3 := f2.rest;
    && f3.Field? && f3.name == "stream_heads" && IsHeads(f3.value, b.heads)
    && var f4 := f3.rest;
    && f4.Field? && f4.name == "sealed_streams" && IsSealeds(f4.value, b.sealed) && f4.rest.NoFields?
  }

  lemma BodyFields(b: Body)
    ensures var p := BodyPairs(b);
            FieldsOf(p) == Field(p[0].0, p[0].1, Field(p[1].0, p[1].1, Field(p[2].0, p[2].1, Field(p[3].0, p[3].1, Field(p[4].0, p[4].1, NoFields)))))
  {
    var p := BodyPairs(b);
    assert p[0..] == p && p[5..] == [];
    FieldAt(p, 0);
    FieldAt(p, 1);
    FieldAt(p, 2);
    FieldAt(p, 3);
    FieldAt(p, 4);
  }

  /**
   The signed bytes are the text of one object: version, sequence number, instant, stream heads and sealed
   streams, under these names, in this order and each in its own form.
   */
  lemma SignedText(b: Body)
    requires Valid(b.createdAt)
    ensures Parsed(SignedBytes(b)).Some? && IsBody(Parsed(SignedBytes(b)).value, b)
  {
    PrintedIsParsed(Object(FieldsOf(BodyPairs(b))));
    BodyFields(b);
    ReadPrintedInstant(b.createdAt);
    HeadsInOrder(b.heads);
    SealedInOrder(b.sealed);
  }
}
