/** Reading the written checkpoint document back into its wire form. */
module CheckpointWire {
  import opened Common
  import opened Decimal
  import opened Hex
  import opened Timestamp
  import opened Rfc3339
  import opened Checkpoint
  import Json
  import Utf8

  // ----- Fields by name --------------------------------------------------------------------------

  datatype Found = Absent | Once(value: Json.Value) | Repeated

  /** A field by name; unknown fields are ignored and a repeated one is an error. */
  function Lookup(fields: Json.Fields, name: string): Found {
    if fields.NoFields? then Absent
    else if fields.name != name then Lookup(fields.rest, name)
    else if Lookup(fields.rest, name).Absent? then Once(fields.value)
    else Repeated
  }

  function TextField(fields: Json.Fields, name: string): Option<string> {
    var found := Lookup(fields, name);
    if found.Once? && found.value.Text? then Some(found.value.text) else None
  }

  function U64Field(fields: Json.Fields, name: string): Option<nat> {
    var found := Lookup(fields, name);
    if found.Once? && found.value.Number? && found.value.n <= U64_MAX then Some(found.value.n) else None
  }

  function ReadHead(v: Json.Value): Option<HeadWire> {
    if v.Object? && TextField(v.fields, "stream_id").Some? && U64Field(v.fields, "final_stream_position").Some?
       && TextField(v.fields, "head_event_hash").Some?
    then
      Some(HeadWire(TextField(v.fields, "stream_id").value, U64Field(v.fields, "final_stream_position").value,
                    TextField(v.fields, "head_event_hash").value))
    else None
  }

  function ReadSealed(v: Json.Value): Option<SealedWire> {
    if v.Object? && TextField(v.fields, "sealed_stream_id").Some? && TextField(v.fields, "final_event_hash").Some?
    then Some(SealedWire(TextField(v.fields, "sealed_stream_id").value, TextField(v.fields, "final_event_hash").value))
    else None
  }

  function ReadHeads(items: Json.Items): Option<seq<HeadWire>> {
    if items.NoItems? then Some([])
    else
      var first, rest := ReadHead(items.value), ReadHeads(items.rest);
      if first == None || rest == None then None else Some([first.value] + rest.value)
  }

  function ReadSealeds(items: Json.Items): Option<seq<SealedWire>> {
    if items.NoItems? then Some([])
    else
      var first, rest := ReadSealed(items.value), ReadSealeds(items.rest);
      if first == None || rest == None then None else Some([first.value] + rest.value)
  }

  function HeadsField(fields: Json.Fields): Option<seq<HeadWire>> {
    var found := Lookup(fields, "stream_heads");
    if found.Once? && found.value.List? then ReadHeads(found.value.items) else None
  }

  /** The sealed streams may be left out. */
  function SealedsField(fields: Json.Fields): Option<seq<SealedWire>> {
    var found := Lookup(fields, "sealed_streams");
    if found.Absent? then Some([])
    else if found.Once? && found.value.List? then ReadSealeds(found.value.items)
    else None
  }

  function CreatedField(fields: Json.Fields): (r: Option<DateTime>)
    ensures r.Some? ==> Valid(r.value)
  {
    var text := TextField(fields, "created_at");
    if text == None then None else ReadInstant(text.value)
  }

  predicate HasBody(fields: Json.Fields) {
    && TextField(fields, "chain_format_version").Some?
    && U64Field(fields, "checkpoint_seq").Some?
    && CreatedField(fields).Some?
    && HeadsField(fields).Some?
    && SealedsField(fields).Some?
  }

  function ReadBody(fields: Json.Fields): Body
    requires HasBody(fields)
  {
    Body(TextField(fields, "chain_format_version").value, U64Field(fields, "checkpoint_seq").value,
         CreatedField(fields).value, HeadsField(fields).value, SealedsField(fields).value)
  }

  function ReadWire(v: Json.Value): Option<Wire> {
    if v.Object? && HasBody(v.fields) && TextField(v.fields, "signature").Some?
    then Some(Wire(ReadBody(v.fields), TextField(v.fields, "signature").value))
    else None
  }

  // ----- Reading what was written ----------------------------------------------------------------

  ghost predicate DistinctNames(pairs: seq<Pair>) {
    forall i, j :: 0 <= i < j < |pairs| ==> pairs[i].0 != pairs[j].0
  }

  lemma {:induction false} LookupAbsent(pairs: seq<Pair>, name: string)
    requires forall i :: 0 <= i < |pairs| ==> pairs[i].0 != name
    ensures Lookup(FieldsOf(pairs), name).Absent?
  {
    if pairs != [] {
      LookupAbsent(pairs[1..], name);
    }
  }

  /** Under distinct names every field is found. */
  lemma {:induction false} LookupAt(pairs: seq<Pair>, i: nat, name: string)
    requires DistinctNames(pairs) && i < |pairs| && pairs[i].0 == name
    ensures Lookup(FieldsOf(pairs), name) == Once(pairs[i].1)
  {
    if i == 0 {
      LookupAbsent(pairs[1..], name);
    } else {
      LookupAt(pairs[1..], i - 1, name);
    }
  }

  lemma ReadWrittenHead(h: HeadWire)
    requires h.position <= U64_MAX
    ensures ReadHead(HeadJson(h)) == Some(h)
  {
    var pairs := HeadPairs(h);
    assert |pairs[0].0| == 9 && |pairs[1].0| == 21 && |pairs[2].0| == 15;
    LookupAt(pairs, 0, "stream_id");
    LookupAt(pairs, 1, "final_stream_position");
    LookupAt(pairs, 2, "head_event_hash");
  }

  lemma ReadWrittenSealed(s: SealedWire)
    ensures ReadSealed(SealedJson(s)) == Some(s)
  {
    var pairs := SealedPairs(s);
    assert pairs[0].0[0] != pairs[1].0[0];
    LookupAt(pairs, 0, "sealed_stream_id");
    LookupAt(pairs, 1, "final_event_hash");
  }

  lemma {:induction false} ReadWrittenHeads(heads: seq<HeadWire>)
    requires forall i :: 0 <= i < |heads| ==> heads[i].position <= U64_MAX
    ensures ReadHeads(HeadItems(heads)) == Some(heads)
  {
    if heads != [] {
      ReadWrittenHead(heads[0]);
      ReadWrittenHeads(heads[1..]);
      assert heads == [heads[0]] + heads[1..];
    }
  }

  lemma {:induction false} ReadWrittenSealeds(sealed: seq<SealedWire>)
    ensures ReadSealeds(SealedItems(sealed)) == Some(sealed)
  {
    if sealed != [] {
      ReadWrittenSealed(sealed[0]);
      ReadWrittenSealeds(sealed[1..]);
      assert sealed == [sealed[0]] + sealed[1..];
    }
  }

  /** Ten names told apart by their lengths, or by a letter where two lengths agree. */
  lemma NamesApart(p: seq<Pair>)
    requires 7 <= |p| <= 10
    requires |p[0].0| == 20 && |p[1].0| == 14 && |p[2].0| == 10 && |p[3].0| == 12 && |p[4].0| == 14
    requires p[1].0[0] == 'c' && p[4].0[0] == 's'
    requires |p[5].0| == 9 && |p[6].0| == 19 && p[6].0[1] == 'a'
    requires |p| > 7 ==> |p| == 10 && |p[7].0| == 17 && |p[8].0| == 28 && |p[9].0| == 19 && p[9].0[1] == 'i'
    ensures DistinctNames(p)
  {
  }

  lemma DocumentNamesDistinct(e: ToEmit, signature: string)
    ensures DistinctNames(DocumentPairs(e, signature))
  {
    var body, notes, p := BodyPairs(BodyOf(e.checkpoint)), NotePairs(e, signature), DocumentPairs(e, signature);
    assert p[..5] == body && p[5..] == notes;
    assert notes[0].0 == "signature" && notes[1].0 == "max_global_position";
    NamesApart(p);
  }

  lemma ReadWrittenBody(b: Body, fields: Json.Fields)
    requires WellFormed(b)
    requires Lookup(fields, "chain_format_version") == Once(Json.Text(b.version))
    requires Lookup(fields, "checkpoint_seq") == Once(Json.Number(b.sequence))
    requires Lookup(fields, "created_at") == Once(Json.Text(InstantText(b.createdAt)))
    requires HeadsField(fields) == Some(b.heads) && SealedsField(fields) == Some(b.sealed)
    ensures HasBody(fields) && ReadBody(fields) == b
  {
    CreatedRead(fields, b.createdAt);
  }

  lemma CreatedRead(fields: Json.Fields, d: DateTime)
    requires Valid(d) && Lookup(fields, "created_at") == Once(Json.Text(InstantText(d)))
    ensures CreatedField(fields) == Some(d)
  {
    ReadPrintedInstant(d);
  }

  lemma DocumentLookups(e: ToEmit, signature: string)
    ensures var fields, b := FieldsOf(DocumentPairs(e, signature)), BodyOf(e.checkpoint);
            && Lookup(fields, "chain_format_version") == Once(Json.Text(b.version))
            && Lookup(fields, "checkpoint_seq") == Once(Json.Number(b.sequence))
            && Lookup(fields, "created_at") == Once(Json.Text(InstantText(b.createdAt)))
            && Lookup(fields, "stream_heads") == Once(Json.List(HeadItems(b.heads)))
            && Lookup(fields, "sealed_streams") == Once(Json.List(SealedItems(b.sealed)))
            && Lookup(fields, "signature") == Once(Json.Text(signature))
  {
    var pairs := DocumentPairs(e, signature);
    DocumentNamesDistinct(e, signature);
    LookupAt(pairs, 0, "chain_format_version");
    LookupAt(pairs, 1, "checkpoint_seq");
    LookupAt(pairs, 2, "created_at");
    LookupAt(pairs, 3, "stream_heads");
    LookupAt(pairs, 4, "sealed_streams");
    LookupAt(pairs, 5, "signature");
  }

  /** The document reads back as its signed fields and its signature, whatever the notes say. */
  lemma ReadWrittenDocument(e: ToEmit, signature: string)
    requires InRange(e.checkpoint)
    ensures ReadWire(Json.Object(FieldsOf(DocumentPairs(e, signature)))) == Some(Wire(BodyOf(e.checkpoint), signature))
  {
    DocumentLookups(e, signature);
    var b, fields := BodyOf(e.checkpoint), FieldsOf(DocumentPairs(e, signature));
    ReadWrittenHeads(b.heads);
    ReadWrittenSealeds(b.sealed);
    ReadWrittenBody(b, fields);
    WireRead(fields, b, signature);
  }

  lemma WireRead(fields: Json.Fields, b: Body, signature: string)
    requires HasBody(fields) && ReadBody(fields) == b && TextField(fields, "signature") == Some(signature)
    ensures ReadWire(Json.Object(fields)) == Some(Wire(b, signature))
  {
  }

  // ----- Readers ---------------------------------------------------------------------------------

  type Reader = Bytes -> Option<Wire>

  /** The nesting a reader is asked to follow. */
  const NESTING_MAX: nat := 127

  /** Lists and objects are nested at most `depth` deep. */
  predicate Within(v: Json.Value, depth: nat) {
    match v
    case List(items) => depth > 0 && ItemsWithin(items, depth - 1)
    case Object(fields) => depth > 0 && FieldsWithin(fields, depth - 1)
    case _ => true
  }

  predicate ItemsWithin(items: Json.Items, depth: nat) {
    items.Item? ==> Within(items.value, depth) && ItemsWithin(items.rest, depth)
  }

  predicate FieldsWithin(fields: Json.Fields, depth: nat) {
    fields.Field? ==> Within(fields.value, depth) && FieldsWithin(fields.rest, depth)
  }

  lemma {:induction false} PairsWithin(pairs: seq<Pair>, depth: nat)
    requires forall i :: 0 <= i < |pairs| ==> Within(pairs[i].1, depth)
    ensures FieldsWithin(FieldsOf(pairs), depth)
  {
    if pairs != [] {
      PairsWithin(pairs[1..], depth);
    }
  }

  lemma {:induction false} HeadsWithin(heads: seq<HeadWire>, depth: nat)
    requires depth > 0
    ensures ItemsWithin(HeadItems(heads), depth)
  {
    if heads != [] {
      PairsWithin(HeadPairs(heads[0]), depth - 1);
      HeadsWithin(heads[1..], depth);
    }
  }

  lemma {:induction false} SealedsWithin(sealed: seq<SealedWire>, depth: nat)
    requires depth > 0
    ensures ItemsWithin(SealedItems(sealed), depth)
  {
    if sealed != [] {
      PairsWithin(SealedPairs(sealed[0]), depth - 1);
      SealedsWithin(sealed[1..], depth);
    }
  }

  /** An emitted document is flat enough for every reader. */
  lemma DocumentWithin(e: ToEmit, signature: string)
    ensures Within(Json.Object(FieldsOf(DocumentPairs(e, signature))), NESTING_MAX)
  {
    var depth: nat := NESTING_MAX - 1;
    HeadsWithin(BodyOf(e.checkpoint).heads, depth - 1);
    SealedsWithin(BodyOf(e.checkpoint).sealed, depth - 1);
    PairsWithin(DocumentPairs(e, signature), depth);
  }

  /**
   A document reader: it reads printed documents, up to a nesting, for what they say and yields only
   values in range. Of other bytes nothing is asked.
   */
  ghost predicate IsReader(reader: Reader) {
    && (forall v, w :: Within(v, NESTING_MAX) && ReadWire(v) == Some(w) ==> reader(ToVec(v)) == Some(w))
    && (forall bytes :: reader(bytes).Some? ==> WellFormed(reader(bytes).value.body))
  }

  lemma ReadHeadInRange(items: Json.Items)
    requires ReadHeads(items).Some?
    ensures forall i :: 0 <= i < |ReadHeads(items).value| ==> ReadHeads(items).value[i].position <= U64_MAX
  {
  }

  lemma ReadWireInRange(v: Json.Value)
    requires ReadWire(v).Some?
    ensures WellFormed(ReadWire(v).value.body)
  {
    var found := Lookup(v.fields, "stream_heads");
    ReadHeadInRange(found.value.items);
  }

  /** The strict reader: exactly the printed documents. */
  ghost function StrictRead(bytes: Bytes): Option<Wire> {
    var text := Utf8.Decode(bytes);
    if text == None then None
    else
      var v := Json.Read(text.value);
      if v == None then None else ReadWire(v.value)
  }

  lemma StrictReadOfPrinted(v: Json.Value)
    ensures StrictRead(ToVec(v)) == ReadWire(v)
  {
    Utf8.DecodeEncoded(Json.Print(v));
    Json.RoundTrip(v);
  }

  /** There are readers: the strict one is. */
  lemma StrictReadIsReader()
    ensures IsReader(StrictRead)
  {
    forall v, w | ReadWire(v) == Some(w) ensures StrictRead(ToVec(v)) == Some(w) {
      StrictReadOfPrinted(v);
    }
    forall bytes | StrictRead(bytes).Some? ensures WellFormed(StrictRead(bytes).value.body) {
      ReadWireInRange(Json.Read(Utf8.Decode(bytes).value).value);
    }
  }
}
