/** JSON text as the serializer prints it, and a reader for exactly that text. */
module Json {
  import opened Common
  import opened Decimal
  import opened Hex

  datatype Value =
    | Bool(b: bool)
    | Number(n: nat)
    | Text(text: string)
    | List(items: Items)
    | Object(fields: Fields)

  datatype Items = NoItems | Item(value: Value, rest: Items)

  datatype Fields = NoFields | Field(name: string, value: Value, rest: Fields)

  // ----- Printing --------------------------------------------------------------------------------

  function EscapeChar(c: char): (s: string)
    ensures s != [] && (s[0] == '\\' || (s == [c] && c != '"' && c != '\\'))
  {
    if c == '"' then "\\\""
    else if c == '\\' then "\\\\"
    else if c == '\U{08}' then "\\b"
    else if c == '\t' then "\\t"
    else if c == '\n' then "\\n"
    else if c == '\U{0C}' then "\\f"
    else if c == '\r' then "\\r"
    else if c < ' ' then "\\u00" + [HexDigit(c as nat / 16), HexDigit(c as nat % 16)]
    else [c]
  }

  /** The characters of a string literal, its closing quote, and then `k`. */
  function WriteText(s: string, k: string): string {
    if s == [] then ['"'] + k else EscapeChar(s[0]) + WriteText(s[1..], k)
  }

  /** A value and then `k`. */
  function Write(v: Value, k: string): (s: string)
    decreases v
  {
    match v
    case Bool(b) => (if b then "true" else "false") + k
    case Number(n) => Digits(n) + k
    case Text(text) => ['"'] + WriteText(text, k)
    case List(items) => ['['] + if items.NoItems? then [']'] + k else WriteItems(items, k)
    case Object(fields) => ['{'] + if fields.NoFields? then ['}'] + k else WriteFields(fields, k)
  }

  /** The items, the closing bracket, and then `k`. */
  function WriteItems(items: Items, k: string): string
    requires items.Item?
    decreases items
  {
    Write(items.value, if items.rest.NoItems? then [']'] + k else [','] + WriteItems(items.rest, k))
  }

  function WriteFields(fields: Fields, k: string): string
    requires fields.Field?
    decreases fields
  {
    ['"'] + WriteText(fields.name, [':'] + Write(fields.value, if fields.rest.NoFields? then ['}'] + k else [','] + WriteFields(fields.rest, k)))
  }

  function Print(v: Value): string {
    Write(v, [])
  }

  // ----- Reading ---------------------------------------------------------------------------------

  /** One character of a string literal, escaped or not, and what follows it. */
  function ReadChar(s: string): (r: Option<(char, string)>)
    ensures r.Some? ==> |r.value.1| < |s|
  {
    if s == [] || s[0] == '"' || s[0] < ' ' then None
    else if s[0] != '\\' then Some((s[0], s[1..]))
    else if |s| < 2 then None
    else match s[1]
      case '"' => Some(('"', s[2..]))
      case '\\' => Some(('\\', s[2..]))
      case 'b' => Some(('\U{08}', s[2..]))
      case 't' => Some(('\t', s[2..]))
      case 'n' => Some(('\n', s[2..]))
      case 'f' => Some(('\U{0C}', s[2..]))
      case 'r' => Some(('\r', s[2..]))
      case 'u' =>
        if |s| >= 6 && s[2] == '0' && s[3] == '0' && NibbleOf(s[4]).Some? && NibbleOf(s[5]).Some?
        then Some(((16 * NibbleOf(s[4]).value + NibbleOf(s[5]).value) as char, s[6..]))
        else None
      case _ => None
  }

  /** The rest of a string literal after its opening quote. */
  function ReadText(s: string): (r: Option<(string, string)>)
    ensures r.Some? ==> |r.value.1| < |s|
    decreases |s|
  {
    if s == [] then None
    else if s[0] == '"' then Some(([], s[1..]))
    else
      var c := ReadChar(s);
      if c == None then None
      else
        var rest := ReadText(c.value.1);
        if rest == None then None else Some(([c.value.0] + rest.value.0, rest.value.1))
  }

  function LeadingDigits(s: string): (d: string)
    ensures d <= s && AllDigits(d)
  {
    if s == [] || !IsDigit(s[0]) then [] else [s[0]] + LeadingDigits(s[1..])
  }

  function ReadValue(s: string): (r: Option<(Value, string)>)
    ensures r.Some? ==> |r.value.1| < |s|
    decreases |s|, 0
  {
    if s == [] then None
    else if s[0] == 't' then
      if "true" <= s then Some((Bool(true), s[4..])) else None
    else if s[0] == 'f' then
      if "false" <= s then Some((Bool(false), s[5..])) else None
    else if s[0] == '"' then
      var text := ReadText(s[1..]);
      if text == None then None else Some((Text(text.value.0), text.value.1))
    else if s[0] == '[' then ReadList(s[1..])
    else if s[0] == '{' then ReadObject(s[1..])
    else
      var digits := LeadingDigits(s);
      if digits == [] || Digits(Decimal.Value(digits)) != digits then None
      else Some((Number(Decimal.Value(digits)), s[|digits|..]))
  }

  /** The rest of a list after its opening bracket. */
  function ReadList(s: string): (r: Option<(Value, string)>)
    ensures r.Some? ==> |r.value.1| < |s|
    decreases |s|, 2
  {
    if s != [] && s[0] == ']' then Some((List(NoItems), s[1..]))
    else
      var items := ReadItems(s);
      if items == None then None else Some((List(items.value.0), items.value.1))
  }

  function ReadObject(s: string): (r: Option<(Value, string)>)
    ensures r.Some? ==> |r.value.1| < |s|
    decreases |s|, 2
  {
    if s != [] && s[0] == '}' then Some((Object(NoFields), s[1..]))
    else
      var fields := ReadFields(s);
      if fields == None then None else Some((Object(fields.value.0), fields.value.1))
  }

  function ReadItems(s: string): (r: Option<(Items, string)>)
    ensures r.Some? ==> |r.value.1| < |s| && r.value.0.Item?
    decreases |s|, 1
  {
    var first := ReadValue(s);
    if first == None || first.value.1 == [] then None
    else if first.value.1[0] == ']' then Some((Item(first.value.0, NoItems), first.value.1[1..]))
    else if first.value.1[0] != ',' then None
    else
      var rest := ReadItems(first.value.1[1..]);
      if rest == None then None else Some((Item(first.value.0, rest.value.0), rest.value.1))
  }

  function ReadFields(s: string): (r: Option<(Fields, string)>)
    ensures r.Some? ==> |r.value.1| < |s| && r.value.0.Field?
    decreases |s|, 1
  {
    if s == [] || s[0] != '"' then None
    else
      var name := ReadText(s[1..]);
      if name == None || name.value.1 == [] || name.value.1[0] != ':' then None
      else
        var value := ReadValue(name.value.1[1..]);
        if value == None || value.value.1 == [] then None
        else if value.value.1[0] == '}' then Some((Field(name.value.0, value.value.0, NoFields), value.value.1[1..]))
        else if value.value.1[0] != ',' then None
        else
          var rest := ReadFields(value.value.1[1..]);
          if rest == None then None else Some((Field(name.value.0, value.value.0, rest.value.0), rest.value.1))
  }

  /** A whole document: one value and nothing after it. */
  function Read(s: string): Option<Value> {
    var r := ReadValue(s);
    if r.Some? && r.value.1 == [] then Some(r.value.0) else None
  }

  // ----- Round trip ------------------------------------------------------------------------------

  lemma ReadEscapedChar(c: char, rest: string)
    ensures ReadChar(EscapeChar(c) + rest) == Some((c, rest))
  {
    var s := EscapeChar(c) + rest;
    if c < ' ' && |EscapeChar(c)| == 6 {
      var hi, lo := c as nat / 16, c as nat % 16;
      NibbleRoundTrip(hi);
      NibbleRoundTrip(lo);
      assert s[4] == HexDigit(hi) && s[5] == HexDigit(lo) && s[6..] == rest;
    } else if |EscapeChar(c)| == 2 {
      assert s[1] == EscapeChar(c)[1] && s[2..] == rest;
    } else {
      assert s[0] == c && s[1..] == rest;
    }
  }

  lemma {:induction false} ReadWrittenText(text: string, k: string)
    ensures ReadText(WriteText(text, k)) == Some((text, k))
  {
    if text == [] {
      assert WriteText(text, k)[1..] == k;
    } else {
      ReadEscapedChar(text[0], WriteText(text[1..], k));
      ReadWrittenText(text[1..], k);
      assert [text[0]] + text[1..] == text;
    }
  }

  /** What may follow a value. */
  predicate Follows(rest: string) {
    rest == [] || rest[0] in ",]}"
  }

  lemma {:induction false} LeadingDigitsOf(d: string, rest: string)
    requires AllDigits(d) && Follows(rest)
    ensures LeadingDigits(d + rest) == d
  {
    if d == [] {
      assert d + rest == rest;
    } else {
      assert (d + rest)[1..] == d[1..] + rest;
      LeadingDigitsOf(d[1..], rest);
    }
  }

  lemma ReadWrittenNumber(n: nat, k: string)
    requires Follows(k)
    ensures ReadValue(Digits(n) + k) == Some((Number(n), k))
  {
    var s := Digits(n) + k;
    assert IsDigit(s[0]) && s[0] == Digits(n)[0];
    LeadingDigitsOf(Digits(n), k);
    ValueOfDigits(n);
    assert s[|Digits(n)|..] == k;
  }

  lemma ReadWrittenBool(b: bool, k: string)
    ensures ReadValue((if b then "true" else "false") + k) == Some((Bool(b), k))
  {
    if b {
      var s := "true" + k;
      assert s[0] == 't' && s[..4] == "true" && s[4..] == k;
    } else {
      var s := "false" + k;
      assert s[0] == 'f' && s[..5] == "false" && s[5..] == k;
    }
  }

  /** How the first character decides what is read next. */
  lemma ReadAfter(s: string)
    ensures ReadText(s).Some? ==> ReadValue(['"'] + s) == Some((Text(ReadText(s).value.0), ReadText(s).value.1))
    ensures ReadValue(['['] + s) == ReadList(s)
    ensures ReadValue(['{'] + s) == ReadObject(s)
  {
    assert (['"'] + s)[1..] == s && (['['] + s)[1..] == s && (['{'] + s)[1..] == s;
  }

  /** A value begins with none of the closing characters. */
  lemma WrittenOpens(v: Value, k: string)
    ensures Write(v, k) != [] && Write(v, k)[0] != ']'
  {
    if v.Number? {
      assert IsDigit(Digits(v.n)[0]);
    }
  }

  /** Reading a written value gives it back and stops where it ends. */
  lemma {:induction false} ReadWritten(v: Value, k: string)
    requires Follows(k)
    ensures ReadValue(Write(v, k)) == Some((v, k))
    decreases v
  {
    match v {
      case Bool(b) => ReadWrittenBool(b, k);
      case Number(n) => ReadWrittenNumber(n, k);
      case Text(text) =>
        ReadWrittenText(text, k);
        ReadAfter(WriteText(text, k));
      case List(items) => ReadWrittenList(items, k);
      case Object(fields) => ReadWrittenObject(fields, k);
    }
  }

  lemma {:induction false} ReadWrittenList(items: Items, k: string)
    ensures ReadValue(Write(List(items), k)) == Some((List(items), k))
    decreases items, 1
  {
    if items.NoItems? {
      ReadAfter([']'] + k);
      assert ([']'] + k)[1..] == k;
    } else {
      ReadAfter(WriteItems(items, k));
      ReadWrittenItems(items, k);
    }
  }

  lemma {:induction false} ReadWrittenObject(fields: Fields, k: string)
    ensures ReadValue(Write(Object(fields), k)) == Some((Object(fields), k))
    decreases fields, 1
  {
    if fields.NoFields? {
      ReadAfter(['}'] + k);
      assert (['}'] + k)[1..] == k;
    } else {
      ReadAfter(WriteFields(fields, k));
      ReadWrittenFields(fields, k);
    }
  }

  lemma ReadItemFrom(s: string, value: Value, tail: string)
    requires ReadValue(s) == Some((value, tail)) && tail != []
    ensures tail[0] == ']' ==> ReadItems(s) == Some((Item(value, NoItems), tail[1..]))
    ensures tail[0] == ',' && ReadItems(tail[1..]).Some? ==>
              ReadItems(s) == Some((Item(value, ReadItems(tail[1..]).value.0), ReadItems(tail[1..]).value.1))
  {
  }

  lemma {:induction false} ReadWrittenItems(items: Items, k: string)
    requires items.Item?
    ensures ReadItems(WriteItems(items, k)) == Some((items, k))
    ensures WriteItems(items, k) != [] && WriteItems(items, k)[0] != ']'
    decreases items, 0
  {
    var tail := if items.rest.NoItems? then [']'] + k else [','] + WriteItems(items.rest, k);
    ReadWritten(items.value, tail);
    WrittenOpens(items.value, tail);
    ReadItemFrom(Write(items.value, tail), items.value, tail);
    if items.rest.NoItems? {
      assert tail[1..] == k;
    } else {
      assert tail[1..] == WriteItems(items.rest, k);
      ReadWrittenItems(items.rest, k);
    }
  }

  /** The first field of an object, given where its name and its value end. */
  lemma ReadFieldFrom(s: string, name: string, afterName: string, value: Value, tail: string)
    requires s != [] && s[0] == '"' && ReadText(s[1..]) == Some((name, afterName))
    requires afterName != [] && afterName[0] == ':' && ReadValue(afterName[1..]) == Some((value, tail))
    requires tail != []
    ensures tail[0] == '}' ==> ReadFields(s) == Some((Field(name, value, NoFields), tail[1..]))
    ensures tail[0] == ',' && ReadFields(tail[1..]).Some? ==>
              ReadFields(s) == Some((Field(name, value, ReadFields(tail[1..]).value.0), ReadFields(tail[1..]).value.1))
  {
  }

  lemma {:induction false} ReadWrittenFields(fields: Fields, k: string)
    requires fields.Field?
    ensures ReadFields(WriteFields(fields, k)) == Some((fields, k))
    decreases fields, 0
  {
    var tail := if fields.rest.NoFields? then ['}'] + k else [','] + WriteFields(fields.rest, k);
    var value := Write(fields.value, tail);
    var quoted := WriteText(fields.name, [':'] + value);
    ReadWrittenText(fields.name, [':'] + value);
    ReadWritten(fields.value, tail);
    assert (['"'] + quoted)[1..] == quoted && ([':'] + value)[1..] == value;
    ReadFieldFrom(['"'] + quoted, fields.name, [':'] + value, fields.value, tail);
    if fields.rest.NoFields? {
      assert tail[1..] == k;
    } else {
      assert tail[1..] == WriteFields(fields.rest, k);
      ReadWrittenFields(fields.rest, k);
    }
  }

  lemma RoundTrip(v: Value)
    ensures Read(Print(v)) == Some(v)
  {
    ReadWritten(v, []);
  }

  lemma PrintInjective(v: Value, v': Value)
    requires Print(v) == Print(v')
    ensures v == v'
  {
    RoundTrip(v);
    RoundTrip(v');
  }
}
