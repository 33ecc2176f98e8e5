/** Lowercase hexadecimal text of byte strings, and reading it back in either case. */
module Hex {
  import opened Common

  newtype byte = x: int | 0 <= x < 256

  type Bytes = seq<byte>

  function HexDigit(n: nat): (c: char)
    requires n < 16
  {
    if n < 10 then '0' + n as char else 'a' + (n - 10) as char
  }

  predicate IsLowerHex(c: char) {
    '0' <= c <= '9' || 'a' <= c <= 'f'
  }

  /** The two digits of one byte. */
  function Pair(b: byte): (s: string)
    ensures |s| == 2 && IsLowerHex(s[0]) && IsLowerHex(s[1])
  {
    [HexDigit(b as nat / 16), HexDigit(b as nat % 16)]
  }

  function HexOf(bytes: seq<byte>): (s: string)
    ensures |s| == 2 * |bytes|
    ensures forall i :: 0 <= i < |s| ==> IsLowerHex(s[i])
  {
    if bytes == [] then []
    else
      HexOf(bytes[..|bytes| - 1]) + Pair(bytes[|bytes| - 1])
  }

  /** The loop that pushes two nibbles per byte. */
  method EncodeHex(bytes: seq<byte>) returns (out: string)
    ensures out == HexOf(bytes)
  {
    out := [];
    for i := 0 to |bytes|
      invariant out == HexOf(bytes[..i])
    {
      assert bytes[..i + 1][..i] == bytes[..i];
      out := out + [HexDigit(bytes[i] as nat / 16)] + [HexDigit(bytes[i] as nat % 16)];
    }
    assert bytes[..|bytes|] == bytes;
  }

  function NibbleOf(c: char): (n: Option<nat>)
    ensures n.Some? ==> n.value < 16
  {
    if '0' <= c <= '9' then Some((c - '0') as nat)
    else if 'a' <= c <= 'f' then Some((c - 'a') as nat + 10)
    else if 'A' <= c <= 'F' then Some((c - 'A') as nat + 10)
    else None
  }

  function HexDecode(s: string): (r: Option<seq<byte>>)
    ensures r.Some? ==> |s| == 2 * |r.value|
  {
    if s == [] then Some([])
    else if |s| == 1 then None
    else
      var front, hi, lo := HexDecode(s[..|s| - 2]), NibbleOf(s[|s| - 2]), NibbleOf(s[|s| - 1]);
      if front == None || hi == None || lo == None then None
      else Some(front.value + [(16 * hi.value + lo.value) as byte])
  }

  lemma NibbleRoundTrip(n: nat)
    requires n < 16
    ensures NibbleOf(HexDigit(n)) == Some(n)
  {
  }

  lemma PairRoundTrip(b: byte)
    ensures NibbleOf(Pair(b)[0]) == Some(b as nat / 16)
    ensures NibbleOf(Pair(b)[1]) == Some(b as nat % 16)
    ensures (16 * (b as nat / 16) + b as nat % 16) as byte == b
  {
    NibbleRoundTrip(b as nat / 16);
    NibbleRoundTrip(b as nat % 16);
  }

  lemma DecodeAppended(front: string, pair: string, b: byte)
    requires HexDecode(front).Some? && pair == Pair(b)
    ensures HexDecode(front + pair) == Some(HexDecode(front).value + [b])
  {
    PairRoundTrip(b);
    var s := front + pair;
    assert s[..|s| - 2] == front;
    assert s[|s| - 2] == pair[0] && s[|s| - 1] == pair[1];
  }

  lemma {:induction false} DecodesTo(s: string, bytes: seq<byte>)
    requires s == HexOf(bytes)
    ensures HexDecode(s) == Some(bytes)
    decreases bytes
  {
    if bytes == [] {
      assert s == [];
    } else {
      var front, last := bytes[..|bytes| - 1], bytes[|bytes| - 1];
      DecodesTo(HexOf(front), front);
      DecodeAppended(HexOf(front), Pair(last), last);
      assert bytes == front + [last];
    }
  }

  /** Decoding undoes encoding. */
  lemma HexRoundTrip(bytes: seq<byte>)
    ensures HexDecode(HexOf(bytes)) == Some(bytes)
  {
    DecodesTo(HexOf(bytes), bytes);
  }

  lemma HexInjective(a: seq<byte>, b: seq<byte>)
    requires HexOf(a) == HexOf(b)
    ensures a == b
  {
    HexRoundTrip(a);
    HexRoundTrip(b);
  }
}
