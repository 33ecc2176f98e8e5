/** UTF-8, section 3 of RFC 3629: encoding, strict decoding, and where characters begin. */
module Utf8 {
  import opened Common
  import opened Hex

  function Continuation(n: nat): byte {
    (0x80 + n % 64) as byte
  }

  function EncodeChar(c: char): (bytes: seq<byte>)
    ensures 1 <= |bytes| <= 4
  {
    var u := c as nat;
    if u < 0x80 then [u as byte]
    else if u < 0x800 then [(0xC0 + u / 64) as byte, Continuation(u)]
    else if u < 0x10000 then [(0xE0 + u / 4096) as byte, Continuation(u / 64), Continuation(u)]
    else [(0xF0 + u / 262144) as byte, Continuation(u / 4096), Continuation(u / 64), Continuation(u)]
  }

  function Encode(s: string): seq<byte> {
    if s == [] then [] else EncodeChar(s[0]) + Encode(s[1..])
  }

  predicate IsContinuation(b: byte) {
    0x80 <= b < 0xC0
  }

  // ----- Decoding --------------------------------------------------------------------------------

  /** How many bytes the first byte announces; zero when it cannot begin a character. */
  function Width(first: byte): (w: nat)
    ensures w <= 4
  {
    if first < 0x80 then 1
    else if first < 0xC0 then 0
    else if first < 0xE0 then 2
    else if first < 0xF0 then 3
    else if first < 0xF8 then 4
    else 0
  }

  function Payload(bytes: seq<byte>): nat
    requires 1 <= |bytes| <= 4
  {
    var b := bytes;
    if |b| == 1 then b[0] as nat
    else if |b| == 2 then (b[0] as nat % 32) * 64 + b[1] as nat % 64
    else if |b| == 3 then (b[0] as nat % 16) * 4096 + (b[1] as nat % 64) * 64 + b[2] as nat % 64
    else (b[0] as nat % 8) * 262144 + (b[1] as nat % 64) * 4096 + (b[2] as nat % 64) * 64 + b[3] as nat % 64
  }

  predicate IsScalar(u: nat) {
    u < 0xD800 || 0xE000 <= u < 0x110000
  }

  /** The first character and its width; overlong and surrogate forms are refused. */
  function DecodeChar(bytes: seq<byte>): (r: Option<(char, nat)>)
    ensures r.Some? ==> 1 <= r.value.1 <= |bytes| && bytes[..r.value.1] == EncodeChar(r.value.0)
  {
    if bytes == [] then None
    else
      var w := Width(bytes[0]);
      if w == 0 || w > |bytes| || !IsScalar(Payload(bytes[..w])) then None
      else
        var c := Payload(bytes[..w]) as char;
        if EncodeChar(c) == bytes[..w] then Some((c, w)) else None
  }

  function Decode(bytes: seq<byte>): Option<string> {
    if bytes == [] then Some([])
    else
      var first := DecodeChar(bytes);
      if first == None then None
      else
        var rest := Decode(bytes[first.value.1..]);
        if rest == None then None else Some([first.value.0] + rest.value)
  }

  /** A number is put together again from its digits in base 64. */
  lemma Sextets(u: nat)
    ensures u == u / 64 * 64 + u % 64
    ensures u == u / 4096 * 4096 + u / 64 % 64 * 64 + u % 64
    ensures u == u / 262144 * 262144 + u / 4096 % 64 * 4096 + u / 64 % 64 * 64 + u % 64
  {
    assert u / 64 / 64 == u / 4096 && u / 4096 / 64 == u / 262144;
  }

  lemma ContinuationPayload(n: nat)
    ensures Continuation(n) as nat % 64 == n % 64
  {
  }

  lemma PayloadOfTwo(c: char)
    requires 0x80 <= c as nat < 0x800
    ensures Payload(EncodeChar(c)) == c as nat
  {
    var u := c as nat;
    Sextets(u);
    ContinuationPayload(u);
    assert (0xC0 + u / 64) % 32 == u / 64;
  }

  lemma PayloadOfThree(c: char)
    requires 0x800 <= c as nat < 0x10000
    ensures Payload(EncodeChar(c)) == c as nat
  {
    var u := c as nat;
    Sextets(u);
    ContinuationPayload(u);
    ContinuationPayload(u / 64);
    assert (0xE0 + u / 4096) % 16 == u / 4096;
  }

  lemma PayloadOfFour(c: char)
    requires 0x10000 <= c as nat
    ensures Payload(EncodeChar(c)) == c as nat
  {
    var u := c as nat;
    Sextets(u);
    ContinuationPayload(u);
    ContinuationPayload(u / 64);
    ContinuationPayload(u / 4096);
    assert (0xF0 + u / 262144) % 8 == u / 262144;
  }

  lemma PayloadOfEncoded(c: char)
    ensures Payload(EncodeChar(c)) == c as nat && Width(EncodeChar(c)[0]) == |EncodeChar(c)|
  {
    var u := c as nat;
    if u >= 0x10000 {
      PayloadOfFour(c);
    } else if u >= 0x800 {
      PayloadOfThree(c);
    } else if u >= 0x80 {
      PayloadOfTwo(c);
    }
  }

  lemma DecodeCharEncoded(c: char, rest: seq<byte>)
    ensures DecodeChar(EncodeChar(c) + rest) == Some((c, |EncodeChar(c)|))
  {
    var head := EncodeChar(c);
    PayloadOfEncoded(c);
    assert (head + rest)[0] == head[0] && (head + rest)[..|head|] == head;
  }

  lemma {:induction false} DecodeEncoded(s: string)
    ensures Decode(Encode(s)) == Some(s)
  {
    if s != [] {
      var head, rest := EncodeChar(s[0]), Encode(s[1..]);
      DecodeCharEncoded(s[0], rest);
      assert (head + rest)[|head|..] == rest;
      DecodeEncoded(s[1..]);
      assert Encode(s) == head + rest && [s[0]] + s[1..] == s;
    }
  }

  /** Decoding accepts exactly the encodings, and undoes them. */
  lemma {:induction false} DecodeExact(bytes: seq<byte>, s: string)
    ensures Decode(bytes) == Some(s) <==> bytes == Encode(s)
    decreases |bytes|
  {
    DecodeEncoded(s);
    if Decode(bytes) == Some(s) && bytes != [] {
      var w := DecodeChar(bytes).value.1;
      DecodeExact(bytes[w..], s[1..]);
      assert bytes == bytes[..w] + bytes[w..];
    }
  }

  // ----- Character boundaries --------------------------------------------------------------------

  function Length(s: string): nat {
    |Encode(s)|
  }

  lemma {:induction false} EncodeConcat(a: string, b: string)
    ensures Encode(a + b) == Encode(a) + Encode(b)
  {
    if a == [] {
      assert a + b == b;
    } else {
      var first := EncodeChar(a[0]);
      EncodeConcat(a[1..], b);
      assert (a + b)[0] == a[0] && (a + b)[1..] == a[1..] + b;
      assert Encode(a + b) == first + Encode(a[1..] + b) && Encode(a) == first + Encode(a[1..]);
      Regrouped(first, Encode(a[1..]), Encode(b));
    }
  }

  lemma Regrouped<T>(a: seq<T>, b: seq<T>, c: seq<T>)
    ensures a + (b + c) == (a + b) + c
  {
  }

  lemma PrefixLength(s: string, n: nat)
    requires n < |s|
    ensures Length(s[..n + 1]) == Length(s[..n]) + |EncodeChar(s[n])| && Encode(s[..n]) <= Encode(s)
  {
    assert s[..n + 1] == s[..n] + [s[n]] && s == s[..n] + s[n..];
    EncodeConcat(s[..n], [s[n]]);
    EncodeConcat(s[..n], s[n..]);
    assert Encode([s[n]]) == EncodeChar(s[n]) + Encode([]);
  }

  lemma LengthsGrow(s: string, m: nat, n: nat)
    requires m < n <= |s|
    ensures Length(s[..m]) < Length(s[..n])
    decreases n
  {
    PrefixLength(s, n - 1);
    if m < n - 1 {
      LengthsGrow(s, m, n - 1);
    }
  }

  /** A byte offset inside the text is a character boundary exactly when no continuation byte stands there. */
  lemma {:induction false} BoundaryExactly(s: string, i: nat) returns (n: nat)
    requires i < Length(s)
    ensures n < |s| && Length(s[..n]) <= i < Length(s[..n + 1])
    ensures Length(s[..n + 1]) <= Length(s[..n]) + 4
    ensures IsContinuation(Encode(s)[i]) <==> i != Length(s[..n])
    decreases |s|
  {
    var head := EncodeChar(s[0]);
    assert s[..1] == [s[0]] && Encode(s[..1]) == head + Encode(s[..1][1..]);
    if i < |head| {
      n := 0;
      assert Encode(s)[i] == head[i];
    } else {
      var m := BoundaryExactly(s[1..], i - |head|);
      n := m + 1;
      assert s[..n][1..] == s[1..][..m] && s[..n + 1][1..] == s[1..][..m + 1];
      assert Encode(s)[i] == Encode(s[1..])[i - |head|];
    }
  }
}

/** Truncating the recorded user agent. */
module UserAgent {
  import opened Hex
  import opened Utf8

  const USER_AGENT_MAX_BYTES: nat := 256

  /** An offset where a slice may cut: the end of the text, or before a byte that begins a character. */
  predicate IsCharBoundary(bytes: seq<byte>, i: nat) {
    i == 0 || i == |bytes| || (i < |bytes| && !IsContinuation(bytes[i]))
  }

  /** `n` characters is the most that fit. */
  ghost predicate LongestPrefix(s: string, n: nat) {
    n <= |s| && Length(s[..n]) <= USER_AGENT_MAX_BYTES && (n < |s| ==> Length(s[..n + 1]) > USER_AGENT_MAX_BYTES)
  }

  lemma LongestPrefixUnique(s: string, n: nat, m: nat)
    requires LongestPrefix(s, n) && LongestPrefix(s, m)
    ensures n == m
  {
    if n < m {
      if n + 1 < m {
        LengthsGrow(s, n + 1, m);
      }
    } else if m < n {
      if m + 1 < n {
        LengthsGrow(s, m + 1, n);
      }
    }
  }

  /** The result encodes the longest run of whole characters within the limit; the walk back is at most three bytes. */
  method TruncateUserAgent(ua: seq<byte>, ghost s: string) returns (r: seq<byte>, ghost kept: nat)
    requires ua == Encode(s)
    ensures LongestPrefix(s, kept) && r == Encode(s[..kept])
    ensures |ua| > USER_AGENT_MAX_BYTES ==> |r| >= USER_AGENT_MAX_BYTES - 3
    ensures |ua| <= USER_AGENT_MAX_BYTES ==> r == ua
  {
    if |ua| <= USER_AGENT_MAX_BYTES {
      assert s[..|s|] == s;
      return ua, |s|;
    }
    kept := BoundaryExactly(s, USER_AGENT_MAX_BYTES);
    var cut := USER_AGENT_MAX_BYTES;
    while cut > 0 && !IsCharBoundary(ua, cut)
      invariant Length(s[..kept]) <= cut <= USER_AGENT_MAX_BYTES
    {
      ghost var n := BoundaryExactly(s, cut);
      SameCharacter(s, n, kept, cut);
      cut := cut - 1;
    }
    ghost var n := BoundaryExactly(s, cut);
    SameCharacter(s, n, kept, cut);
    PrefixLength(s, kept);
    assert s[..0] == [];
    r := ua[..cut];
  }

  /** Two characters that both cover a byte are the same. */
  lemma SameCharacter(s: string, n: nat, m: nat, i: nat)
    requires n < |s| && m < |s|
    requires Length(s[..n]) <= i < Length(s[..n + 1]) && Length(s[..m]) <= i < Length(s[..m + 1])
    ensures n == m
  {
    if n < m {
      if n + 1 < m {
        LengthsGrow(s, n + 1, m);
      }
    } else if m < n {
      if m + 1 < n {
        LengthsGrow(s, m + 1, n);
      }
    }
  }
}
