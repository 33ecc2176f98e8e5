/**
 The Redis backend: every write is one atomic Lua script over a hash with fields `v` and `val` and
 an expiry. Versions and counters live there as text, and pass through Lua numbers.
 */
module EphemeralRedis {
  import opened Common
  import opened Decimal
  import opened EphemeralStore

  /** Largest integer up to which every Lua number is exact. */
  const LUA_EXACT: nat := 0x20_0000_0000_0000

  /** From here on `tostring` no longer prints an integer digit by digit. */
  const LUA_TEXT_EXACT: nat := 100_000_000_000_000

  const I64_MAX: nat := 0x7FFF_FFFF_FFFF_FFFF

  /**
   Numbers on their way to the server. Lua reads a number, prints one with `tostring`, and gives one a
   text as a command argument; the client turns a duration in milliseconds into a double of seconds.
   */
  datatype Lua = Lua(toNumber: Bytes -> Option<int>, toText: int -> Bytes, toArgument: int -> Bytes, seconds: nat -> real)

  /**
   What holds of double-precision numbers, on the decimal text the scripts handle and on durations: a
   whole number of seconds becomes a whole double, and the same number as far as doubles are exact.
   */
  ghost predicate Faithful(lua: Lua) {
    && (forall n: nat {:trigger lua.toNumber(Digits(n))} :: n <= LUA_EXACT ==> lua.toNumber(Digits(n)) == Some(n))
    && (forall n: nat {:trigger lua.toNumber(Digits(n))} :: n > LUA_EXACT ==>
          lua.toNumber(Digits(n)).Some? && lua.toNumber(Digits(n)).value >= LUA_EXACT)
    && (forall n: nat {:trigger lua.toText(n)} :: n < LUA_TEXT_EXACT ==> lua.toText(n) == Digits(n))
    && (forall n: nat {:trigger lua.toArgument(n)} :: n <= LUA_EXACT ==> lua.toArgument(n) == Digits(n))
    && (forall ttl: nat {:trigger lua.seconds(ttl)} :: ttl % 1000 == 0 ==>
          && lua.seconds(ttl) == lua.seconds(ttl).Floor as real && lua.seconds(ttl) >= 0.0
          && (ttl / 1000 <= LUA_EXACT ==> lua.seconds(ttl) == (ttl / 1000) as real))
  }

  /** Redis expires in whole seconds: round up, and never to nothing. */
  function TtlSecs(lua: Lua, ttl: nat): nat {
    var secs := Ceiling(lua.seconds(ttl));
    if secs <= 0 then 1 else if secs > I64_MAX then I64_MAX else secs
  }

  function Ceiling(x: real): int {
    if x == x.Floor as real then x.Floor else x.Floor + 1
  }

  predicate WholeSeconds(ttl: nat) {
    0 < ttl && ttl % 1000 == 0 && ttl / 1000 <= LUA_EXACT
  }

  /**
   The rounding is invisible exactly for positive whole numbers of seconds in range that a double holds,
   and for the largest number of all, to which a larger double is cut back.
   */
  lemma TtlExact(lua: Lua, ttl: nat)
    requires Faithful(lua)
    ensures TtlSecs(lua, ttl) * 1000 == ttl <==>
            && 0 < ttl && ttl % 1000 == 0
            && (if ttl / 1000 < I64_MAX then lua.seconds(ttl) == (ttl / 1000) as real
                else ttl / 1000 == I64_MAX && lua.seconds(ttl) >= I64_MAX as real)
    ensures WholeSeconds(ttl) ==> TtlSecs(lua, ttl) * 1000 == ttl
  {
    assert ttl == ttl / 1000 * 1000 + ttl % 1000;
  }

  // ----- Such numbers exist ----------------------------------------------------------------------

  function SampleNumber(text: Bytes): Option<int> {
    if AllDigits(text) && Value(text) <= LUA_EXACT then Some(Value(text)) else Some(LUA_EXACT)
  }

  function SampleText(n: int): Bytes {
    if 0 <= n < LUA_TEXT_EXACT then Digits(n) else "e"
  }

  function SampleArgument(n: int): Bytes {
    if 0 <= n then Digits(n) else "-"
  }

  function SampleSeconds(ttl: nat): real {
    ttl as real / 1000.0
  }

  lemma SampleReads(n: nat)
    ensures SampleNumber(Digits(n)) == Some(if n <= LUA_EXACT then n else LUA_EXACT)
  {
    ValueOfDigits(n);
  }

  lemma SampleWhole(ttl: nat)
    requires ttl % 1000 == 0
    ensures SampleSeconds(ttl) == (ttl / 1000) as real == SampleSeconds(ttl).Floor as real
  {
    assert ttl == ttl / 1000 * 1000;
  }

  /** The hypothesis can be met, with a `tostring` that leaves decimal notation where Lua's does. */
  lemma FaithfulIsMet() returns (lua: Lua)
    ensures Faithful(lua) && !AllDigits(lua.toText(LUA_TEXT_EXACT))
  {
    lua := Lua(SampleNumber, SampleText, SampleArgument, SampleSeconds);
    forall n: nat {:trigger lua.toNumber(Digits(n))} ensures lua.toNumber(Digits(n)) == Some(if n <= LUA_EXACT then n else LUA_EXACT) {
      SampleReads(n);
    }
    forall ttl: nat {:trigger lua.seconds(ttl)} | ttl % 1000 == 0
      ensures lua.seconds(ttl) == (ttl / 1000) as real == lua.seconds(ttl).Floor as real
    {
      SampleWhole(ttl);
    }
    assert lua.toText(LUA_TEXT_EXACT) == "e" && !IsDigit("e"[0]);
  }

  datatype Hash = Hash(v: Bytes, val: Bytes, expireAt: Instant)

  /** The hash stands for the entry: same value, same deadline, version in canonical decimal. */
  predicate Encodes(h: Hash, e: Entry) {
    h.v == Digits(e.version) && h.val == e.value && h.expireAt == e.expiresAt
  }

  function Present(hashes: map<Key, Hash>, key: Key, now: Instant): Option<Hash> {
    if key in hashes && now < hashes[key].expireAt then Some(hashes[key]) else None
  }

  ghost predicate Stands(h: Option<Hash>, e: Option<Entry>) {
    if e == None then h == None else h.Some? && Encodes(h.value, e.value)
  }

  ghost predicate Represents(hashes: map<Key, Hash>, s: Store, now: Instant) {
    forall k :: Stands(Present(hashes, k, now), Live(s, k, now))
  }

  /**
   A stored value both backends read alike with `slack` increments to spare: text of one number small
   enough to stay printable, in whatever notation, or text that neither reads as a number.
   */
  predicate CounterSafe(lua: Lua, value: Bytes, slack: nat) {
    match ParseU64(value)
    case None => lua.toNumber(value) == None
    case Some(n) => lua.toNumber(value) == Some(n) && n + slack < LUA_TEXT_EXACT
  }

  predicate TtlWhole(op: Op) {
    (op.Put? || op.PutIfAbsent? || op.CompareAndSwap? || op.ExtendTtl? || op.TryIncrement?) ==> WholeSeconds(op.ttl)
  }

  /** The state a call meets is one where Lua's numbers are exact and the counter is readable. */
  ghost predicate Fits(lua: Lua, s: Store, op: Op, now: Instant) {
    && Faithful(lua) && TtlWhole(op)
    && (Live(s, op.key, now).Some? ==>
          && Live(s, op.key, now).value.version < LUA_EXACT
          && (op.TryIncrement? ==> CounterSafe(lua, Live(s, op.key, now).value.value, 1)))
  }

  /** Whatever store the hashes stood for, the call answers as the port does on it and keeps standing for it. */
  ghost predicate Refines(lua: Lua, before: map<Key, Hash>, op: Op, now: Instant, after: map<Key, Hash>, reply: Reply) {
    forall s :: Represents(before, s, now) && Fits(lua, s, op, now) ==>
      reply == Apply(s, op, now).1 && Represents(after, Apply(s, op, now).0, now)
  }

  /** One key changed on both sides, and alike. */
  lemma KeyChanged(before: map<Key, Hash>, s: Store, now: Instant, key: Key, after: map<Key, Hash>, s': Store)
    requires Represents(before, s, now)
    requires forall k :: k != key ==> Present(after, k, now) == Present(before, k, now) && Live(s', k, now) == Live(s, k, now)
    requires Stands(Present(after, key, now), Live(s', key, now))
    ensures Represents(after, s', now)
  {
    forall k ensures Stands(Present(after, k, now), Live(s', k, now)) {
      assert Stands(Present(before, k, now), Live(s, k, now));
    }
  }

  class RedisEphemeralStore {
    var hashes: map<Key, Hash>
    const lua: Lua

    constructor (lua: Lua)
      ensures hashes == map[] && this.lua == lua
    {
      this.lua := lua;
      hashes := map[];
    }

    method Get(key: Key, now: Instant) returns (found: Option<Bytes>)
      ensures Refines(lua, hashes, Op.Get(key), now, hashes, Read(found))
      ensures Present(hashes, key, now).Some? ==> found == Some(hashes[key].val)
    {
      var h := Present(hashes, key, now);
      found := if h.Some? then Some(h.value.val) else None;
      forall s | Represents(hashes, s, now) ensures Read(found) == Apply(s, Op.Get(key), now).1 {
        assert Stands(h, Live(s, key, now));
      }
    }

    method Put(key: Key, value: Bytes, ttl: nat, now: Instant) returns (reply: Reply)
      modifies this
      ensures Refines(lua, old(hashes), Op.Put(key, value, ttl), now, hashes, reply)
    {
      var h := Present(hashes, key, now);
      var ver := if h.Some? then lua.toNumber(h.value.v) else Some(0);
      reply := if ver.Some? then Written else Invalid;
      if ver.Some? {
        hashes := hashes[key := Hash(lua.toArgument(ver.value + 1), value, now + 1000 * TtlSecs(lua, ttl))];
      }
      var op := Op.Put(key, value, ttl);
      forall s | Represents(old(hashes), s, now) && Fits(lua, s, op, now)
        ensures reply == Apply(s, op, now).1 && Represents(hashes, Apply(s, op, now).0, now)
      {
        assert Stands(h, Live(s, key, now));
        TtlExact(lua, ttl);
        KeyChanged(old(hashes), s, now, key, hashes, Apply(s, op, now).0);
      }
    }

    method PutIfAbsent(key: Key, value: Bytes, ttl: nat, now: Instant) returns (created: bool)
      modifies this
      ensures Refines(lua, old(hashes), Op.PutIfAbsent(key, value, ttl), now, hashes, Created(created))
    {
      var h := Present(hashes, key, now);
      created := h == None;
      if created {
        hashes := hashes[key := Hash(lua.toArgument(1), value, now + 1000 * TtlSecs(lua, ttl))];
      }
      var op := Op.PutIfAbsent(key, value, ttl);
      forall s | Represents(old(hashes), s, now) && Fits(lua, s, op, now)
        ensures Created(created) == Apply(s, op, now).1 && Represents(hashes, Apply(s, op, now).0, now)
      {
        assert Stands(h, Live(s, key, now));
        TtlExact(lua, ttl);
        if created {
          KeyChanged(old(hashes), s, now, key, hashes, Apply(s, op, now).0);
        }
      }
    }

    method CompareAndSwap(key: Key, expected: nat, value: Bytes, ttl: nat, now: Instant) returns (reply: Reply)
      modifies this
      ensures Refines(lua, old(hashes), Op.CompareAndSwap(key, expected, value, ttl), now, hashes, reply)
    {
      var h := Present(hashes, key, now);
      reply := Swapped(None);
      if h.Some? && h.value.v == Digits(expected) {
        var number := lua.toNumber(Digits(expected));
        if number == None {
          reply := Invalid;
        } else {
          var next := number.value + 1;
          hashes := hashes[key := Hash(lua.toArgument(next), value, now + 1000 * TtlSecs(lua, ttl))];
          reply := if next >= 0 then Swapped(Some(next)) else Invalid;
        }
      }
      var op := Op.CompareAndSwap(key, expected, value, ttl);
      forall s | Represents(old(hashes), s, now) && Fits(lua, s, op, now)
        ensures reply == Apply(s, op, now).1 && Represents(hashes, Apply(s, op, now).0, now)
      {
        assert Stands(h, Live(s, key, now));
        TtlExact(lua, ttl);
        if h.Some? && h.value.v == Digits(expected) {
          DigitsInjective(expected, Live(s, key, now).value.version);
          KeyChanged(old(hashes), s, now, key, hashes, Apply(s, op, now).0);
        }
      }
    }

    method Delete(key: Key, now: Instant)
      modifies this
      ensures Refines(lua, old(hashes), Op.Delete(key), now, hashes, Written)
      ensures hashes == old(hashes) - {key}
    {
      hashes := hashes - {key};
      var op := Op.Delete(key);
      forall s | Represents(old(hashes), s, now) ensures Represents(hashes, Apply(s, op, now).0, now) {
        KeyChanged(old(hashes), s, now, key, hashes, Apply(s, op, now).0);
      }
    }

    method ExtendTtl(key: Key, ttl: nat, now: Instant)
      modifies this
      ensures Refines(lua, old(hashes), Op.ExtendTtl(key, ttl), now, hashes, Written)
    {
      var h := Present(hashes, key, now);
      if h.Some? {
        hashes := hashes[key := h.value.(expireAt := now + 1000 * TtlSecs(lua, ttl))];
      }
      var op := Op.ExtendTtl(key, ttl);
      forall s | Represents(old(hashes), s, now) && Fits(lua, s, op, now) ensures Represents(hashes, Apply(s, op, now).0, now) {
        assert Stands(h, Live(s, key, now));
        TtlExact(lua, ttl);
        if h.Some? {
          KeyChanged(old(hashes), s, now, key, hashes, Apply(s, op, now).0);
        }
      }
    }

    method TryIncrementCounter(key: Key, max: nat, ttl: nat, now: Instant) returns (reply: Reply)
      modifies this
      ensures Refines(lua, old(hashes), TryIncrement(key, max, ttl), now, hashes, reply)
      ensures reply.Counted? && reply.count.Some? ==>
                Present(hashes, key, now).Some? && hashes[key].val == lua.toText(reply.count.value)
      ensures reply == Counted(None) ==> hashes == old(hashes)
      ensures var h, limit := Present(old(hashes), key, now), lua.toNumber(Digits(max));
              (h.Some? && lua.toNumber(h.value.val).Some? && limit.Some? && 0 <= lua.toNumber(h.value.val).value < limit.value)
                ==> reply == Counted(Some(lua.toNumber(h.value.val).value + 1))
    {
      var op := TryIncrement(key, max, ttl);
      var h := Present(hashes, key, now);
      var current, version := Some(0), 0;
      if h.Some? {
        current := lua.toNumber(h.value.val);
        var ver := lua.toNumber(h.value.v);
        version := if ver.Some? then ver.value else 0;
      }
      var limit := lua.toNumber(Digits(max));
      if current == None || limit == None {
        reply := Invalid;
      } else if current.value >= limit.value {
        reply := Counted(None);
      } else {
        var next := current.value + 1;
        hashes := hashes[key := Hash(lua.toArgument(version + 1), lua.toText(next), now + 1000 * TtlSecs(lua, ttl))];
        reply := if next >= 0 then Counted(Some(next)) else Invalid;
      }
      forall s | Represents(old(hashes), s, now) && Fits(lua, s, op, now)
        ensures reply == Apply(s, op, now).1 && Represents(hashes, Apply(s, op, now).0, now)
      {
        CountRefines(lua, old(hashes), s, key, max, ttl, now, hashes, reply);
      }
    }

    /** The server discards some expired keys on its own. */
    method Expire(keys: set<Key>, now: Instant)
      modifies this
      ensures forall k :: Present(hashes, k, now) == Present(old(hashes), k, now)
    {
      hashes := map k | k in hashes && (k !in keys || now < hashes[k].expireAt) :: hashes[k];
    }

    method Handle(op: Op, now: Instant) returns (reply: Reply)
      modifies this
      ensures Refines(lua, old(hashes), op, now, hashes, reply)
    {
      match op
      case Get(key) =>
        var found := Get(key, now);
        reply := Read(found);
      case Put(key, value, ttl) =>
        reply := Put(key, value, ttl, now);
      case PutIfAbsent(key, value, ttl) =>
        var created := PutIfAbsent(key, value, ttl, now);
        reply := Created(created);
      case CompareAndSwap(key, expected, value, ttl) =>
        reply := CompareAndSwap(key, expected, value, ttl, now);
      case Delete(key) =>
        Delete(key, now);
        reply := Written;
      case ExtendTtl(key, ttl) =>
        ExtendTtl(key, ttl, now);
        reply := Written;
      case TryIncrement(key, max, ttl) =>
        reply := TryIncrementCounter(key, max, ttl, now);
    }
  }

  /** Representation outlives time: what is still live has the same deadline on both sides. */
  lemma RepresentsLater(hashes: map<Key, Hash>, s: Store, now: Instant, later: Instant)
    requires Represents(hashes, s, now) && now <= later
    ensures Represents(hashes, s, later)
  {
    forall k ensures Stands(Present(hashes, k, later), Live(s, k, later)) {
      assert Stands(Present(hashes, k, now), Live(s, k, now));
    }
  }

  /** Under `Fits`, Lua reads the counter, the version and the cap as the port does. */
  lemma CounterRead(lua: Lua, s: Store, key: Key, now: Instant, h: Option<Hash>, max: nat)
    requires Faithful(lua) && Stands(h, Live(s, key, now))
    requires h.Some? ==> CounterSafe(lua, h.value.val, 1)
    ensures lua.toNumber(Digits(max)).Some?
    ensures h.Some? ==> (lua.toNumber(h.value.val) == None <==> ParseU64(h.value.val) == None)
    ensures h.Some? && ParseU64(h.value.val).Some? ==>
              && lua.toNumber(h.value.val) == Some(ParseU64(h.value.val).value)
              && ParseU64(h.value.val).value + 1 < LUA_TEXT_EXACT
    ensures lua.toNumber(Digits(max)).value == max || (lua.toNumber(Digits(max)).value >= LUA_EXACT && max >= LUA_EXACT)
  {
  }

  /** What the counter script does to a hash that is present, or to none. */
  ghost predicate Counts(lua: Lua, before: map<Key, Hash>, key: Key, max: nat, ttl: nat, now: Instant, after: map<Key, Hash>, reply: Reply) {
    var h, limit := Present(before, key, now), lua.toNumber(Digits(max));
    var current := if h.Some? then lua.toNumber(h.value.val) else Some(0);
    var version := if h.Some? && lua.toNumber(h.value.v).Some? then lua.toNumber(h.value.v).value else 0;
    if current == None || limit == None then after == before && reply == Invalid
    else if current.value >= limit.value then after == before && reply == Counted(None)
    else
      && after == before[key := Hash(lua.toArgument(version + 1), lua.toText(current.value + 1), now + 1000 * TtlSecs(lua, ttl))]
      && reply == if current.value + 1 >= 0 then Counted(Some(current.value + 1)) else Invalid
  }

  lemma CountRefines(lua: Lua, before: map<Key, Hash>, s: Store, key: Key, max: nat, ttl: nat, now: Instant, after: map<Key, Hash>, reply: Reply)
    requires Represents(before, s, now) && Fits(lua, s, TryIncrement(key, max, ttl), now)
    requires Counts(lua, before, key, max, ttl, now, after, reply)
    ensures reply == Apply(s, TryIncrement(key, max, ttl), now).1
    ensures Represents(after, Apply(s, TryIncrement(key, max, ttl), now).0, now)
  {
    var h, op := Present(before, key, now), TryIncrement(key, max, ttl);
    assert Stands(h, Live(s, key, now));
    TtlExact(lua, ttl);
    CounterRead(lua, s, key, now, h, max);
    if reply.Counted? && reply.count.Some? {
      KeyChanged(before, s, now, key, after, Apply(s, op, now).0);
    }
  }
}
