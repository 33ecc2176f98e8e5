/** The in-process backend: a map of entries, a per-key lock table, lazy removal and a sweeper. */
module EphemeralMemory {
  import opened Common
  import opened Decimal
  import opened EphemeralStore

  function SaturatingSucc(v: nat): nat {
    if v < U64_MAX then v + 1 else v
  }

  predicate IsExpired(e: Entry, now: Instant) {
    e.expiresAt <= now
  }

  /** The entries a sweep at `now` keeps. */
  function Surviving(entries: Store, now: Instant): Store {
    map k | k in entries && !IsExpired(entries[k], now) :: entries[k]
  }

  /** Below the saturation point, the call answers as the port does and leaves the same visible store. */
  ghost predicate Refines(before: Store, op: Op, now: Instant, after: Store, reply: Reply) {
    (Live(before, op.key, now).Some? ==> Live(before, op.key, now).value.version < U64_MAX)
      ==> reply == Apply(before, op, now).1 && Shows(after, Apply(before, op, now).0, now)
  }

  class InMemoryEphemeralStore {
    var entries: Store
    var casLocks: set<Key>

    constructor ()
      ensures entries == map[] && casLocks == {}
    {
      entries, casLocks := map[], {};
    }

    method LiveEntry(key: Key, now: Instant) returns (e: Option<Entry>)
      modifies this`entries
      ensures e == Live(old(entries), key, now)
      ensures Shows(entries, old(entries), now)
      ensures entries == if e.Some? then old(entries) else old(entries) - {key}
    {
      if key !in entries {
        assert entries - {key} == entries;
        return None;
      }
      if IsExpired(entries[key], now) {
        entries := entries - {key};
        return None;
      }
      return Some(entries[key]);
    }

    method Get(key: Key, now: Instant) returns (found: Option<Bytes>)
      modifies this`entries
      ensures Refines(old(entries), Op.Get(key), now, entries, Read(found))
    {
      var e := LiveEntry(key, now);
      found := if e.Some? then Some(e.value.value) else None;
    }

    method Put(key: Key, value: Bytes, ttl: nat, now: Instant)
      modifies this`entries
      ensures Refines(old(entries), Op.Put(key, value, ttl), now, entries, Written)
    {
      var e := LiveEntry(key, now);
      var next := if e.Some? then SaturatingSucc(e.value.version) else 1;
      entries := entries[key := Entry(value, next, now + ttl)];
    }

    method PutIfAbsent(key: Key, value: Bytes, ttl: nat, now: Instant) returns (created: bool)
      modifies this
      ensures Refines(old(entries), Op.PutIfAbsent(key, value, ttl), now, entries, Created(created))
      ensures casLocks == old(casLocks) + {key}
    {
      casLocks := casLocks + {key};
      if key in entries {
        if !IsExpired(entries[key], now) {
          return false;
        }
        entries := entries - {key};
      }
      entries := entries[key := Entry(value, 1, now + ttl)];
      return true;
    }

    method CompareAndSwap(key: Key, expected: nat, value: Bytes, ttl: nat, now: Instant) returns (version: Option<nat>)
      modifies this
      ensures Refines(old(entries), Op.CompareAndSwap(key, expected, value, ttl), now, entries, Swapped(version))
      ensures casLocks == old(casLocks) + {key}
    {
      casLocks := casLocks + {key};
      if key !in entries || IsExpired(entries[key], now) || entries[key].version != expected {
        return None;
      }
      var next := SaturatingSucc(entries[key].version);
      entries := entries[key := Entry(value, next, now + ttl)];
      return Some(next);
    }

    method Delete(key: Key, now: Instant)
      modifies this`entries
      ensures Refines(old(entries), Op.Delete(key), now, entries, Written)
      ensures entries == old(entries) - {key}
    {
      entries := entries - {key};
    }

    method ExtendTtl(key: Key, ttl: nat, now: Instant)
      modifies this`entries
      ensures Refines(old(entries), Op.ExtendTtl(key, ttl), now, entries, Written)
    {
      if key in entries {
        if IsExpired(entries[key], now) {
          entries := entries - {key};
        } else {
          entries := entries[key := entries[key].(expiresAt := now + ttl)];
        }
      }
    }

    method TryIncrementCounter(key: Key, max: nat, ttl: nat, now: Instant) returns (reply: Reply)
      modifies this
      ensures Refines(old(entries), TryIncrement(key, max, ttl), now, entries, reply)
      ensures casLocks == old(casLocks) + {key}
    {
      casLocks := casLocks + {key};
      var current := 0;
      if key in entries && !IsExpired(entries[key], now) {
        var parsed := ParseU64(entries[key].value);
        if parsed == None {
          return Invalid;
        }
        current := parsed.value;
      }
      if current >= max {
        return Counted(None);
      }
      var next := if key in entries && !IsExpired(entries[key], now) then SaturatingSucc(entries[key].version) else 1;
      entries := entries[key := Entry(Digits(current + 1), next, now + ttl)];
      return Counted(Some(current + 1));
    }

    /** One tick of the evictor. `busy` are the keys whose lock some caller still holds a handle on. */
    method Sweep(now: Instant, busy: set<Key>)
      modifies this
      ensures entries == Surviving(old(entries), now)
      ensures Shows(entries, old(entries), now)
      ensures casLocks == old(casLocks) - (old(entries).Keys - entries.Keys - busy)
    {
      var expired := set k | k in entries && IsExpired(entries[k], now);
      var rest := expired;
      while rest != {}
        invariant rest <= expired && casLocks == old(casLocks)
        invariant entries == old(entries) - (expired - rest)
        decreases rest
      {
        var k :| k in rest;
        entries := entries - {k};
        rest := rest - {k};
      }
      assert entries == Surviving(old(entries), now);
      rest := expired;
      while rest != {}
        invariant rest <= expired && entries == Surviving(old(entries), now)
        invariant casLocks == old(casLocks) - (expired - rest - busy)
        decreases rest
      {
        var k :| k in rest;
        if k !in busy {
          casLocks := casLocks - {k};
        }
        rest := rest - {k};
      }
      assert expired == old(entries).Keys - entries.Keys;
    }

    method Handle(op: Op, now: Instant) returns (reply: Reply)
      modifies this
      ensures Refines(old(entries), op, now, entries, reply)
    {
      match op
      case Get(key) =>
        var found := Get(key, now);
        reply := Read(found);
      case Put(key, value, ttl) =>
        Put(key, value, ttl, now);
        reply := Written;
      case PutIfAbsent(key, value, ttl) =>
        var created := PutIfAbsent(key, value, ttl, now);
        reply := Created(created);
      case CompareAndSwap(key, expected, value, ttl) =>
        var version := CompareAndSwap(key, expected, value, ttl, now);
        reply := Swapped(version);
      case Delete(key) =>
        Delete(key, now);
        reply := Written;
      case ExtendTtl(key, ttl) =>
        ExtendTtl(key, ttl, now);
        reply := Written;
      case TryIncrement(key, max, ttl) =>
        reply := TryIncrementCounter(key, max, ttl, now);
    }
  }
}
