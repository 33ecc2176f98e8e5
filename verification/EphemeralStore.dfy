/**
 The ephemeral store port: a map from keys to versioned values that expire, with an atomic
 compare-and-swap and a capped counter. `Apply` is the port's behaviour, free of either backend.
 */
module EphemeralStore {
  import opened Common
  import opened Decimal

  type Key = string

  /** Byte strings, one character per byte. */
  type Bytes = string

  datatype Entry = Entry(value: Bytes, version: nat, expiresAt: Instant)

  type Store = map<Key, Entry>

  /** The entry a caller can see at `now`. */
  function Live(s: Store, key: Key, now: Instant): Option<Entry> {
    if key in s && now < s[key].expiresAt then Some(s[key]) else None
  }

  /** The port's calls. Times to live are in milliseconds, like instants. */
  datatype Op =
    | Get(key: Key)
    | Put(key: Key, value: Bytes, ttl: nat)
    | PutIfAbsent(key: Key, value: Bytes, ttl: nat)
    | CompareAndSwap(key: Key, expected: nat, value: Bytes, ttl: nat)
    | Delete(key: Key)
    | ExtendTtl(key: Key, ttl: nat)
    | TryIncrement(key: Key, max: nat, ttl: nat)

  datatype Reply =
    | Read(found: Option<Bytes>)
    | Written
    | Created(created: bool)
    | Swapped(version: Option<nat>)
    | Counted(count: Option<nat>)
    | Invalid

  function NextVersion(e: Option<Entry>): nat {
    if e.Some? then e.value.version + 1 else 1
  }

  /** The number a counter key holds; an absent key counts as zero, a non-number is an error. */
  function CounterValue(e: Option<Entry>): Option<nat> {
    if e == None then Some(0) else ParseU64(e.value.value)
  }

  function Apply(s: Store, op: Op, now: Instant): (Store, Reply) {
    var e := Live(s, op.key, now);
    match op
    case Get(key) =>
      (s, Read(if e.Some? then Some(e.value.value) else None))
    case Put(key, value, ttl) =>
      (s[key := Entry(value, NextVersion(e), now + ttl)], Written)
    case PutIfAbsent(key, value, ttl) =>
      if e.Some? then (s, Created(false)) else (s[key := Entry(value, 1, now + ttl)], Created(true))
    case CompareAndSwap(key, expected, value, ttl) =>
      if e.Some? && e.value.version == expected
      then (s[key := Entry(value, expected + 1, now + ttl)], Swapped(Some(expected + 1)))
      else (s, Swapped(None))
    case Delete(key) =>
      (s - {key}, Written)
    case ExtendTtl(key, ttl) =>
      (if e.Some? then s[key := e.value.(expiresAt := now + ttl)] else s, Written)
    case TryIncrement(key, max, ttl) =>
      var n := CounterValue(e);
      if n == None then (s, Invalid)
      else if n.value >= max then (s, Counted(None))
      else (s[key := Entry(Digits(n.value + 1), NextVersion(e), now + ttl)], Counted(Some(n.value + 1)))
  }

  /** A call at an instant, or a backend discarding some expired keys. */
  datatype Event = Call(at: Instant, op: Op) | Sweep(at: Instant, keys: set<Key>)

  ghost predicate Ordered(events: seq<Event>, from: Instant) {
    events == [] || (from <= events[0].at && Ordered(events[1..], events[0].at))
  }

  /** The replies of a run; sweeps are invisible. */
  function Run(s: Store, events: seq<Event>): seq<Reply>
    decreases events
  {
    if events == [] then []
    else match events[0]
      case Call(at, op) => [Apply(s, op, at).1] + Run(Apply(s, op, at).0, events[1..])
      case Sweep(_, _) => Run(s, events[1..])
  }

  // ----- Equal to every caller -------------------------------------------------------------------

  /** No caller can tell the two stores apart at `now`. */
  ghost predicate Shows(a: Store, b: Store, now: Instant) {
    forall k :: Live(a, k, now) == Live(b, k, now)
  }

  lemma ShowsLater(a: Store, b: Store, now: Instant, later: Instant)
    requires Shows(a, b, now) && now <= later
    ensures Shows(a, b, later)
  {
    forall k ensures Live(a, k, later) == Live(b, k, later) {
      assert Live(a, k, now) == Live(b, k, now);
    }
  }

  lemma ShowsTransitive(a: Store, b: Store, c: Store, now: Instant)
    requires Shows(a, b, now) && Shows(b, c, now)
    ensures Shows(a, c, now)
  {
    forall k ensures Live(a, k, now) == Live(c, k, now) {
      assert Live(a, k, now) == Live(b, k, now) == Live(c, k, now);
    }
  }

  lemma ApplyOnShown(a: Store, b: Store, op: Op, now: Instant)
    requires Shows(a, b, now)
    ensures Apply(a, op, now).1 == Apply(b, op, now).1
    ensures Shows(Apply(a, op, now).0, Apply(b, op, now).0, now)
  {
    var a', b' := Apply(a, op, now).0, Apply(b, op, now).0;
    assert Live(a, op.key, now) == Live(b, op.key, now);
    forall k ensures Live(a', k, now) == Live(b', k, now) {
      assert Live(a, k, now) == Live(b, k, now);
    }
  }

  /** Versions grow by at most one per call, so a run this long never reaches a bound above its length. */
  ghost predicate VersionsAtMost(s: Store, now: Instant, bound: nat) {
    forall k :: Live(s, k, now).Some? ==> Live(s, k, now).value.version <= bound
  }

  lemma ApplyVersions(s: Store, op: Op, now: Instant, bound: nat)
    requires VersionsAtMost(s, now, bound)
    ensures VersionsAtMost(Apply(s, op, now).0, now, bound + 1)
  {
    var s' := Apply(s, op, now).0;
    assert Live(s, op.key, now).Some? ==> Live(s, op.key, now).value.version <= bound;
    forall k | Live(s', k, now).Some? ensures Live(s', k, now).value.version <= bound + 1 {
      assert Live(s, k, now).Some? ==> Live(s, k, now).value.version <= bound;
    }
  }

  lemma VersionsLater(s: Store, now: Instant, later: Instant, bound: nat)
    requires VersionsAtMost(s, now, bound) && now <= later
    ensures VersionsAtMost(s, later, bound)
  {
    forall k | Live(s, k, later).Some? ensures Live(s, k, later).value.version <= bound {
      assert Live(s, k, now) == Live(s, k, later);
    }
  }
}
