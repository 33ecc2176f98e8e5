/** The two backends give the same answers to every history of calls, with sweeps anywhere in between. */
module EphemeralAgreement {
  import opened Common
  import opened Decimal
  import opened EphemeralStore
  import opened EphemeralMeaning
  import Memory = EphemeralMemory
  import Redis = EphemeralRedis

  lemma RunSteps(events: seq<Event>, i: nat, s: Store)
    requires i < |events|
    ensures events[i..][0] == events[i] && events[i..][1..] == events[i + 1..]
    ensures Run(s, events[i..]) ==
            if events[i].Call?
            then [Apply(s, events[i].op, events[i].at).1] + Run(Apply(s, events[i].op, events[i].at).0, events[i + 1..])
            else Run(s, events[i + 1..])
  {
  }

  /** Every history, on the in-process store: the port's own replies, sweeps or no sweeps. */
  method ServeFromMemory(events: seq<Event>) returns (replies: seq<Reply>)
    requires Ordered(events, 0) && |events| < U64_MAX
    ensures replies == Run(map[], events) && Answers(events, replies)
  {
    var store := new Memory.InMemoryEphemeralStore();
    ghost var s: Store, clock: Instant := map[], 0;
    replies := [];
    assert events[0..] == events;
    for i := 0 to |events|
      invariant fresh(store)
      invariant Ordered(events[i..], clock)
      invariant Shows(store.entries, s, clock) && VersionsAtMost(s, clock, i)
      invariant replies + Run(s, events[i..]) == Run(map[], events)
    {
      RunSteps(events, i, s);
      ghost var now := events[i].at;
      ShowsLater(store.entries, s, clock, now);
      VersionsLater(s, clock, now, i);
      match events[i] {
      case Call(at, op) =>
        ghost var before := store.entries;
        assert Live(before, op.key, at) == Live(s, op.key, at);
        var reply := store.Handle(op, at);
        ApplyOnShown(before, s, op, at);
        ShowsTransitive(store.entries, Apply(before, op, at).0, Apply(s, op, at).0, at);
        ApplyVersions(s, op, at, i);
        s := Apply(s, op, at).0;
        replies := replies + [reply];
      case Sweep(at, keys) =>
        ghost var before := store.entries;
        store.Sweep(at, keys);
        ShowsTransitive(store.entries, before, s, at);
      }
      clock := now;
    }
    AnswersExactly(events, replies);
  }

  /** How often a history increments a key. */
  function Increments(events: seq<Event>, key: Key): (n: nat)
    ensures n <= |events|
    decreases events
  {
    if events == [] then 0
    else
      Increments(events[1..], key)
      + if events[0].Call? && events[0].op.TryIncrement? && events[0].op.key == key then 1 else 0
  }

  predicate Writes(op: Op) {
    op.Put? || op.PutIfAbsent? || op.CompareAndSwap?
  }

  /** A value under a key the history goes on to increment: both backends read it alike that often. */
  ghost predicate SafeFor(lua: Redis.Lua, rest: seq<Event>, key: Key, value: Bytes) {
    Increments(rest, key) > 0 ==> Redis.CounterSafe(lua, value, Increments(rest, key))
  }

  /** Durations are whole seconds, and what is written under keys incremented later is safe for that. */
  ghost predicate ValuesSafe(lua: Redis.Lua, events: seq<Event>) {
    forall i :: 0 <= i < |events| && events[i].Call? ==>
      Redis.TtlWhole(events[i].op) && (Writes(events[i].op) ==> SafeFor(lua, events[i..], events[i].op.key, events[i].op.value))
  }

  ghost predicate StoredSafe(lua: Redis.Lua, s: Store, now: Instant, rest: seq<Event>) {
    forall k :: Live(s, k, now).Some? ==> SafeFor(lua, rest, k, Live(s, k, now).value.value)
  }

  lemma SafeWithLess(lua: Redis.Lua, value: Bytes, slack: nat, less: nat)
    requires Redis.CounterSafe(lua, value, slack) && less <= slack
    ensures Redis.CounterSafe(lua, value, less)
  {
  }

  lemma StoredSafeLater(lua: Redis.Lua, s: Store, now: Instant, later: Instant, rest: seq<Event>)
    requires StoredSafe(lua, s, now, rest) && now <= later
    ensures StoredSafe(lua, s, later, rest)
  {
    forall k | Live(s, k, later).Some? ensures SafeFor(lua, rest, k, Live(s, k, later).value.value) {
      assert Live(s, k, now) == Live(s, k, later);
    }
  }

  lemma SafeForRest(lua: Redis.Lua, rest: seq<Event>, key: Key, value: Bytes)
    requires rest != [] && SafeFor(lua, rest, key, value)
    ensures SafeFor(lua, rest[1..], key, value)
  {
    if Increments(rest[1..], key) > 0 {
      SafeWithLess(lua, value, Increments(rest, key), Increments(rest[1..], key));
    }
  }

  lemma OtherKeysUntouched(s: Store, op: Op, now: Instant, key: Key)
    requires key != op.key
    ensures Live(Apply(s, op, now).0, key, now) == Live(s, key, now)
  {
  }

  /** What a call leaves under its key: the old value, the one it wrote, or the next number. */
  lemma LeftUnderKey(s: Store, op: Op, now: Instant)
    ensures var e, e' := Live(s, op.key, now), Live(Apply(s, op, now).0, op.key, now);
            e'.Some? ==>
              || (e.Some? && e'.value.value == e.value.value)
              || (Writes(op) && e'.value.value == op.value)
              || (op.TryIncrement? && CounterValue(e).Some? && e'.value.value == Digits(CounterValue(e).value + 1))
  {
  }

  /** Each call leaves values safe for the rest of the history. */
  lemma ApplySafe(lua: Redis.Lua, s: Store, now: Instant, rest: seq<Event>)
    requires Redis.Faithful(lua) && rest != [] && rest[0].Call? && |rest| < Redis.LUA_TEXT_EXACT
    requires StoredSafe(lua, s, now, rest)
    requires Writes(rest[0].op) ==> SafeFor(lua, rest, rest[0].op.key, rest[0].op.value)
    ensures StoredSafe(lua, Apply(s, rest[0].op, now).0, now, rest[1..])
  {
    var op := rest[0].op;
    var s' := Apply(s, op, now).0;
    forall k | Live(s', k, now).Some? ensures SafeFor(lua, rest[1..], k, Live(s', k, now).value.value) {
      var e, e' := Live(s, k, now), Live(s', k, now);
      if k != op.key {
        OtherKeysUntouched(s, op, now, k);
      } else {
        LeftUnderKey(s, op, now);
      }
      if (e.Some? && e'.value.value == e.value.value) || (Writes(op) && k == op.key && e'.value.value == op.value) {
        SafeForRest(lua, rest, k, e'.value.value);
      } else if Increments(rest[1..], k) > 0 {
        IncrementSafe(lua, e, Increments(rest[1..], k));
      }
    }
  }

  lemma IncrementSafe(lua: Redis.Lua, e: Option<Entry>, slack: nat)
    requires e.Some? ==> Redis.CounterSafe(lua, e.value.value, slack + 1)
    requires Redis.Faithful(lua) && slack + 1 < Redis.LUA_TEXT_EXACT && CounterValue(e).Some?
    ensures Redis.CounterSafe(lua, Digits(CounterValue(e).value + 1), slack)
  {
    ParseDigits(CounterValue(e).value + 1);
  }

  /** Every history within Lua's exact numbers, on Redis: the same replies. */
  method ServeFromRedis(lua: Redis.Lua, events: seq<Event>) returns (replies: seq<Reply>)
    requires Ordered(events, 0) && Redis.Faithful(lua)
    requires |events| + 1 < Redis.LUA_TEXT_EXACT && ValuesSafe(lua, events)
    ensures replies == Run(map[], events) && Answers(events, replies)
  {
    var store := new Redis.RedisEphemeralStore(lua);
    ghost var s: Store, clock: Instant := map[], 0;
    replies := [];
    assert events[0..] == events;
    for i := 0 to |events|
      invariant fresh(store) && store.lua == lua
      invariant Ordered(events[i..], clock)
      invariant Redis.Represents(store.hashes, s, clock) && VersionsAtMost(s, clock, i)
      invariant StoredSafe(lua, s, clock, events[i..])
      invariant replies + Run(s, events[i..]) == Run(map[], events)
    {
      RunSteps(events, i, s);
      ghost var now, rest := events[i].at, events[i..];
      assert rest[0] == events[i] && rest[1..] == events[i + 1..];
      Redis.RepresentsLater(store.hashes, s, clock, now);
      VersionsLater(s, clock, now, i);
      StoredSafeLater(lua, s, clock, now, rest);
      match events[i] {
      case Call(at, op) =>
        StepFits(lua, s, at, i, rest);
        var reply := store.Handle(op, at);
        ApplyVersions(s, op, at, i);
        ApplySafe(lua, s, at, rest);
        s := Apply(s, op, at).0;
        replies := replies + [reply];
      case Sweep(at, keys) =>
        ghost var before := store.hashes;
        store.Expire(keys, at);
        SweepKeeps(lua, before, store.hashes, s, at, rest);
      }
      clock := now;
    }
    AnswersExactly(events, replies);
  }

  lemma SweepKeeps(lua: Redis.Lua, before: map<Key, Redis.Hash>, after: map<Key, Redis.Hash>, s: Store, now: Instant, rest: seq<Event>)
    requires Redis.Represents(before, s, now) && StoredSafe(lua, s, now, rest) && rest != []
    requires forall k :: Redis.Present(after, k, now) == Redis.Present(before, k, now)
    ensures Redis.Represents(after, s, now) && StoredSafe(lua, s, now, rest[1..])
  {
    forall k ensures Redis.Stands(Redis.Present(after, k, now), Live(s, k, now)) {
      assert Redis.Stands(Redis.Present(before, k, now), Live(s, k, now));
    }
    forall k | Live(s, k, now).Some? ensures SafeFor(lua, rest[1..], k, Live(s, k, now).value.value) {
      SafeForRest(lua, rest, k, Live(s, k, now).value.value);
    }
  }

  lemma StepFits(lua: Redis.Lua, s: Store, now: Instant, bound: nat, rest: seq<Event>)
    requires rest != [] && rest[0].Call? && Redis.Faithful(lua) && Redis.TtlWhole(rest[0].op)
    requires VersionsAtMost(s, now, bound) && bound < Redis.LUA_TEXT_EXACT
    requires StoredSafe(lua, s, now, rest)
    ensures Redis.Fits(lua, s, rest[0].op, now)
  {
    var op := rest[0].op;
    if op.TryIncrement? && Live(s, op.key, now).Some? {
      SafeWithLess(lua, Live(s, op.key, now).value.value, Increments(rest, op.key), 1);
    }
  }

  /** The two backends agree on every such history. */
  method BackendsAgree(lua: Redis.Lua, events: seq<Event>) returns (memory: seq<Reply>, redis: seq<Reply>)
    requires Ordered(events, 0) && Redis.Faithful(lua)
    requires |events| + 1 < Redis.LUA_TEXT_EXACT && ValuesSafe(lua, events)
    ensures memory == redis == Run(map[], events) && Answers(events, memory)
  {
    memory := ServeFromMemory(events);
    redis := ServeFromRedis(lua, events);
  }

  method CountOnMemory(n: nat, max: nat) returns (found: Option<Bytes>)
    requires n < max <= U64_MAX
    ensures found == Some(Digits(n + 1))
  {
    ParseDigits(n);
    var store := new Memory.InMemoryEphemeralStore();
    store.Put("k", Digits(n), 60000, 0);
    assert Live(store.entries, "k", 0) == Some(Entry(Digits(n), 1, 60000));
    var _ := store.TryIncrementCounter("k", max, 60000, 0);
    assert Live(store.entries, "k", 0) == Some(Entry(Digits(n + 1), 2, 60000));
    found := store.Get("k", 0);
  }

  method CountOnRedis(lua: Redis.Lua, n: nat, max: nat) returns (found: Option<Bytes>)
    requires Redis.Faithful(lua) && n < max <= U64_MAX && n < Redis.LUA_TEXT_EXACT
    ensures found == Some(lua.toText(n + 1))
  {
    var store := new Redis.RedisEphemeralStore(lua);
    ghost var empty: Store := map[];
    assert Redis.Represents(store.hashes, empty, 0);
    ghost var op := Put("k", Digits(n), 60000);
    var _ := store.Put("k", Digits(n), 60000, 0);
    assert Redis.Stands(Redis.Present(store.hashes, "k", 0), Live(Apply(empty, op, 0).0, "k", 0));
    assert store.hashes["k"].val == Digits(n) && lua.toNumber(Digits(n)) == Some(n);
    assert lua.toNumber(Digits(max)).Some? && n < lua.toNumber(Digits(max)).value;
    var _ := store.TryIncrementCounter("k", max, 60000, 0);
    found := store.Get("k", 0);
  }

  /**
   The bound on counters is where it bites: `tostring` prints the first number past it in scientific
   notation, so counting up to that number leaves different bytes behind in the two backends.
   */
  method CounterTextDiverges(lua: Redis.Lua, n: nat, max: nat) returns (memory: Option<Bytes>, redis: Option<Bytes>)
    requires Redis.Faithful(lua) && n < max <= U64_MAX && n < Redis.LUA_TEXT_EXACT
    requires !AllDigits(lua.toText(n + 1))
    ensures memory == Some(Digits(n + 1)) && redis == Some(lua.toText(n + 1)) && memory != redis
  {
    memory := CountOnMemory(n, max);
    redis := CountOnRedis(lua, n, max);
  }
}
