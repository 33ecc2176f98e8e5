/**
 What the store promises its callers, said on a history of calls and their replies alone: which call last
 wrote a key, until when that write stands, and what each reply therefore is.
 */
module EphemeralMeaning {
  import opened Common
  import opened Decimal
  import opened EphemeralStore

  type History = seq<Event>

  /** How many calls come before event `i`. Sweeps get no reply. */
  function CallsBefore(events: History, i: nat): (n: nat)
    requires i <= |events|
    ensures n <= i
  {
    if i == 0 then 0 else CallsBefore(events, i - 1) + if events[i - 1].Call? then 1 else 0
  }

  lemma {:induction false} CallsGrow(events: History, i: nat, j: nat)
    requires i <= j <= |events|
    ensures CallsBefore(events, i) <= CallsBefore(events, j)
    ensures i < j && events[i].Call? ==> CallsBefore(events, i) < CallsBefore(events, j)
  {
    if i < j {
      CallsGrow(events, i, j - 1);
    }
  }

  /** One reply for each call. */
  ghost predicate Matched(events: History, replies: seq<Reply>) {
    |replies| == CallsBefore(events, |events|)
  }

  /** Event `i` is a call on the key. */
  ghost predicate CallOn(events: History, i: nat, key: Key) {
    i < |events| && events[i].Call? && events[i].op.key == key
  }

  ghost function ReplyTo(events: History, replies: seq<Reply>, i: nat): Reply
    requires Matched(events, replies) && i < |events| && events[i].Call?
  {
    CallsGrow(events, i, |events|);
    replies[CallsBefore(events, i)]
  }

  // ----- Writes and what becomes of them ---------------------------------------------------------

  /** Event `i` wrote the key, as its reply tells. */
  ghost predicate Wrote(events: History, replies: seq<Reply>, i: nat, key: Key)
    requires Matched(events, replies)
  {
    && CallOn(events, i, key)
    && match events[i].op
       case Put(_, _, _) => true
       case PutIfAbsent(_, _, _) => ReplyTo(events, replies, i) == Created(true)
       case CompareAndSwap(_, _, _, _) => ReplyTo(events, replies, i).Swapped? && ReplyTo(events, replies, i).version.Some?
       case TryIncrement(_, _, _) => ReplyTo(events, replies, i).Counted? && ReplyTo(events, replies, i).count.Some?
       case _ => false
  }

  /** The value a write left: the caller's, or the number counted to. */
  ghost function Content(events: History, replies: seq<Reply>, i: nat, key: Key): Bytes
    requires Matched(events, replies) && Wrote(events, replies, i, key)
  {
    if events[i].op.TryIncrement? then Digits(ReplyTo(events, replies, i).count.value) else events[i].op.value
  }

  ghost predicate Deleted(events: History, i: nat, key: Key) {
    CallOn(events, i, key) && events[i].op.Delete?
  }

  /** Write `w` is the last of the key before event `i`, and nothing deleted the key since. */
  ghost predicate LastWrite(events: History, replies: seq<Reply>, w: nat, i: nat, key: Key)
    requires Matched(events, replies)
  {
    && w < i <= |events| && Wrote(events, replies, w, key)
    && forall j: nat :: w < j < i ==> !Wrote(events, replies, j, key) && !Deleted(events, j, key)
  }

  /** Until when write `w` stands, seen before event `i`: extensions count only while it still stands. */
  ghost function Deadline(events: History, replies: seq<Reply>, w: nat, i: nat, key: Key): Instant
    requires Matched(events, replies) && Wrote(events, replies, w, key) && w < i <= |events|
    decreases i
  {
    if i == w + 1 then events[w].at + events[w].op.ttl
    else
      var before, e := Deadline(events, replies, w, i - 1, key), events[i - 1];
      if e.Call? && e.op.ExtendTtl? && e.op.key == key && e.at < before then e.at + e.op.ttl else before
  }

  /** Write `w` is what a call at event `i` finds under the key. */
  ghost predicate Stands(events: History, replies: seq<Reply>, w: nat, i: nat, key: Key)
    requires Matched(events, replies) && i < |events|
  {
    LastWrite(events, replies, w, i, key) && events[i].at < Deadline(events, replies, w, i, key)
  }

  /** A call at event `i` finds nothing under the key. */
  ghost predicate Free(events: History, replies: seq<Reply>, i: nat, key: Key)
    requires Matched(events, replies) && i < |events|
  {
    forall w: nat :: !Stands(events, replies, w, i, key)
  }

  /** The version a write left: one more than that of the write it found standing, or the first. */
  ghost function Version(events: History, replies: seq<Reply>, w: nat, key: Key): nat
    requires Matched(events, replies) && Wrote(events, replies, w, key)
  {
    if before: nat :| Stands(events, replies, before, w, key) then Version(events, replies, before, key) + 1 else 1
  }

  // ----- What each reply is ----------------------------------------------------------------------

  /** Write `w` stands at event `i`, with this value. */
  ghost predicate Holds(events: History, replies: seq<Reply>, w: nat, i: nat, key: Key, value: Bytes)
    requires Matched(events, replies) && i < |events|
  {
    Stands(events, replies, w, i, key) && Content(events, replies, w, key) == value
  }

  /** A call at event `i` finds this value under the key. */
  ghost predicate Reads(events: History, replies: seq<Reply>, i: nat, key: Key, value: Bytes)
    requires Matched(events, replies) && i < |events|
  {
    exists w: nat :: Holds(events, replies, w, i, key, value)
  }

  ghost predicate GetFits(events: History, replies: seq<Reply>, i: nat)
    requires Matched(events, replies) && i < |events| && events[i].Call? && events[i].op.Get?
  {
    var key, reply := events[i].op.key, ReplyTo(events, replies, i);
    && reply.Read?
    && forall value :: reply.found == Some(value) <==> Reads(events, replies, i, key, value)
  }

  ghost predicate CreateFits(events: History, replies: seq<Reply>, i: nat)
    requires Matched(events, replies) && i < |events| && events[i].Call? && events[i].op.PutIfAbsent?
  {
    ReplyTo(events, replies, i) == Created(Free(events, replies, i, events[i].op.key))
  }

  /** Some write stands at event `i` with this version. */
  ghost predicate StandsAt(events: History, replies: seq<Reply>, i: nat, key: Key, version: nat)
    requires Matched(events, replies) && i < |events|
  {
    exists w: nat :: Stands(events, replies, w, i, key) && Version(events, replies, w, key) == version
  }

  ghost predicate SwapFits(events: History, replies: seq<Reply>, i: nat)
    requires Matched(events, replies) && i < |events| && events[i].Call? && events[i].op.CompareAndSwap?
  {
    var op := events[i].op;
    ReplyTo(events, replies, i) ==
      Swapped(if StandsAt(events, replies, i, op.key, op.expected) then Some(op.expected + 1) else None)
  }

  /** The number a call at event `i` reads under the key: zero if there is nothing. */
  ghost predicate Counts(events: History, replies: seq<Reply>, i: nat, key: Key, n: nat)
    requires Matched(events, replies) && i < |events|
  {
    || (n == 0 && Free(events, replies, i, key))
    || exists value :: Reads(events, replies, i, key, value) && ParseU64(value) == Some(n)
  }

  ghost predicate CountFits(events: History, replies: seq<Reply>, i: nat)
    requires Matched(events, replies) && i < |events| && events[i].Call? && events[i].op.TryIncrement?
  {
    var op, reply := events[i].op, ReplyTo(events, replies, i);
    && (reply == Invalid <==> forall n: nat :: !Counts(events, replies, i, op.key, n))
    && (reply == Counted(None) <==> exists n: nat :: Counts(events, replies, i, op.key, n) && n >= op.max)
    && (forall n: nat :: Counts(events, replies, i, op.key, n) && n < op.max ==> reply == Counted(Some(n + 1)))
    && (reply.Counted? && reply.count.Some? ==> exists n: nat :: Counts(events, replies, i, op.key, n) && n < op.max)
  }

  ghost predicate ReplyFits(events: History, replies: seq<Reply>, i: nat)
    requires Matched(events, replies) && i < |events| && events[i].Call?
  {
    match events[i].op
    case Get(_) => GetFits(events, replies, i)
    case PutIfAbsent(_, _, _) => CreateFits(events, replies, i)
    case CompareAndSwap(_, _, _, _) => SwapFits(events, replies, i)
    case TryIncrement(_, _, _) => CountFits(events, replies, i)
    case _ => ReplyTo(events, replies, i) == Written
  }

  /** Every call got the reply the calls before it call for. */
  ghost predicate Answers(events: History, replies: seq<Reply>) {
    Matched(events, replies) && forall i: nat :: i < |events| && events[i].Call? ==> ReplyFits(events, replies, i)
  }

  // ----- The store as its history determines it --------------------------------------------------

  /** The port's store after the first `i` events. */
  ghost function After(events: History, i: nat): Store
    requires i <= |events|
  {
    if i == 0 then map[]
    else
      var s, e := After(events, i - 1), events[i - 1];
      if e.Call? then Apply(s, e.op, e.at).0 else s
  }

  function Stored(s: Store, key: Key): Option<Entry> {
    if key in s then Some(s[key]) else None
  }

  ghost function EntryOf(events: History, replies: seq<Reply>, w: nat, i: nat, key: Key): Entry
    requires Matched(events, replies) && Wrote(events, replies, w, key) && w < i <= |events|
  {
    Entry(Content(events, replies, w, key), Version(events, replies, w, key), Deadline(events, replies, w, i, key))
  }

  /** What is stored under the key before event `i` is what the last write left. */
  ghost predicate Means(events: History, replies: seq<Reply>, i: nat, key: Key, stored: Option<Entry>)
    requires Matched(events, replies) && i <= |events|
  {
    match stored
    case None => forall w: nat :: !LastWrite(events, replies, w, i, key)
    case Some(e) => exists w: nat :: LastWrite(events, replies, w, i, key) && e == EntryOf(events, replies, w, i, key)
  }

  lemma OneLastWrite(events: History, replies: seq<Reply>, w: nat, w': nat, i: nat, key: Key)
    requires Matched(events, replies) && LastWrite(events, replies, w, i, key) && LastWrite(events, replies, w', i, key)
    ensures w == w'
  {
  }

  /** What a call at event `i` finds. */
  lemma FoundExactly(events: History, replies: seq<Reply>, i: nat, key: Key, s: Store)
    requires Matched(events, replies) && i < |events| && Means(events, replies, i, key, Stored(s, key))
    ensures Live(s, key, events[i].at) == None <==> Free(events, replies, i, key)
    ensures forall w: nat :: Stands(events, replies, w, i, key) ==>
              Live(s, key, events[i].at) == Some(EntryOf(events, replies, w, i, key))
    ensures Live(s, key, events[i].at).Some? ==> exists w: nat :: Stands(events, replies, w, i, key)
  {
    if key in s {
      var w: nat :| LastWrite(events, replies, w, i, key) && s[key] == EntryOf(events, replies, w, i, key);
      forall w': nat | LastWrite(events, replies, w', i, key) ensures w' == w {
        OneLastWrite(events, replies, w, w', i, key);
      }
      assert Stands(events, replies, w, i, key) <==> Live(s, key, events[i].at).Some?;
    }
  }

  lemma VersionOfWrite(events: History, replies: seq<Reply>, i: nat, key: Key, s: Store)
    requires Matched(events, replies) && Wrote(events, replies, i, key) && Means(events, replies, i, key, Stored(s, key))
    ensures Version(events, replies, i, key) == NextVersion(Live(s, key, events[i].at))
  {
    FoundExactly(events, replies, i, key, s);
  }

  // ----- One more event --------------------------------------------------------------------------

  lemma LastWriteKept(events: History, replies: seq<Reply>, w: nat, i: nat, key: Key)
    requires Matched(events, replies) && i < |events| && !Wrote(events, replies, i, key) && !Deleted(events, i, key)
    ensures LastWrite(events, replies, w, i + 1, key) <==> LastWrite(events, replies, w, i, key)
  {
  }

  /** An event that neither writes, deletes nor extends the key. */
  lemma MeansKept(events: History, replies: seq<Reply>, i: nat, key: Key, stored: Option<Entry>)
    requires Matched(events, replies) && i < |events| && Means(events, replies, i, key, stored)
    requires !Wrote(events, replies, i, key) && !Deleted(events, i, key)
    requires CallOn(events, i, key) && events[i].op.ExtendTtl? ==> stored.None? || stored.value.expiresAt <= events[i].at
    ensures Means(events, replies, i + 1, key, stored)
  {
    forall w: nat ensures LastWrite(events, replies, w, i + 1, key) <==> LastWrite(events, replies, w, i, key) {
      LastWriteKept(events, replies, w, i, key);
    }
    if stored.Some? {
      var w: nat :| LastWrite(events, replies, w, i, key) && stored.value == EntryOf(events, replies, w, i, key);
      assert LastWrite(events, replies, w, i + 1, key);
      assert Deadline(events, replies, w, i + 1, key) == Deadline(events, replies, w, i, key);
      assert stored.value == EntryOf(events, replies, w, i + 1, key);
    } else {
      var next := i + 1;
      forall w: nat ensures !LastWrite(events, replies, w, next, key) {
        LastWriteKept(events, replies, w, i, key);
      }
    }
  }

  lemma MeansExtended(events: History, replies: seq<Reply>, i: nat, key: Key, e: Entry)
    requires Matched(events, replies) && CallOn(events, i, key) && events[i].op.ExtendTtl?
    requires Means(events, replies, i, key, Some(e)) && events[i].at < e.expiresAt
    ensures Means(events, replies, i + 1, key, Some(e.(expiresAt := events[i].at + events[i].op.ttl)))
  {
    var w: nat :| LastWrite(events, replies, w, i, key) && e == EntryOf(events, replies, w, i, key);
    LastWriteKept(events, replies, w, i, key);
    assert e.(expiresAt := events[i].at + events[i].op.ttl) == EntryOf(events, replies, w, i + 1, key);
  }

  lemma MeansWritten(events: History, replies: seq<Reply>, i: nat, key: Key, s: Store)
    requires Matched(events, replies) && Wrote(events, replies, i, key) && Means(events, replies, i, key, Stored(s, key))
    ensures Means(events, replies, i + 1, key,
                  Some(Entry(Content(events, replies, i, key), NextVersion(Live(s, key, events[i].at)), events[i].at + events[i].op.ttl)))
  {
    VersionOfWrite(events, replies, i, key, s);
    assert LastWrite(events, replies, i, i + 1, key);
    assert Deadline(events, replies, i, i + 1, key) == events[i].at + events[i].op.ttl;
  }

  lemma MeansDeleted(events: History, replies: seq<Reply>, i: nat, key: Key)
    requires Matched(events, replies) && Deleted(events, i, key)
    ensures Means(events, replies, i + 1, key, None)
  {
  }

  /** A call whose reply is the port's. */
  ghost predicate RightAt(events: History, replies: seq<Reply>, i: nat)
    requires Matched(events, replies) && i < |events|
  {
    events[i].Call? ==> ReplyTo(events, replies, i) == Apply(After(events, i), events[i].op, events[i].at).1
  }

  lemma MeansOnKey(events: History, replies: seq<Reply>, i: nat, key: Key)
    requires Matched(events, replies) && CallOn(events, i, key) && RightAt(events, replies, i)
    requires Means(events, replies, i, key, Stored(After(events, i), key))
    ensures Means(events, replies, i + 1, key, Stored(After(events, i + 1), key))
  {
    var s, op, at := After(events, i), events[i].op, events[i].at;
    FoundExactly(events, replies, i, key, s);
    if op.Delete? {
      MeansDeleted(events, replies, i, key);
    } else if Wrote(events, replies, i, key) {
      MeansWritten(events, replies, i, key, s);
    } else if op.ExtendTtl? && Live(s, key, at).Some? {
      MeansExtended(events, replies, i, key, s[key]);
    } else {
      MeansKept(events, replies, i, key, Stored(s, key));
    }
  }

  lemma MeansStep(events: History, replies: seq<Reply>, i: nat, key: Key)
    requires Matched(events, replies) && i < |events| && RightAt(events, replies, i)
    requires Means(events, replies, i, key, Stored(After(events, i), key))
    ensures Means(events, replies, i + 1, key, Stored(After(events, i + 1), key))
  {
    if CallOn(events, i, key) {
      MeansOnKey(events, replies, i, key);
    } else {
      MeansKept(events, replies, i, key, Stored(After(events, i), key));
      assert Stored(After(events, i + 1), key) == Stored(After(events, i), key);
    }
  }

  lemma {:induction false} MeansAfter(events: History, replies: seq<Reply>, i: nat, key: Key)
    requires Matched(events, replies) && i <= |events| && forall j: nat :: j < i ==> RightAt(events, replies, j)
    ensures Means(events, replies, i, key, Stored(After(events, i), key))
  {
    if i > 0 {
      MeansAfter(events, replies, i - 1, key);
      MeansStep(events, replies, i - 1, key);
    }
  }

  // ----- The replies -----------------------------------------------------------------------------

  lemma GetExactly(events: History, replies: seq<Reply>, i: nat, s: Store)
    requires Matched(events, replies) && i < |events| && events[i].Call? && events[i].op.Get?
    requires Means(events, replies, i, events[i].op.key, Stored(s, events[i].op.key))
    ensures GetFits(events, replies, i) <==> ReplyTo(events, replies, i) == Apply(s, events[i].op, events[i].at).1
  {
    var key, reply := events[i].op.key, ReplyTo(events, replies, i);
    FoundExactly(events, replies, i, key, s);
    var e := Live(s, key, events[i].at);
    forall value ensures Reads(events, replies, i, key, value) <==> e.Some? && e.value.value == value {
      ReadsExactly(events, replies, i, key, s, value);
    }
    if e.Some? {
      assert Reads(events, replies, i, key, e.value.value);
    }
  }

  lemma ReadsExactly(events: History, replies: seq<Reply>, i: nat, key: Key, s: Store, value: Bytes)
    requires Matched(events, replies) && i < |events| && Means(events, replies, i, key, Stored(s, key))
    ensures Reads(events, replies, i, key, value) <==> Live(s, key, events[i].at).Some? && Live(s, key, events[i].at).value.value == value
  {
    FoundExactly(events, replies, i, key, s);
    if Live(s, key, events[i].at).Some? && Live(s, key, events[i].at).value.value == value {
      var w: nat :| Stands(events, replies, w, i, key);
      assert Holds(events, replies, w, i, key, value);
    }
  }

  lemma CreateExactly(events: History, replies: seq<Reply>, i: nat, s: Store)
    requires Matched(events, replies) && i < |events| && events[i].Call? && events[i].op.PutIfAbsent?
    requires Means(events, replies, i, events[i].op.key, Stored(s, events[i].op.key))
    ensures CreateFits(events, replies, i) <==> ReplyTo(events, replies, i) == Apply(s, events[i].op, events[i].at).1
  {
    FoundExactly(events, replies, i, events[i].op.key, s);
  }

  lemma SwapExactly(events: History, replies: seq<Reply>, i: nat, s: Store)
    requires Matched(events, replies) && i < |events| && events[i].Call? && events[i].op.CompareAndSwap?
    requires Means(events, replies, i, events[i].op.key, Stored(s, events[i].op.key))
    ensures SwapFits(events, replies, i) <==> ReplyTo(events, replies, i) == Apply(s, events[i].op, events[i].at).1
  {
    var op := events[i].op;
    FoundExactly(events, replies, i, op.key, s);
    var e := Live(s, op.key, events[i].at);
    if e.Some? && e.value.version == op.expected {
      var w: nat :| Stands(events, replies, w, i, op.key);
      assert StandsAt(events, replies, i, op.key, op.expected);
    }
    assert StandsAt(events, replies, i, op.key, op.expected) <==> e.Some? && e.value.version == op.expected;
  }

  lemma CountsExactly(events: History, replies: seq<Reply>, i: nat, key: Key, s: Store, n: nat)
    requires Matched(events, replies) && i < |events| && Means(events, replies, i, key, Stored(s, key))
    ensures Counts(events, replies, i, key, n) <==> CounterValue(Live(s, key, events[i].at)) == Some(n)
  {
    FoundExactly(events, replies, i, key, s);
    var e := Live(s, key, events[i].at);
    if e.Some? {
      ReadsExactly(events, replies, i, key, s, e.value.value);
    }
    forall value | Reads(events, replies, i, key, value) ensures e.Some? && e.value.value == value {
      ReadsExactly(events, replies, i, key, s, value);
    }
  }

  lemma CountExactly(events: History, replies: seq<Reply>, i: nat, s: Store)
    requires Matched(events, replies) && i < |events| && events[i].Call? && events[i].op.TryIncrement?
    requires Means(events, replies, i, events[i].op.key, Stored(s, events[i].op.key))
    ensures CountFits(events, replies, i) <==> ReplyTo(events, replies, i) == Apply(s, events[i].op, events[i].at).1
  {
    var op := events[i].op;
    forall n: nat ensures Counts(events, replies, i, op.key, n) <==> CounterValue(Live(s, op.key, events[i].at)) == Some(n) {
      CountsExactly(events, replies, i, op.key, s, n);
    }
    var n := CounterValue(Live(s, op.key, events[i].at));
    if n.Some? {
      assert Counts(events, replies, i, op.key, n.value);
    }
  }

  lemma FitsExactly(events: History, replies: seq<Reply>, i: nat, s: Store)
    requires Matched(events, replies) && i < |events| && events[i].Call?
    requires Means(events, replies, i, events[i].op.key, Stored(s, events[i].op.key))
    ensures ReplyFits(events, replies, i) <==> ReplyTo(events, replies, i) == Apply(s, events[i].op, events[i].at).1
  {
    match events[i].op
    case Get(_) => GetExactly(events, replies, i, s);
    case PutIfAbsent(_, _, _) => CreateExactly(events, replies, i, s);
    case CompareAndSwap(_, _, _, _) => SwapExactly(events, replies, i, s);
    case TryIncrement(_, _, _) => CountExactly(events, replies, i, s);
    case _ =>
  }

  // ----- Whole histories -------------------------------------------------------------------------

  /** The replies from event `i` on are the port's from the store then. */
  lemma {:induction false} RunSplits(events: History, i: nat)
    requires i <= |events|
    ensures CallsBefore(events, i) <= |Run(map[], events)|
    ensures Run(map[], events)[CallsBefore(events, i)..] == Run(After(events, i), events[i..])
  {
    if i == 0 {
      assert events[0..] == events;
    } else {
      RunSplits(events, i - 1);
      var rest := events[i - 1..];
      assert rest[0] == events[i - 1] && rest[1..] == events[i..];
      var all, n := Run(map[], events), CallsBefore(events, i - 1);
      if events[i - 1].Call? {
        assert all[n..][1..] == all[n + 1..];
      }
    }
  }

  lemma RunMatches(events: History)
    ensures Matched(events, Run(map[], events))
    ensures forall i: nat :: i < |events| ==> RightAt(events, Run(map[], events), i)
  {
    var all := Run(map[], events);
    RunSplits(events, |events|);
    assert events[|events|..] == [];
    assert |all[CallsBefore(events, |events|)..]| == 0;
    forall i: nat | i < |events| ensures RightAt(events, all, i) {
      RunSplits(events, i);
      if events[i].Call? {
        assert all[CallsBefore(events, i)..][0] == Apply(After(events, i), events[i].op, events[i].at).1;
      }
    }
  }

  lemma {:induction false} AnswersAreRight(events: History, replies: seq<Reply>, n: nat)
    requires Answers(events, replies) && n <= |events|
    ensures forall i: nat :: i < n ==> RightAt(events, replies, i)
  {
    if n > 0 {
      AnswersAreRight(events, replies, n - 1);
      if events[n - 1].Call? {
        MeansAfter(events, replies, n - 1, events[n - 1].op.key);
        FitsExactly(events, replies, n - 1, After(events, n - 1));
      }
    }
  }

  lemma {:induction false} CallOfReply(events: History, n: nat, k: nat) returns (i: nat)
    requires n <= |events| && k < CallsBefore(events, n)
    ensures i < n && events[i].Call? && CallsBefore(events, i) == k
  {
    if k == CallsBefore(events, n - 1) {
      i := n - 1;
    } else {
      i := CallOfReply(events, n - 1, k);
    }
  }

  lemma RightIsRun(events: History, replies: seq<Reply>)
    requires Matched(events, replies) && forall i: nat :: i < |events| ==> RightAt(events, replies, i)
    ensures replies == Run(map[], events)
  {
    RunMatches(events);
    var all := Run(map[], events);
    forall k | 0 <= k < |replies| ensures replies[k] == all[k] {
      var i := CallOfReply(events, |events|, k);
      assert RightAt(events, replies, i) && RightAt(events, all, i);
    }
  }

  /**
   A list of replies is the port's if and only if every call got the reply that the calls before it, and
   their replies, call for: a read gives what the last write left unless the key was deleted or the write
   has expired, a conditional write succeeds exactly on a free key or on the version found there, and a
   counter counts from the number found there.
   */
  lemma AnswersExactly(events: History, replies: seq<Reply>)
    ensures Answers(events, replies) <==> replies == Run(map[], events)
  {
    RunMatches(events);
    if Answers(events, replies) {
      AnswersAreRight(events, replies, |events|);
      RightIsRun(events, replies);
    }
    if replies == Run(map[], events) {
      forall i: nat | i < |events| && events[i].Call? ensures ReplyFits(events, replies, i) {
        MeansAfter(events, replies, i, events[i].op.key);
        assert RightAt(events, replies, i);
        FitsExactly(events, replies, i, After(events, i));
      }
    }
  }

  // ----- Other keys ------------------------------------------------------------------------------

  /** The calls on one key. */
  function OnKey(events: History, key: Key): History {
    if events == [] then []
    else (if events[0].Call? && events[0].op.key == key then [events[0]] else []) + OnKey(events[1..], key)
  }

  /** The replies to them. */
  function RepliesOn(events: History, replies: seq<Reply>, key: Key): seq<Reply>
    decreases events
  {
    if events == [] || replies == [] then []
    else if events[0].Sweep? then RepliesOn(events[1..], replies, key)
    else (if events[0].op.key == key then [replies[0]] else []) + RepliesOn(events[1..], replies[1..], key)
  }

  lemma ApplyOnKey(s: Store, s': Store, op: Op, at: Instant, key: Key)
    requires Stored(s, key) == Stored(s', key)
    ensures op.key != key ==> Stored(Apply(s, op, at).0, key) == Stored(s', key)
    ensures op.key == key ==> Stored(Apply(s, op, at).0, key) == Stored(Apply(s', op, at).0, key) && Apply(s, op, at).1 == Apply(s', op, at).1
  {
  }

  lemma {:induction false} RunOnKey(s: Store, s': Store, events: History, key: Key)
    requires Stored(s, key) == Stored(s', key)
    ensures RepliesOn(events, Run(s, events), key) == Run(s', OnKey(events, key))
    decreases events
  {
    if events != [] {
      match events[0] {
        case Sweep(_, _) =>
          RunOnKey(s, s', events[1..], key);
          assert OnKey(events, key) == OnKey(events[1..], key);
        case Call(at, op) =>
          ApplyOnKey(s, s', op, at, key);
          var next, replies := Apply(s, op, at).0, Run(s, events);
          assert replies[1..] == Run(next, events[1..]);
          if op.key == key {
            RunOnKey(next, Apply(s', op, at).0, events[1..], key);
            var rest := OnKey(events[1..], key);
            assert OnKey(events, key) == [events[0]] + rest && ([events[0]] + rest)[1..] == rest;
          } else {
            RunOnKey(next, s', events[1..], key);
            assert OnKey(events, key) == OnKey(events[1..], key);
          }
      }
    }
  }

  /** The replies to the calls on a key are those of a history of these calls alone. */
  lemma KeysAreIndependent(events: History, key: Key)
    ensures RepliesOn(events, Run(map[], events), key) == Run(map[], OnKey(events, key))
  {
    RunOnKey(map[], map[], events, key);
  }
}
