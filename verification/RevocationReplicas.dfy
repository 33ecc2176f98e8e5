/**
 Revocation across replicas: the revoking transaction notifies every subscribed replica, whose
 listener drops the token from its cache, or drops everything when its connection is lost. Tokens
 enter a cache at the end of a validation that reads two rows first.
 */
module RevocationReplicas {
  import opened Common
  import opened Revocation

  // ----- Backoff ---------------------------------------------------------------------------------

  const RECONNECT_BACKOFF_FLOOR: nat := 1
  const RECONNECT_BACKOFF_CAP: nat := 30

  function NextBackoff(current: nat): nat {
    if 2 * current > RECONNECT_BACKOFF_CAP then RECONNECT_BACKOFF_CAP else 2 * current
  }

  function Pow2(n: nat): (p: nat)
    ensures p >= 1
  {
    if n == 0 then 1 else 2 * Pow2(n - 1)
  }

  /** The backoff after `n` doublings. */
  function Delay(n: nat): nat {
    if n == 0 then RECONNECT_BACKOFF_FLOOR else NextBackoff(Delay(n - 1))
  }

  lemma {:induction false} DelayDoublesToTheCap(n: nat)
    ensures Delay(n) == Min(RECONNECT_BACKOFF_CAP, Pow2(n))
  {
    if n > 0 {
      DelayDoublesToTheCap(n - 1);
    }
  }

  // ----- Replicas --------------------------------------------------------------------------------

  /**
   Where a replica's listener is. In `Lost` the flush is still to come; in `Severed` the connection
   broke inside the library, which will subscribe again without telling the listener.
   */
  datatype Phase = Connecting | Listening | Severed | Lost | Sleeping

  /** A validation under way: the token's row has been read, or its user's as well. */
  datatype Validation = TokenRead(t: Uuid) | UserRead(t: Uuid)

  datatype Replica = Replica(phase: Phase, queue: seq<string>, cache: set<Uuid>, backoff: nat, underway: multiset<Validation>)

  datatype System = System(revoked: set<Uuid>, inactive: set<Uuid>, replicas: seq<Replica>)

  datatype Step =
    | Revoke(t: Uuid)
    | SetActive(u: Uuid, active: bool)
    | Broadcast(payload: string)
    | Connect(r: nat)
    | FailToConnect(r: nat)
    | Receive(r: nat)
    | Disconnect(r: nat)
    | Sever(r: nat)
    | Resubscribe(r: nat)
    | Flush(r: nat)
    | Wake(r: nat)
    | ReadToken(r: nat, t: Uuid)
    | ReadUser(r: nat, t: Uuid)
    | Insert(r: nat, t: Uuid)
    | Abandon(r: nat, v: Validation)

  /** A token no replica should accept any more. */
  predicate Stale(env: Env, s: System, t: Uuid) {
    t in s.revoked || env.owner(t) in s.inactive
  }

  /** A notification reaches the replicas subscribed when its transaction commits. */
  function Notified(replicas: seq<Replica>, payload: string): (r: seq<Replica>)
    ensures |r| == |replicas|
    ensures forall i :: 0 <= i < |r| ==>
              r[i] == if replicas[i].phase == Listening then replicas[i].(queue := replicas[i].queue + [payload]) else replicas[i]
  {
    seq(|replicas|, i requires 0 <= i < |replicas| =>
      if replicas[i].phase == Listening then replicas[i].(queue := replicas[i].queue + [payload]) else replicas[i])
  }

  function Received(env: Env, rep: Replica): Replica
    requires rep.queue != []
  {
    rep.(queue := rep.queue[1..], cache := Spared(env, rep.cache, rep.queue[0]))
  }

  /** Neither subscribed nor about to flush. */
  predicate Unheard(rep: Replica) {
    rep.phase != Listening && rep.phase != Lost
  }

  /** One replica's own step. */
  predicate LocalStep(env: Env, s: System, step: Step, rep: Replica, rep': Replica) {
    match step
    case Connect(_) => rep.phase == Connecting && rep' == rep.(phase := Listening, queue := [], backoff := RECONNECT_BACKOFF_FLOOR)
    case FailToConnect(_) => rep.phase == Connecting && rep' == rep.(phase := Lost)
    case Receive(_) => rep.phase == Listening && rep.queue != [] && rep' == Received(env, rep)
    case Disconnect(_) => (rep.phase == Listening || rep.phase == Severed) && rep' == rep.(phase := Lost, queue := [])
    case Sever(_) => rep.phase == Listening && rep' == rep.(phase := Severed, queue := [])
    case Resubscribe(_) => rep.phase == Severed && rep' == rep.(phase := Listening)
    case Flush(_) => rep.phase == Lost && rep' == rep.(phase := Sleeping, cache := {})
    case Wake(_) => rep.phase == Sleeping && rep' == rep.(phase := Connecting, backoff := NextBackoff(rep.backoff))
    case ReadToken(_, t) => t !in s.revoked && rep' == rep.(underway := rep.underway + multiset{TokenRead(t)})
    case ReadUser(_, t) =>
      && TokenRead(t) in rep.underway && env.owner(t) !in s.inactive
      && rep' == rep.(underway := rep.underway - multiset{TokenRead(t)} + multiset{UserRead(t)})
    case Insert(_, t) =>
      && UserRead(t) in rep.underway
      && rep' == rep.(underway := rep.underway - multiset{UserRead(t)}, cache := rep.cache + {t})
    case Abandon(_, v) => rep' == rep.(underway := rep.underway - multiset{v})
    case _ => false
  }

  predicate NextStep(env: Env, s: System, step: Step, s': System) {
    match step
    case Revoke(t) => s' == s.(revoked := s.revoked + {t}, replicas := Notified(s.replicas, TokenPayload(t)))
    case SetActive(u, active) =>
      if active then s' == s.(inactive := s.inactive - {u})
      else s' == s.(inactive := s.inactive + {u}, replicas := Notified(s.replicas, UserPayload(u)))
    case Broadcast(payload) => s' == s.(replicas := Notified(s.replicas, payload))
    case _ =>
      && step.r < |s.replicas| == |s'.replicas|
      && s' == s.(replicas := s.replicas[step.r := s'.replicas[step.r]])
      && LocalStep(env, s, step, s.replicas[step.r], s'.replicas[step.r])
  }

  function Fresh(): Replica {
    Replica(Connecting, [], {}, RECONNECT_BACKOFF_FLOOR, multiset{})
  }

  predicate Init(s: System) {
    s.revoked == {} && s.inactive == {} && forall i :: 0 <= i < |s.replicas| ==> s.replicas[i] == Fresh()
  }

  ghost predicate IsRun(env: Env, run: seq<System>, steps: seq<Step>) {
    && |run| == |steps| + 1 && Init(run[0])
    && forall i :: 0 <= i < |steps| ==> NextStep(env, run[i], steps[i], run[i + 1])
  }

  // ----- What keeps a stale token from staying ---------------------------------------------------

  /** A queued notification, or a flush to come. */
  ghost predicate Covered(env: Env, rep: Replica, t: Uuid) {
    rep.phase == Lost || Pending(env, rep.queue, t)
  }

  ghost predicate ReplicaCovered(env: Env, s: System, rep: Replica) {
    forall t :: t in rep.cache && Stale(env, s, t) ==> Covered(env, rep, t)
  }

  /** Every stale token that is still cached anywhere is on its way out. */
  ghost predicate AllCovered(env: Env, s: System) {
    forall i :: 0 <= i < |s.replicas| ==> ReplicaCovered(env, s, s.replicas[i])
  }

  /** Only a subscribed replica has notifications waiting. */
  ghost predicate QueuesHeard(s: System) {
    forall i :: 0 <= i < |s.replicas| && s.replicas[i].phase != Listening ==> s.replicas[i].queue == []
  }

  /** Some replica that hears nothing caches `t`. */
  ghost predicate CachedUnheard(s: System, t: Uuid) {
    exists i :: 0 <= i < |s.replicas| && Unheard(s.replicas[i]) && t in s.replicas[i].cache
  }

  /**
   The steps after which a stale token stays: a token goes stale while a replica that hears nothing
   caches it; a stale token enters a cache after its notification was handled; or a connection is
   replaced silently over the notification of a cached token.
   */
  ghost predicate Harmful(env: Env, s: System, step: Step) {
    match step
    case Revoke(t) => CachedUnheard(s, t)
    case SetActive(u, active) => !active && exists t :: env.owner(t) == u && CachedUnheard(s, t)
    case Insert(r, t) => r < |s.replicas| && Stale(env, s, t) && !Covered(env, s.replicas[r], t)
    case Sever(r) => r < |s.replicas| && exists t :: t in s.replicas[r].cache && Stale(env, s, t)
    case _ => false
  }

  lemma QueueHeardKept(env: Env, s: System, step: Step, rep: Replica, rep': Replica)
    requires rep.phase == Listening || rep.queue == []
    requires LocalStep(env, s, step, rep, rep')
    ensures rep'.phase == Listening || rep'.queue == []
  {
  }

  lemma QueuesHeardKept(env: Env, s: System, step: Step, s': System)
    requires QueuesHeard(s) && NextStep(env, s, step, s')
    ensures QueuesHeard(s')
  {
    forall i | 0 <= i < |s'.replicas| && s'.replicas[i].phase != Listening ensures s'.replicas[i].queue == [] {
      if !step.Revoke? && !step.SetActive? && !step.Broadcast? && step.r == i {
        QueueHeardKept(env, s, step, s.replicas[i], s'.replicas[i]);
      }
    }
  }

  lemma NotifiedCovers(env: Env, s: System, s': System, payload: string, i: nat)
    requires i < |s.replicas| == |s'.replicas| && s'.replicas == Notified(s.replicas, payload)
    requires ReplicaCovered(env, s, s.replicas[i])
    requires forall t :: Stale(env, s', t) && !Stale(env, s, t) ==>
               && (payload == TokenPayload(t) || payload == UserPayload(env.owner(t)))
               && (Unheard(s.replicas[i]) ==> t !in s.replicas[i].cache)
    ensures ReplicaCovered(env, s', s'.replicas[i])
  {
    var rep, rep' := s.replicas[i], s'.replicas[i];
    forall t | t in rep'.cache && Stale(env, s', t) ensures Covered(env, rep', t) {
      if rep.phase == Listening {
        assert rep'.queue[|rep.queue|] == payload;
        assert forall p :: p in rep.queue ==> p in rep'.queue;
      }
    }
  }

  /** Receiving a notification about a token removes it. */
  lemma ReceivedIsDropped(env: Env, cache: set<Uuid>, payload: string, t: Uuid)
    requires ReadsCanonical(env) && (payload == TokenPayload(t) || payload == UserPayload(env.owner(t)))
    ensures t !in Spared(env, cache, payload)
  {
    CanonicalAddresses(env, payload, t);
  }

  lemma InTail(queue: seq<string>, payload: string)
    requires payload in queue && queue[0] != payload
    ensures payload in queue[1..]
  {
    var i :| 0 <= i < |queue| && queue[i] == payload;
    assert queue[1..][i - 1] == payload;
  }

  lemma ReceiveCoversOne(env: Env, rep: Replica, t: Uuid, tokenPayload: string, userPayload: string)
    requires ReadsCanonical(env) && rep.queue != []
    requires tokenPayload == TokenPayload(t) && userPayload == UserPayload(env.owner(t))
    requires tokenPayload in rep.queue || userPayload in rep.queue
    requires t in Received(env, rep).cache
    ensures tokenPayload in rep.queue[1..] || userPayload in rep.queue[1..]
  {
    if rep.queue[0] == tokenPayload || rep.queue[0] == userPayload {
      ReceivedIsDropped(env, rep.cache, rep.queue[0], t);
      assert false;
    } else if tokenPayload in rep.queue {
      InTail(rep.queue, tokenPayload);
    } else {
      InTail(rep.queue, userPayload);
    }
  }

  lemma ReceiveCovers(env: Env, s: System, rep: Replica)
    requires ReadsCanonical(env) && rep.phase == Listening && rep.queue != [] && ReplicaCovered(env, s, rep)
    ensures ReplicaCovered(env, s, Received(env, rep))
  {
    var rep' := Received(env, rep);
    forall t | t in rep'.cache && Stale(env, s, t) ensures Covered(env, rep', t) {
      assert t in rep.cache;
      ReceiveCoversOne(env, rep, t, TokenPayload(t), UserPayload(env.owner(t)));
    }
  }

  lemma LocalKept(env: Env, s: System, step: Step, rep: Replica, rep': Replica)
    requires ReadsCanonical(env) && ReplicaCovered(env, s, rep) && LocalStep(env, s, step, rep, rep')
    requires rep.phase != Listening ==> rep.queue == []
    requires step.r < |s.replicas| && s.replicas[step.r] == rep && !Harmful(env, s, step)
    ensures ReplicaCovered(env, s, rep')
  {
    if step.Receive? {
      ReceiveCovers(env, s, rep);
    }
  }

  lemma RevokeKept(env: Env, s: System, t: Uuid, s': System, i: nat)
    requires AllCovered(env, s) && NextStep(env, s, Revoke(t), s') && !CachedUnheard(s, t) && i < |s'.replicas|
    ensures ReplicaCovered(env, s', s'.replicas[i])
  {
    assert ReplicaCovered(env, s, s.replicas[i]);
    NotifiedCovers(env, s, s', TokenPayload(t), i);
  }

  lemma DeactivateKept(env: Env, s: System, u: Uuid, s': System, i: nat)
    requires AllCovered(env, s) && NextStep(env, s, SetActive(u, false), s') && i < |s'.replicas|
    requires !exists t :: env.owner(t) == u && CachedUnheard(s, t)
    ensures ReplicaCovered(env, s', s'.replicas[i])
  {
    assert ReplicaCovered(env, s, s.replicas[i]);
    forall t | Stale(env, s', t) && !Stale(env, s, t) ensures Unheard(s.replicas[i]) ==> t !in s.replicas[i].cache {
      assert !CachedUnheard(s, t);
    }
    NotifiedCovers(env, s, s', UserPayload(u), i);
  }

  lemma CoveredKeptAt(env: Env, s: System, step: Step, s': System, i: nat)
    requires ReadsCanonical(env) && QueuesHeard(s) && AllCovered(env, s) && NextStep(env, s, step, s') && !Harmful(env, s, step)
    requires i < |s'.replicas|
    ensures ReplicaCovered(env, s', s'.replicas[i])
  {
    assert ReplicaCovered(env, s, s.replicas[i]);
    match step {
      case Revoke(t) => RevokeKept(env, s, t, s', i);
      case SetActive(u, active) =>
        if !active {
          DeactivateKept(env, s, u, s', i);
        }
      case Broadcast(payload) => NotifiedCovers(env, s, s', payload, i);
      case _ =>
        if i == step.r {
          LocalKept(env, s, step, s.replicas[i], s'.replicas[i]);
        }
    }
  }

  /** A step that is not harmful keeps every stale token covered. */
  lemma CoveredKept(env: Env, s: System, step: Step, s': System)
    requires ReadsCanonical(env) && QueuesHeard(s) && AllCovered(env, s) && NextStep(env, s, step, s') && !Harmful(env, s, step)
    ensures AllCovered(env, s')
  {
    forall i | 0 <= i < |s'.replicas| ensures ReplicaCovered(env, s', s'.replicas[i]) {
      CoveredKeptAt(env, s, step, s', i);
    }
  }

  lemma UnheardUncovered(env: Env, s: System, s': System, payload: string, t: Uuid)
    requires QueuesHeard(s) && CachedUnheard(s, t) && s'.replicas == Notified(s.replicas, payload) && Stale(env, s', t)
    ensures !AllCovered(env, s')
  {
    var i :| 0 <= i < |s.replicas| && Unheard(s.replicas[i]) && t in s.replicas[i].cache;
    assert s'.replicas[i] == s.replicas[i] && !Covered(env, s'.replicas[i], t);
    assert !ReplicaCovered(env, s', s'.replicas[i]);
  }

  /** From whatever state, a harmful step leaves a stale token cached with nothing on its way. */
  lemma HarmfulUncovers(env: Env, s: System, step: Step, s': System)
    requires QueuesHeard(s) && NextStep(env, s, step, s') && Harmful(env, s, step)
    ensures !AllCovered(env, s')
  {
    match step {
      case Revoke(t) => UnheardUncovered(env, s, s', TokenPayload(t), t);
      case SetActive(u, active) =>
        var t :| env.owner(t) == u && CachedUnheard(s, t);
        UnheardUncovered(env, s, s', UserPayload(u), t);
      case Insert(r, t) =>
        assert !Covered(env, s'.replicas[r], t);
        assert !ReplicaCovered(env, s', s'.replicas[r]);
      case Sever(r) =>
        var t :| t in s.replicas[r].cache && Stale(env, s, t);
        assert !Covered(env, s'.replicas[r], t);
        assert !ReplicaCovered(env, s', s'.replicas[r]);
    }
  }

  // ----- Exactly when it holds -------------------------------------------------------------------

  lemma {:induction false} QueuesHeardOverRun(env: Env, run: seq<System>, steps: seq<Step>, n: nat)
    requires IsRun(env, run, steps) && n <= |steps|
    ensures QueuesHeard(run[n])
  {
    if n > 0 {
      QueuesHeardOverRun(env, run, steps, n - 1);
      QueuesHeardKept(env, run[n - 1], steps[n - 1], run[n]);
    }
  }

  /** The first `n` steps of a run do no harm. */
  ghost predicate Harmless(env: Env, run: seq<System>, steps: seq<Step>, n: nat) {
    n <= |steps| && n < |run| && forall i {:trigger Harmful(env, run[i], steps[i])} :: 0 <= i < n ==> !Harmful(env, run[i], steps[i])
  }

  lemma InitCovered(env: Env, s: System)
    requires Init(s)
    ensures AllCovered(env, s)
  {
  }

  lemma CoveredAlong(env: Env, run: seq<System>, steps: seq<Step>, s: System, i: nat, m: nat) returns (s': System)
    requires ReadsCanonical(env) && IsRun(env, run, steps) && i < m && Harmless(env, run, steps, m)
    requires s == run[i] && AllCovered(env, s)
    ensures s' == run[i + 1] && AllCovered(env, s')
  {
    s' := run[i + 1];
    QueuesHeardOverRun(env, run, steps, i);
    CoveredKept(env, s, steps[i], s');
  }

  lemma CoveredOverRun(env: Env, run: seq<System>, steps: seq<Step>, n: nat, m: nat)
    requires ReadsCanonical(env) && IsRun(env, run, steps) && n <= m && Harmless(env, run, steps, m)
    ensures AllCovered(env, run[n])
  {
    var s, i := run[0], 0;
    InitCovered(env, s);
    while i < n
      invariant i <= n && s == run[i] && AllCovered(env, s)
    {
      s := CoveredAlong(env, run, steps, s, i, m);
      i := i + 1;
    }
  }

  /**
   Through a whole run every revoked token, and every token of a deactivated user, that is still cached
   at a replica has its notification queued there or a flush pending, if and only if the run takes no
   harmful step.
   */
  lemma CoveredExactlyWhen(env: Env, run: seq<System>, steps: seq<Step>)
    requires ReadsCanonical(env) && IsRun(env, run, steps)
    ensures (forall n :: 0 <= n < |run| ==> AllCovered(env, run[n])) <==> Harmless(env, run, steps, |steps|)
  {
    if Harmless(env, run, steps, |steps|) {
      forall n | 0 <= n < |run| ensures AllCovered(env, run[n]) {
        CoveredOverRun(env, run, steps, n, |steps|);
      }
    } else {
      var i :| 0 <= i < |steps| && Harmful(env, run[i], steps[i]);
      QueuesHeardOverRun(env, run, steps, i);
      HarmfulUncovers(env, run[i], steps[i], run[i + 1]);
    }
  }

  // ----- What to ask of replicas -----------------------------------------------------------------

  /** A token enters a cache only while the replica is subscribed or about to flush. */
  ghost predicate InsertsHeard(s: System, step: Step) {
    step.Insert? && step.r < |s.replicas| ==> !Unheard(s.replicas[step.r])
  }

  /** A token is still valid when it enters a cache. */
  ghost predicate InsertsValid(env: Env, s: System, step: Step) {
    step.Insert? ==> !Stale(env, s, step.t)
  }

  /** Three demands on a step, each of which may be waived. */
  ghost predicate Meets(env: Env, s: System, step: Step, heard: bool, valid: bool, loud: bool) {
    && (heard ==> InsertsHeard(s, step))
    && (valid ==> InsertsValid(env, s, step))
    && (loud ==> !step.Sever?)
  }

  ghost predicate RunMeets(env: Env, run: seq<System>, steps: seq<Step>, heard: bool, valid: bool, loud: bool) {
    && |steps| <= |run|
    && forall i {:trigger Meets(env, run[i], steps[i], heard, valid, loud)} :: 0 <= i < |steps| ==> Meets(env, run[i], steps[i], heard, valid, loud)
  }

  /** Nothing was cached where nothing is heard. */
  ghost predicate UnheardEmpty(s: System) {
    forall i :: 0 <= i < |s.replicas| && Unheard(s.replicas[i]) ==> s.replicas[i].cache == {}
  }

  lemma UnheardEmptyKeptAt(env: Env, s: System, step: Step, rep: Replica, rep': Replica)
    requires Unheard(rep) ==> rep.cache == {}
    requires LocalStep(env, s, step, rep, rep') && (step.Insert? ==> !Unheard(rep)) && !step.Sever?
    ensures Unheard(rep') ==> rep'.cache == {}
  {
  }

  lemma UnheardEmptyKept(env: Env, s: System, step: Step, s': System)
    requires UnheardEmpty(s) && NextStep(env, s, step, s') && InsertsHeard(s, step) && !step.Sever?
    ensures UnheardEmpty(s')
  {
    forall i | 0 <= i < |s'.replicas| && Unheard(s'.replicas[i]) ensures s'.replicas[i].cache == {} {
      if !step.Revoke? && !step.SetActive? && !step.Broadcast? && step.r == i {
        UnheardEmptyKeptAt(env, s, step, s.replicas[i], s'.replicas[i]);
      }
    }
  }

  lemma {:induction false} UnheardEmptyOverRun(env: Env, run: seq<System>, steps: seq<Step>, n: nat)
    requires IsRun(env, run, steps) && n <= |steps| && RunMeets(env, run, steps, true, true, true)
    ensures UnheardEmpty(run[n])
  {
    if n > 0 {
      UnheardEmptyOverRun(env, run, steps, n - 1);
      assert Meets(env, run[n - 1], steps[n - 1], true, true, true);
      UnheardEmptyKept(env, run[n - 1], steps[n - 1], run[n]);
    }
  }

  lemma MetIsHarmless(env: Env, s: System, step: Step)
    requires UnheardEmpty(s) && Meets(env, s, step, true, true, true)
    ensures !Harmful(env, s, step)
  {
  }

  /**
   It is enough that tokens enter caches only while valid and while the replica is subscribed or about
   to flush, and that no connection is replaced silently.
   */
  lemma StaleTokensAreCovered(env: Env, run: seq<System>, steps: seq<Step>, n: nat)
    requires ReadsCanonical(env) && IsRun(env, run, steps) && n <= |steps| && RunMeets(env, run, steps, true, true, true)
    ensures AllCovered(env, run[n])
  {
    forall i | 0 <= i < |steps| ensures !Harmful(env, run[i], steps[i]) {
      UnheardEmptyOverRun(env, run, steps, i);
      assert Meets(env, run[i], steps[i], true, true, true);
      MetIsHarmless(env, run[i], steps[i]);
    }
    CoveredOverRun(env, run, steps, n, |steps|);
  }

  // ----- None of the three can be left out -------------------------------------------------------

  /** A system of one replica. */
  function One(revoked: set<Uuid>, rep: Replica): System {
    System(revoked, {}, [rep])
  }

  ghost predicate RunTo(env: Env, run: seq<System>, steps: seq<Step>, s: System, heard: bool, valid: bool, loud: bool) {
    IsRun(env, run, steps) && run[|steps|] == s && RunMeets(env, run, steps, heard, valid, loud)
  }

  /** A run and one more step. */
  lemma OneMore(env: Env, run: seq<System>, steps: seq<Step>, s: System, step: Step, s': System, heard: bool, valid: bool, loud: bool)
    returns (run': seq<System>, steps': seq<Step>)
    requires RunTo(env, run, steps, s, heard, valid, loud)
    requires NextStep(env, s, step, s') && Meets(env, s, step, heard, valid, loud)
    ensures RunTo(env, run', steps', s', heard, valid, loud)
  {
    run', steps' := run + [s'], steps + [step];
    forall i | 0 <= i < |steps'| ensures NextStep(env, run'[i], steps'[i], run'[i + 1]) {
      if i < |steps| {
        assert NextStep(env, run[i], steps[i], run[i + 1]);
      }
    }
    forall i | 0 <= i < |steps'| ensures Meets(env, run'[i], steps'[i], heard, valid, loud) {
      if i < |steps| {
        assert Meets(env, run[i], steps[i], heard, valid, loud);
      }
    }
  }

  /** Validate a token that is not revoked: read its row and its user's. */
  lemma Validated(env: Env, run: seq<System>, steps: seq<Step>, rep: Replica, t: Uuid, heard: bool, valid: bool, loud: bool)
    returns (run': seq<System>, steps': seq<Step>)
    requires rep.underway == multiset{} && RunTo(env, run, steps, One({}, rep), heard, valid, loud)
    ensures RunTo(env, run', steps', One({}, rep.(underway := multiset{UserRead(t)})), heard, valid, loud)
  {
    var read, both := rep.(underway := multiset{TokenRead(t)}), rep.(underway := multiset{UserRead(t)});
    assert multiset{} + multiset{TokenRead(t)} == multiset{TokenRead(t)};
    assert multiset{TokenRead(t)} - multiset{TokenRead(t)} + multiset{UserRead(t)} == multiset{UserRead(t)};
    run', steps' := OneMore(env, run, steps, One({}, rep), ReadToken(0, t), One({}, read), heard, valid, loud);
    run', steps' := OneMore(env, run', steps', One({}, read), ReadUser(0, t), One({}, both), heard, valid, loud);
  }

  lemma Inserts(env: Env, revoked: set<Uuid>, rep: Replica, t: Uuid)
    requires rep.underway == multiset{UserRead(t)}
    ensures NextStep(env, One(revoked, rep), Insert(0, t), One(revoked, rep.(underway := multiset{}, cache := rep.cache + {t})))
  {
    assert multiset{UserRead(t)} - multiset{UserRead(t)} == multiset{};
  }

  lemma Revokes(env: Env, rep: Replica, t: Uuid)
    ensures NextStep(env, One({}, rep), Revoke(t),
                     One({t}, if rep.phase == Listening then rep.(queue := rep.queue + [TokenPayload(t)]) else rep))
  {
    var rep' := if rep.phase == Listening then rep.(queue := rep.queue + [TokenPayload(t)]) else rep;
    assert Notified([rep], TokenPayload(t)) == [rep'];
    assert {} + {t} == {t};
  }

  lemma Uncovered(env: Env, rep: Replica, t: Uuid)
    requires t in rep.cache && rep.phase != Lost && rep.queue == []
    ensures !AllCovered(env, One({t}, rep))
  {
    assert !Covered(env, rep, t);
    assert !ReplicaCovered(env, One({t}, rep), One({t}, rep).replicas[0]);
  }

  /** A validation that ends before the replica has subscribed, of a token that is then revoked. */
  lemma EarlyInsertStays(env: Env, t: Uuid) returns (run: seq<System>, steps: seq<Step>, s: System)
    ensures RunTo(env, run, steps, s, false, true, true) && !AllCovered(env, s)
  {
    var filled := Fresh().(cache := {t});
    run, steps := [One({}, Fresh())], [];
    run, steps := Validated(env, run, steps, Fresh(), t, false, true, true);
    var validated := Fresh().(underway := multiset{UserRead(t)});
    Inserts(env, {}, validated, t);
    run, steps := OneMore(env, run, steps, One({}, validated), Insert(0, t), One({}, filled), false, true, true);
    Revokes(env, filled, t);
    s := One({t}, filled);
    run, steps := OneMore(env, run, steps, One({}, filled), Revoke(t), s, false, true, true);
    Uncovered(env, filled, t);
  }

  lemma Subscribed(env: Env, heard: bool, valid: bool, loud: bool) returns (run: seq<System>, steps: seq<Step>)
    ensures RunTo(env, run, steps, One({}, Fresh().(phase := Listening)), heard, valid, loud)
  {
    run, steps := [One({}, Fresh())], [];
    run, steps := OneMore(env, run, steps, One({}, Fresh()), Connect(0), One({}, Fresh().(phase := Listening)), heard, valid, loud);
  }

  /** A validation during which the token is revoked and the notification handled. */
  lemma LateInsertStays(env: Env, t: Uuid) returns (run: seq<System>, steps: seq<Step>, s: System)
    ensures RunTo(env, run, steps, s, true, false, true) && !AllCovered(env, s)
  {
    var listening := Fresh().(phase := Listening);
    run, steps := Subscribed(env, true, false, true);
    run, steps := Validated(env, run, steps, listening, t, true, false, true);
    var validated := listening.(underway := multiset{UserRead(t)});
    Revokes(env, validated, t);
    var told := validated.(queue := [] + [TokenPayload(t)]);
    run, steps := OneMore(env, run, steps, One({}, validated), Revoke(t), One({t}, told), true, false, true);
    assert Received(env, told) == validated by {
      assert told.queue[1..] == [] && Spared(env, {}, TokenPayload(t)) == {};
    }
    run, steps := OneMore(env, run, steps, One({t}, told), Receive(0), One({t}, validated), true, false, true);
    Inserts(env, {t}, validated, t);
    var filled := listening.(cache := {} + {t});
    s := One({t}, filled);
    run, steps := OneMore(env, run, steps, One({t}, validated), Insert(0, t), s, true, false, true);
    Uncovered(env, filled, t);
  }

  /** A connection that is replaced silently over the notification. */
  lemma SilentReconnectStays(env: Env, t: Uuid) returns (run: seq<System>, steps: seq<Step>, s: System)
    ensures RunTo(env, run, steps, s, true, true, false) && !AllCovered(env, s)
  {
    var listening := Fresh().(phase := Listening);
    run, steps := Subscribed(env, true, true, false);
    run, steps := Validated(env, run, steps, listening, t, true, true, false);
    var validated, filled := listening.(underway := multiset{UserRead(t)}), listening.(cache := {} + {t});
    Inserts(env, {}, validated, t);
    run, steps := OneMore(env, run, steps, One({}, validated), Insert(0, t), One({}, filled), true, true, false);
    Revokes(env, filled, t);
    var told, severed := filled.(queue := [] + [TokenPayload(t)]), filled.(phase := Severed);
    run, steps := OneMore(env, run, steps, One({}, filled), Revoke(t), One({t}, told), true, true, false);
    run, steps := OneMore(env, run, steps, One({t}, told), Sever(0), One({t}, severed), true, true, false);
    s := One({t}, filled);
    run, steps := OneMore(env, run, steps, One({t}, severed), Resubscribe(0), s, true, true, false);
    Uncovered(env, filled, t);
  }

  // ----- Reconnecting ----------------------------------------------------------------------------

  /** The flushes of a replica since it last subscribed: its failures in a row. */
  ghost function Failures(steps: seq<Step>, r: nat): nat {
    if steps == [] then 0
    else
      var last := steps[|steps| - 1];
      if last == Connect(r) then 0 else Failures(steps[..|steps| - 1], r) + if last == Flush(r) then 1 else 0
  }

  /** How often the backoff has been doubled since. */
  ghost predicate BackoffDue(rep: Replica, failures: nat) {
    match rep.phase
    case Listening => failures == 0 && rep.backoff == Delay(0)
    case Severed => failures == 0 && rep.backoff == Delay(0)
    case Sleeping => failures > 0 && rep.backoff == Delay(failures - 1)
    case _ => rep.backoff == Delay(failures)
  }

  lemma BackoffKept(env: Env, s: System, step: Step, rep: Replica, rep': Replica, failures: nat)
    requires BackoffDue(rep, failures) && LocalStep(env, s, step, rep, rep')
    ensures BackoffDue(rep', if step.Connect? then 0 else failures + if step.Flush? then 1 else 0)
  {
  }

  lemma SameReplicas(env: Env, s: System, step: Step, s': System, r: nat)
    requires NextStep(env, s, step, s') && r < |s'.replicas|
    ensures r < |s.replicas|
    ensures (step.Revoke? || step.SetActive? || step.Broadcast? || step.r != r) ==>
              s'.replicas[r].phase == s.replicas[r].phase && s'.replicas[r].backoff == s.replicas[r].backoff
  {
  }

  lemma BackoffStep(env: Env, s: System, step: Step, s': System, r: nat, failures: nat)
    requires NextStep(env, s, step, s') && r < |s.replicas| && r < |s'.replicas| && BackoffDue(s.replicas[r], failures)
    ensures BackoffDue(s'.replicas[r], if step == Connect(r) then 0 else failures + if step == Flush(r) then 1 else 0)
  {
    SameReplicas(env, s, step, s', r);
    if !step.Revoke? && !step.SetActive? && !step.Broadcast? && step.r == r {
      BackoffKept(env, s, step, s.replicas[r], s'.replicas[r], failures);
    }
  }

  lemma FailuresNext(steps: seq<Step>, n: nat, r: nat)
    requires 0 < n <= |steps|
    ensures Failures(steps[..n], r) ==
            if steps[n - 1] == Connect(r) then 0 else Failures(steps[..n - 1], r) + if steps[n - 1] == Flush(r) then 1 else 0
  {
    assert steps[..n][..n - 1] == steps[..n - 1];
  }

  lemma {:induction false} BackoffOverRun(env: Env, run: seq<System>, steps: seq<Step>, n: nat, r: nat)
    requires IsRun(env, run, steps) && n <= |steps| && r < |run[n].replicas|
    ensures BackoffDue(run[n].replicas[r], Failures(steps[..n], r))
  {
    if n > 0 {
      SameReplicas(env, run[n - 1], steps[n - 1], run[n], r);
      BackoffOverRun(env, run, steps, n - 1, r);
      BackoffStep(env, run[n - 1], steps[n - 1], run[n], r, Failures(steps[..n - 1], r));
      FailuresNext(steps, n, r);
    }
  }

  /** In every run, a replica that waits after its `n`th failure in a row waits for min(30, 2^(n - 1)) seconds. */
  lemma WaitDoublesToTheCap(env: Env, run: seq<System>, steps: seq<Step>, n: nat, r: nat)
    requires IsRun(env, run, steps) && n <= |steps| && r < |run[n].replicas| && run[n].replicas[r].phase == Sleeping
    ensures Failures(steps[..n], r) > 0
    ensures run[n].replicas[r].backoff == Min(RECONNECT_BACKOFF_CAP, Pow2(Failures(steps[..n], r) - 1))
  {
    BackoffOverRun(env, run, steps, n, r);
    DelayDoublesToTheCap(Failures(steps[..n], r) - 1);
  }
}
