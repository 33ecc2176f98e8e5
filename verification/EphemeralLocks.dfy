/**
 The locked calls of the in-process store, one lock-table or map access at a time. One key, which
 does not expire while the calls run; any number of calls, any of which may be dropped where it waits
 for the lock; every interleaving.
 */
module EphemeralLocks {
  import opened Common
  import opened Decimal
  import Port = EphemeralStore
  import Memory = EphemeralMemory

  type TaskId = nat
  type LockId = nat

  datatype Cell = Cell(value: string, version: nat)

  datatype Op =
    | PutIfAbsent(value: string)
    | CompareAndSwap(expected: nat, value: string)
    | Increment(max: nat)

  type Reply = Port.Reply

  // ----- What one call does alone ----------------------------------------------------------------

  function NextVersion(cell: Option<Cell>): nat {
    if cell.Some? then Memory.SaturatingSucc(cell.value.version) else 1
  }

  function CounterValue(cell: Option<Cell>): Option<nat> {
    if cell == None then Some(0) else ParseU64(cell.value.value)
  }

  /** The entry to write, if any, and the reply, from an entry read first and a version read second. */
  function Decide(op: Op, read: Option<Cell>, reread: Option<Cell>): (Option<Cell>, Reply) {
    match op
    case PutIfAbsent(value) =>
      if read.Some? then (None, Port.Created(false)) else (Some(Cell(value, 1)), Port.Created(true))
    case CompareAndSwap(expected, value) =>
      if read == None || read.value.version != expected then (None, Port.Swapped(None))
      else (Some(Cell(value, NextVersion(read))), Port.Swapped(Some(NextVersion(read))))
    case Increment(max) =>
      var n := CounterValue(read);
      if n == None then (None, Port.Invalid)
      else if n.value >= max then (None, Port.Counted(None))
      else (Some(Cell(Digits(n.value + 1), NextVersion(reread))), Port.Counted(Some(n.value + 1)))
  }

  function Update(cell: Option<Cell>, write: Option<Cell>): Option<Cell> {
    if write.Some? then write else cell
  }

  /** The call as one indivisible step. */
  function Atomically(cell: Option<Cell>, op: Op): (Option<Cell>, Reply) {
    var d := Decide(op, cell, cell);
    (Update(cell, d.0), d.1)
  }

  function PortOp(op: Op, key: Port.Key, ttl: nat): Port.Op {
    match op
    case PutIfAbsent(value) => Port.PutIfAbsent(key, value, ttl)
    case CompareAndSwap(expected, value) => Port.CompareAndSwap(key, expected, value, ttl)
    case Increment(max) => Port.TryIncrement(key, max, ttl)
  }

  function CellOf(e: Option<Port.Entry>): Option<Cell> {
    if e.Some? then Some(Cell(e.value.value, e.value.version)) else None
  }

  /** The indivisible step is the port's call on a live key, below the version limit. */
  lemma AtomicallyIsThePort(s: Port.Store, key: Port.Key, op: Op, ttl: nat, now: Instant)
    requires ttl > 0
    requires Port.Live(s, key, now).Some? ==> Port.Live(s, key, now).value.version < U64_MAX
    ensures var r := Port.Apply(s, PortOp(op, key, ttl), now);
            Atomically(CellOf(Port.Live(s, key, now)), op) == (CellOf(Port.Live(r.0, key, now)), r.1)
  {
  }

  // ----- The interleaved system ------------------------------------------------------------------

  datatype Phase =
    | Asked(op: Op)
    | Missed(op: Op)
    | Queued(op: Op, lock: LockId)
    | Locked(op: Op, lock: LockId)
    | HasRead(op: Op, lock: LockId, read: Option<Cell>)
    | HasReread(op: Op, lock: LockId, read: Option<Cell>, reread: Option<Cell>)
    | Replied(op: Op, lock: LockId, reply: Reply)
  {
    predicate HasLock() { !Asked? && !Missed? }

    predicate Inside() { HasLock() && !Queued? }
  }

  /** One completed call, in the order the calls took effect. */
  datatype Effect = Effect(task: TaskId, op: Op, reply: Reply)

  datatype System = System(
    cell: Option<Cell>,
    table: Option<LockId>,
    owners: map<LockId, TaskId>,
    locksMade: nat,
    spawned: nat,
    tasks: map<TaskId, Phase>,
    dropped: set<TaskId>,
    effects: seq<Effect>)

  datatype Step =
    | Begin(op: Op)
    | LookUp(t: TaskId)
    | OrInsert(t: TaskId)
    | Acquire(t: TaskId)
    | Drop(t: TaskId)
    | Read(t: TaskId)
    | Reread(t: TaskId)
    | Commit(t: TaskId)
    | Release(t: TaskId)

  function Init(cell: Option<Cell>): System {
    System(cell, None, map[], 0, 0, map[], {}, [])
  }

  function Goto(s: System, t: TaskId, p: Phase): System {
    s.(tasks := s.tasks[t := p])
  }

  ghost predicate NextStep(s: System, step: Step, s': System) {
    match step
    case Begin(op) =>
      s' == Goto(s, s.spawned, Asked(op)).(spawned := s.spawned + 1)
    case LookUp(t) =>
      && t in s.tasks && s.tasks[t].Asked?
      && s' == Goto(s, t, if s.table.Some? then Queued(s.tasks[t].op, s.table.value) else Missed(s.tasks[t].op))
    case OrInsert(t) =>
      && t in s.tasks && s.tasks[t].Missed?
      && s' == if s.table.Some? then Goto(s, t, Queued(s.tasks[t].op, s.table.value))
               else Goto(s, t, Queued(s.tasks[t].op, s.locksMade)).(table := Some(s.locksMade), locksMade := s.locksMade + 1)
    case Acquire(t) =>
      && t in s.tasks && s.tasks[t].Queued? && s.tasks[t].lock !in s.owners
      && s' == Goto(s, t, Locked(s.tasks[t].op, s.tasks[t].lock)).(owners := s.owners[s.tasks[t].lock := t])
    case Drop(t) =>
      && t in s.tasks && s.tasks[t].Queued?
      && s' == s.(tasks := s.tasks - {t}, dropped := s.dropped + {t})
    case Read(t) =>
      && t in s.tasks && s.tasks[t].Locked?
      && s' == Goto(s, t, HasRead(s.tasks[t].op, s.tasks[t].lock, s.cell))
    case Reread(t) =>
      && t in s.tasks && s.tasks[t].HasRead?
      && s' == Goto(s, t, HasReread(s.tasks[t].op, s.tasks[t].lock, s.tasks[t].read, s.cell))
    case Commit(t) =>
      && t in s.tasks && s.tasks[t].HasReread?
      && var p := s.tasks[t];
      && var d := Decide(p.op, p.read, p.reread);
      s' == Goto(s, t, Replied(p.op, p.lock, d.1)).(
              cell := Update(s.cell, d.0),
              effects := s.effects + [Effect(t, p.op, d.1)])
    case Release(t) =>
      && t in s.tasks && s.tasks[t].Replied?
      && s' == s.(tasks := s.tasks - {t}, owners := s.owners - {s.tasks[t].lock})
  }

  ghost predicate Next(s: System, s': System) {
    exists step :: NextStep(s, step, s')
  }

  ghost predicate IsRun(first: Option<Cell>, run: seq<System>) {
    && run != []
    && run[0] == Init(first)
    && forall i :: 0 <= i < |run| - 1 ==> Next(run[i], run[i + 1])
  }

  // ----- Linearizability -------------------------------------------------------------------------

  /** The entry after the first `n` calls of a history, each taken as one step. */
  function Replay(first: Option<Cell>, effects: seq<Effect>, n: nat): Option<Cell>
    requires n <= |effects|
  {
    if n == 0 then first else Atomically(Replay(first, effects, n - 1), effects[n - 1].op).0
  }

  /** Every reply is the one its call gives when the history runs call by call. */
  ghost predicate Sequential(first: Option<Cell>, effects: seq<Effect>) {
    forall i {:trigger effects[i].reply} :: 0 <= i < |effects| ==>
      effects[i].reply == Atomically(Replay(first, effects, i), effects[i].op).1
  }

  /** One lock for the key, at most one task inside it, and what that task read is still what is stored. */
  ghost predicate Exclusive(s: System) {
    Owned(s) && ReadsCurrent(s)
  }

  ghost predicate Owned(s: System) {
    && (forall t :: t in s.tasks ==> TaskOwns(s, t))
    && (forall l :: l in s.owners ==> OwnerInside(s, l))
  }

  ghost predicate TaskOwns(s: System, t: TaskId)
    requires t in s.tasks
  {
    && t < s.spawned
    && (s.tasks[t].HasLock() ==> s.table == Some(s.tasks[t].lock))
    && (s.tasks[t].Inside() ==> s.tasks[t].lock in s.owners && s.owners[s.tasks[t].lock] == t)
  }

  ghost predicate OwnerInside(s: System, l: LockId)
    requires l in s.owners
  {
    s.owners[l] in s.tasks && s.tasks[s.owners[l]].Inside() && s.tasks[s.owners[l]].lock == l
  }

  ghost predicate ReadsCurrent(s: System) {
    && (forall t :: t in s.tasks && s.tasks[t].HasRead? ==> s.tasks[t].read == s.cell)
    && (forall t :: t in s.tasks && s.tasks[t].HasReread? ==> s.tasks[t].read == s.cell && s.tasks[t].reread == s.cell)
  }

  ghost predicate NoEffectOf(effects: seq<Effect>, t: TaskId) {
    forall i :: 0 <= i < |effects| ==> effects[i].task != t
  }

  ghost predicate CallAccounted(effects: seq<Effect>, t: TaskId, p: Phase) {
    if p.Replied? then Effect(t, p.op, p.reply) in effects else NoEffectOf(effects, t)
  }

  ghost predicate DroppedAccounted(s: System, t: TaskId) {
    t !in s.tasks && t < s.spawned && NoEffectOf(s.effects, t)
  }

  /** Every call that has replied took effect once, with that reply; no other call, live or dropped, has. */
  ghost predicate Accounted(s: System) {
    && (forall t :: t in s.tasks ==> CallAccounted(s.effects, t, s.tasks[t]))
    && (forall t :: t in s.dropped ==> DroppedAccounted(s, t))
    && (forall i :: 0 <= i < |s.effects| ==> s.effects[i].task < s.spawned)
    && (forall i, j :: 0 <= i < j < |s.effects| ==> s.effects[i].task != s.effects[j].task)
  }

  /** A call that is no longer running, and was not dropped, took effect. */
  ghost predicate FinishedTookEffect(s: System) {
    forall t: nat :: t < s.spawned && t !in s.tasks && t !in s.dropped ==> exists i :: 0 <= i < |s.effects| && s.effects[i].task == t
  }

  ghost predicate Linearizable(first: Option<Cell>, s: System) {
    && s.cell == Replay(first, s.effects, |s.effects|)
    && Sequential(first, s.effects)
  }

  lemma TaskOwnsKept(s: System, step: Step, s': System, t: TaskId)
    requires Owned(s) && NextStep(s, step, s') && t in s'.tasks
    ensures TaskOwns(s', t)
  {
    if t in s.tasks {
      assert TaskOwns(s, t);
    }
    if step.Release? {
      assert TaskOwns(s, step.t);
    }
  }

  lemma OwnerInsideKept(s: System, step: Step, s': System, l: LockId)
    requires Owned(s) && NextStep(s, step, s') && l in s'.owners
    ensures OwnerInside(s', l)
  {
    if l in s.owners {
      assert OwnerInside(s, l);
    }
    if step.Release? {
      assert TaskOwns(s, step.t);
    }
  }

  lemma OwnedKept(s: System, step: Step, s': System)
    requires Owned(s) && NextStep(s, step, s')
    ensures Owned(s')
  {
    forall t | t in s'.tasks ensures TaskOwns(s', t) {
      TaskOwnsKept(s, step, s', t);
    }
    forall l | l in s'.owners ensures OwnerInside(s', l) {
      OwnerInsideKept(s, step, s', l);
    }
  }

  /** Two tasks inside the lock are one task. */
  lemma OneInside(s: System, t: TaskId, u: TaskId)
    requires Owned(s) && t in s.tasks && u in s.tasks && s.tasks[t].Inside() && s.tasks[u].Inside()
    ensures t == u
  {
    assert TaskOwns(s, t) && TaskOwns(s, u);
  }

  lemma ReadsCurrentKept(s: System, step: Step, s': System)
    requires Owned(s) && ReadsCurrent(s) && NextStep(s, step, s')
    ensures ReadsCurrent(s')
  {
    if step.Commit? {
      forall u | u in s.tasks && s.tasks[u].Inside() ensures u == step.t {
        OneInside(s, u, step.t);
      }
    }
  }

  lemma ExclusiveKept(s: System, step: Step, s': System)
    requires Exclusive(s) && NextStep(s, step, s')
    ensures Exclusive(s')
  {
    OwnedKept(s, step, s');
    ReadsCurrentKept(s, step, s');
  }

  lemma CallKept(s: System, step: Step, s': System, t: TaskId)
    requires Owned(s) && Accounted(s) && NextStep(s, step, s') && t in s'.tasks
    ensures CallAccounted(s'.effects, t, s'.tasks[t])
  {
    assert forall i :: 0 <= i < |s.effects| ==> s'.effects[i] == s.effects[i];
    if t in s.tasks {
      assert CallAccounted(s.effects, t, s.tasks[t]);
      if step.Commit? && t == step.t {
        assert s'.effects[|s.effects|] == Effect(t, s'.tasks[t].op, s'.tasks[t].reply);
      }
    }
  }

  lemma DroppedKept(s: System, step: Step, s': System, t: TaskId)
    requires Owned(s) && Accounted(s) && NextStep(s, step, s') && t in s'.dropped
    ensures DroppedAccounted(s', t)
  {
    if t in s.dropped {
      assert DroppedAccounted(s, t);
    } else {
      assert CallAccounted(s.effects, t, s.tasks[t]);
    }
  }

  lemma AccountedKept(s: System, step: Step, s': System)
    requires Owned(s) && Accounted(s) && NextStep(s, step, s')
    ensures Accounted(s')
  {
    forall t | t in s'.tasks ensures CallAccounted(s'.effects, t, s'.tasks[t]) {
      CallKept(s, step, s', t);
    }
    forall t | t in s'.dropped ensures DroppedAccounted(s', t) {
      DroppedKept(s, step, s', t);
    }
    EffectsKept(s, step, s');
  }

  lemma EffectsKept(s: System, step: Step, s': System)
    requires Owned(s) && Accounted(s) && NextStep(s, step, s')
    ensures forall i :: 0 <= i < |s'.effects| ==> s'.effects[i].task < s'.spawned
    ensures forall i, j :: 0 <= i < j < |s'.effects| ==> s'.effects[i].task != s'.effects[j].task
  {
    if step.Commit? {
      assert CallAccounted(s.effects, step.t, s.tasks[step.t]);
    }
  }

  lemma FinishedKept(s: System, step: Step, s': System)
    requires Owned(s) && Accounted(s) && FinishedTookEffect(s) && NextStep(s, step, s')
    ensures FinishedTookEffect(s')
  {
    assert forall i :: 0 <= i < |s.effects| ==> s'.effects[i] == s.effects[i];
  }

  lemma {:induction false} ReplayPrefix(first: Option<Cell>, effects: seq<Effect>, more: seq<Effect>, n: nat)
    requires effects <= more && n <= |effects|
    ensures Replay(first, more, n) == Replay(first, effects, n)
  {
    if n > 0 {
      ReplayPrefix(first, effects, more, n - 1);
    }
  }

  /** A reply that its call gives after the history extends it. */
  lemma SequentialOneMore(first: Option<Cell>, effects: seq<Effect>, e: Effect)
    requires Sequential(first, effects) && e.reply == Atomically(Replay(first, effects, |effects|), e.op).1
    ensures Sequential(first, effects + [e])
    ensures Replay(first, effects + [e], |effects| + 1) == Atomically(Replay(first, effects, |effects|), e.op).0
  {
    var more := effects + [e];
    forall i | 0 <= i < |more| ensures more[i].reply == Atomically(Replay(first, more, i), more[i].op).1 {
      ReplayPrefix(first, effects, more, i);
      if i < |effects| {
        assert effects[i].reply == more[i].reply;
      }
    }
    ReplayPrefix(first, effects, more, |effects|);
  }

  lemma LinearizableKept(first: Option<Cell>, s: System, step: Step, s': System)
    requires Exclusive(s) && Linearizable(first, s) && NextStep(s, step, s')
    ensures Linearizable(first, s')
  {
    if step.Commit? {
      SequentialOneMore(first, s.effects, s'.effects[|s.effects|]);
    }
  }

  ghost predicate Invariant(first: Option<Cell>, s: System) {
    Exclusive(s) && Accounted(s) && FinishedTookEffect(s) && Linearizable(first, s)
  }

  lemma {:induction false} RunInvariant(first: Option<Cell>, run: seq<System>, n: nat)
    requires IsRun(first, run) && n < |run|
    ensures Invariant(first, run[n])
  {
    if n > 0 {
      RunInvariant(first, run, n - 1);
      var s, s' := run[n - 1], run[n];
      assert Next(run[n - 1], run[n - 1 + 1]);
      var step :| NextStep(s, step, s');
      ExclusiveKept(s, step, s');
      AccountedKept(s, step, s');
      FinishedKept(s, step, s');
      LinearizableKept(first, s, step, s');
    }
  }

  /**
   In every state of every run, the entry and all replies so far are those of some order of whole
   calls; a call takes effect once, after it was made and before it returns, or never if it is dropped.
   */
  lemma CallsLinearize(first: Option<Cell>, run: seq<System>)
    requires IsRun(first, run)
    ensures Linearizable(first, run[|run| - 1]) && Accounted(run[|run| - 1]) && FinishedTookEffect(run[|run| - 1])
  {
    RunInvariant(first, run, |run| - 1);
  }

  // ----- Counting --------------------------------------------------------------------------------

  lemma IncrementAlone(cell: Option<Cell>, n: nat, max: nat)
    requires CounterValue(cell) == Some(n) && n <= max <= U64_MAX
    ensures Atomically(cell, Increment(max)).1 == Port.Counted(if n < max then Some(n + 1) else None)
    ensures CounterValue(Atomically(cell, Increment(max)).0) == Some(Min(n + 1, max))
  {
    if n < max {
      ParseDigits(n + 1);
    }
  }

  ghost predicate OnlyIncrements(effects: seq<Effect>, max: nat) {
    forall i :: 0 <= i < |effects| ==> effects[i].op == Increment(max)
  }

  /** One increment, from one cell to the next. */
  lemma IncrementStep(cell: Option<Cell>, op: Op, next: Option<Cell>, n: nat, max: nat)
    requires CounterValue(cell) == Some(n) && n <= max <= U64_MAX && op == Increment(max) && next == Atomically(cell, op).0
    ensures CounterValue(next) == Some(Min(n + 1, max))
  {
    IncrementAlone(cell, n, max);
  }

  /** Values that go up by one to the cap. */
  lemma {:induction false} CountUp(values: seq<Option<nat>>, from: nat, max: nat, n: nat)
    requires n < |values| && values[0] == Some(from) && from <= max
    requires forall i :: 0 < i <= n && values[i - 1].Some? && values[i - 1].value <= max ==> values[i] == Some(Min(values[i - 1].value + 1, max))
    ensures values[n] == Some(Min(from + n, max))
  {
    if n > 0 {
      CountUp(values, from, max, n - 1);
    }
  }

  ghost function Counters(first: Option<Cell>, effects: seq<Effect>): (r: seq<Option<nat>>)
    ensures |r| == |effects| + 1 && forall i :: 0 <= i < |r| ==> r[i] == CounterValue(Replay(first, effects, i))
  {
    seq(|effects| + 1, i requires 0 <= i <= |effects| => CounterValue(Replay(first, effects, i)))
  }

  lemma CounterStep(first: Option<Cell>, effects: seq<Effect>, max: nat, i: nat, n: nat)
    requires OnlyIncrements(effects, max) && 0 < i <= |effects| && n <= max <= U64_MAX
    requires CounterValue(Replay(first, effects, i - 1)) == Some(n)
    ensures CounterValue(Replay(first, effects, i)) == Some(Min(n + 1, max))
  {
    IncrementStep(Replay(first, effects, i - 1), effects[i - 1].op, Replay(first, effects, i), n, max);
  }

  lemma CounterAfter(first: Option<Cell>, effects: seq<Effect>, from: nat, max: nat, n: nat)
    requires CounterValue(first) == Some(from) && from <= max <= U64_MAX
    requires OnlyIncrements(effects, max) && n <= |effects|
    ensures CounterValue(Replay(first, effects, n)) == Some(Min(from + n, max))
  {
    var values := Counters(first, effects);
    forall i | 0 < i <= n && values[i - 1].Some? && values[i - 1].value <= max
      ensures values[i] == Some(Min(values[i - 1].value + 1, max))
    {
      CounterStep(first, effects, max, i, values[i - 1].value);
    }
    CountUp(values, from, max, n);
  }

  /** Increments against one cap, in the order they took effect, count up to the cap and then stop. */
  lemma IncrementReplies(first: Option<Cell>, effects: seq<Effect>, from: nat, max: nat, i: nat)
    requires CounterValue(first) == Some(from) && from <= max <= U64_MAX
    requires Sequential(first, effects) && OnlyIncrements(effects, max) && i < |effects|
    ensures effects[i].reply == Port.Counted(if from + i < max then Some(from + i + 1) else None)
  {
    CounterAfter(first, effects, from, max, i);
    IncrementAlone(Replay(first, effects, i), Min(from + i, max), max);
  }

  ghost function TasksIn(effects: seq<Effect>): (r: seq<TaskId>)
    ensures |r| == |effects| && forall i :: 0 <= i < |effects| ==> r[i] == effects[i].task
  {
    seq(|effects|, i requires 0 <= i < |effects| => effects[i].task)
  }

  function Below(n: nat): (tasks: set<TaskId>)
    ensures |tasks| == n
    ensures forall t: nat :: t in tasks <==> t < n
  {
    if n == 0 then {} else Below(n - 1) + {n - 1}
  }

  /** Once every call has returned or been dropped, there is one effect for each that returned. */
  lemma OneEffectPerCall(s: System)
    requires Accounted(s) && FinishedTookEffect(s) && s.tasks == map[]
    ensures |s.effects| + |s.dropped| == s.spawned
  {
    var tasks := TasksIn(s.effects);
    DistinctSize(tasks);
    forall t | t in Below(s.spawned) - s.dropped ensures t in tasks {
      assert t < s.spawned && t !in s.tasks;
      var i :| 0 <= i < |s.effects| && s.effects[i].task == t;
      assert tasks[i] == t;
    }
    assert Elements(tasks) + s.dropped == Below(s.spawned);
    assert Elements(tasks) !! s.dropped;
  }

  ghost predicate CountsUp(effects: seq<Effect>, from: nat, max: nat, successes: nat) {
    && (forall i :: 0 <= i < |effects| && i < successes ==> effects[i].reply == Port.Counted(Some(from + i + 1)))
    && (forall i :: successes <= i < |effects| ==> effects[i].reply == Port.Counted(None))
  }

  /**
   Of concurrent increments on a counter at `from`, `n` run to completion and the others are dropped
   while they wait: exactly `min(n, max - from)` succeed, and they return `from + 1`, `from + 2`, ...
   each exactly once.
   */
  lemma ConcurrentIncrements(first: Option<Cell>, run: seq<System>, s: System, from: nat, max: nat)
    requires IsRun(first, run) && s == run[|run| - 1] && s.tasks == map[]
    requires CounterValue(first) == Some(from) && from <= max <= U64_MAX
    requires OnlyIncrements(s.effects, max)
    ensures |s.effects| == s.spawned - |s.dropped|
    ensures CountsUp(s.effects, from, max, Min(s.spawned - |s.dropped|, max - from))
  {
    RunInvariant(first, run, |run| - 1);
    OneEffectPerCall(s);
    forall i: nat | i < |s.effects|
      ensures s.effects[i].reply == Port.Counted(if from + i < max then Some(from + i + 1) else None)
    {
      IncrementReplies(first, s.effects, from, max, i);
    }
  }

  // ----- Compare-and-swap ------------------------------------------------------------------------

  function VersionOf(cell: Option<Cell>): nat {
    if cell.Some? then cell.value.version else 0
  }

  lemma {:induction false} VersionsAdvance(first: Option<Cell>, effects: seq<Effect>, i: nat, j: nat)
    requires i <= j <= |effects|
    ensures VersionOf(Replay(first, effects, i)) <= VersionOf(Replay(first, effects, j))
    ensures Replay(first, effects, i).Some? ==> Replay(first, effects, j).Some?
    decreases j
  {
    if i < j {
      VersionsAdvance(first, effects, i, j - 1);
    }
  }

  lemma OneSwapInSequence(first: Option<Cell>, effects: seq<Effect>, i: nat, j: nat)
    requires Sequential(first, effects)
    requires i < j < |effects| && effects[i].op.CompareAndSwap? && effects[j].op.CompareAndSwap?
    requires effects[i].op.expected == effects[j].op.expected < U64_MAX
    ensures effects[i].reply == Port.Swapped(None) || effects[j].reply == Port.Swapped(None)
  {
    if effects[i].reply != Port.Swapped(None) {
      assert VersionOf(Replay(first, effects, i + 1)) == effects[i].op.expected + 1;
      VersionsAdvance(first, effects, i + 1, j);
    }
  }

  /** Of the calls that expect one version, whatever else runs beside them, at most one swaps. */
  lemma AtMostOneSwap(first: Option<Cell>, run: seq<System>, effects: seq<Effect>, i: nat, j: nat)
    requires IsRun(first, run) && effects == run[|run| - 1].effects
    requires i < j < |effects| && effects[i].op.CompareAndSwap? && effects[j].op.CompareAndSwap?
    requires effects[i].op.expected == effects[j].op.expected < U64_MAX
    ensures effects[i].reply == Port.Swapped(None) || effects[j].reply == Port.Swapped(None)
  {
    RunInvariant(first, run, |run| - 1);
    OneSwapInSequence(first, effects, i, j);
  }

  // ----- A call with nothing beside it -----------------------------------------------------------

  /** Nothing is running and the lock is free. */
  ghost predicate Idle(s: System) {
    s.tasks == map[] && s.owners == map[]
  }

  ghost predicate RunTo(first: Option<Cell>, run: seq<System>, s: System) {
    IsRun(first, run) && run[|run| - 1] == s
  }

  lemma OneMore(first: Option<Cell>, run: seq<System>, s: System, step: Step, s': System) returns (run': seq<System>)
    requires RunTo(first, run, s) && NextStep(s, step, s')
    ensures RunTo(first, run', s')
  {
    run' := run + [s'];
    assert Next(s, s');
    forall i | 0 <= i < |run'| - 1 ensures Next(run'[i], run'[i + 1]) {
      if i < |run| - 1 {
        assert Next(run[i], run[i + 1]);
      }
    }
  }

  /** The system with one task in a phase. */
  function Busy(s: System, t: TaskId, p: Phase): System {
    s.(spawned := s.spawned + 1, tasks := map[t := p], owners := if p.Inside() then map[p.lock := t] else map[])
  }

  /** Starting a call and finding the lock, which is made if there is none. */
  lemma ReachQueue(first: Option<Cell>, run: seq<System>, s: System, op: Op) returns (run': seq<System>, s': System, lock: LockId)
    requires RunTo(first, run, s) && Idle(s)
    ensures RunTo(first, run', Busy(s', s.spawned, Queued(op, lock)))
    ensures s'.cell == s.cell && s'.effects == s.effects && s'.spawned == s.spawned && Idle(s') && s'.dropped == s.dropped
  {
    var t := s.spawned;
    var asked := Busy(s, t, Asked(op));
    assert map[][t := Asked(op)] == map[t := Asked(op)];
    run' := OneMore(first, run, s, Begin(op), asked);
    if s.table.Some? {
      s', lock := s, s.table.value;
      assert map[t := Asked(op)][t := Queued(op, lock)] == map[t := Queued(op, lock)];
      run' := OneMore(first, run', asked, LookUp(t), Busy(s', t, Queued(op, lock)));
    } else {
      lock := s.locksMade;
      s' := s.(table := Some(lock), locksMade := lock + 1);
      assert map[t := Asked(op)][t := Missed(op)] == map[t := Missed(op)];
      assert map[t := Missed(op)][t := Queued(op, lock)] == map[t := Queued(op, lock)];
      run' := OneMore(first, run', asked, LookUp(t), Busy(s, t, Missed(op)));
      run' := OneMore(first, run', Busy(s, t, Missed(op)), OrInsert(t), Busy(s', t, Queued(op, lock)));
    }
  }

  lemma ReachRead(first: Option<Cell>, run: seq<System>, s: System, op: Op, lock: LockId, t: TaskId) returns (run': seq<System>)
    requires RunTo(first, run, Busy(s, t, Queued(op, lock)))
    ensures RunTo(first, run', Busy(s, t, HasReread(op, lock, s.cell, s.cell)))
  {
    var queued, locked := Queued(op, lock), Locked(op, lock);
    var read, reread := HasRead(op, lock, s.cell), HasReread(op, lock, s.cell, s.cell);
    assert map[t := queued][t := locked] == map[t := locked] && map[][lock := t] == map[lock := t];
    assert map[t := locked][t := read] == map[t := read] && map[t := read][t := reread] == map[t := reread];
    run' := OneMore(first, run, Busy(s, t, queued), Acquire(t), Busy(s, t, locked));
    run' := OneMore(first, run', Busy(s, t, locked), Read(t), Busy(s, t, read));
    run' := OneMore(first, run', Busy(s, t, read), Reread(t), Busy(s, t, reread));
  }

  /** A call that nothing runs beside completes, as one indivisible step would. */
  lemma CallAlone(first: Option<Cell>, run: seq<System>, s: System, op: Op) returns (run': seq<System>, s': System)
    requires RunTo(first, run, s) && Idle(s)
    ensures RunTo(first, run', s') && Idle(s') && s'.cell == Atomically(s.cell, op).0
    ensures s'.effects == s.effects + [Effect(s.spawned, op, Atomically(s.cell, op).1)]
  {
    var t, lock, ready := s.spawned, 0, s;
    run', ready, lock := ReachQueue(first, run, s, op);
    run' := ReachRead(first, run', ready, op, lock, t);
    var d := Decide(op, s.cell, s.cell);
    var reread, replied := HasReread(op, lock, s.cell, s.cell), Replied(op, lock, d.1);
    var done := ready.(cell := Update(s.cell, d.0), effects := s.effects + [Effect(t, op, d.1)]);
    assert map[t := reread][t := replied] == map[t := replied];
    run' := OneMore(first, run', Busy(ready, t, reread), Commit(t), Busy(done, t, replied));
    s' := done.(spawned := s.spawned + 1);
    assert map[t := replied] - {t} == map[] && map[lock := t] - {lock} == map[];
    run' := OneMore(first, run', Busy(done, t, replied), Release(t), s');
  }

  /** The bound is exact: at the largest version the counter saturates, and a run lets two calls that expect it both swap. */
  lemma SwapRepeatsAtTheLimit(value: string) returns (run: seq<System>, s: System)
    ensures RunTo(Some(Cell(value, U64_MAX)), run, s) && |s.effects| == 2
    ensures forall i :: 0 <= i < 2 ==>
              s.effects[i].op == CompareAndSwap(U64_MAX, value) && s.effects[i].reply == Port.Swapped(Some(U64_MAX))
  {
    var first := Some(Cell(value, U64_MAX));
    s := Init(first);
    run := [s];
    run, s := CallAlone(first, run, s, CompareAndSwap(U64_MAX, value));
    run, s := CallAlone(first, run, s, CompareAndSwap(U64_MAX, value));
  }
}
