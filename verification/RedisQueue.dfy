/**
  One partition of the Redis Streams queue as sequences of atomic commands. One consumer owns the
  partition; publishers add concurrently; the consumer may crash between any two commands.
 */
module RedisQueue {
  import opened Basics

  type EntryId = nat
  type Payload = string

  /** Stream, consumer group (entries below `cursor` were read), pending list, delay set, DLQ. */
  datatype Store = Store(
    stream: map<EntryId, Payload>,
    nextId: EntryId,
    cursor: EntryId,
    pending: set<EntryId>,
    delay: map<Payload, int>,
    dlq: seq<Payload>)

  // ---- Redis commands ----

  function Xadd(r: Store, p: Payload): Store {
    r.(stream := r.stream[r.nextId := p], nextId := r.nextId + 1)
  }

  function Xack(r: Store, e: EntryId): Store {
    r.(pending := r.pending - {e})
  }

  function Xdel(r: Store, e: EntryId): Store {
    r.(stream := r.stream - {e})
  }

  function Zadd(r: Store, p: Payload, readyAt: int): Store {
    r.(delay := r.delay[p := readyAt])
  }

  function Zrem(r: Store, p: Payload): Store {
    r.(delay := r.delay - {p})
  }

  function XaddDlq(r: Store, p: Payload): Store {
    r.(dlq := r.dlq + [p])
  }

  /** Entries never read yet, up to `upto`. */
  function Unread(r: Store, upto: EntryId): set<EntryId> {
    set e | e in r.stream && r.cursor <= e < upto
  }

  /** XREADGROUP >: hand out the next unread entries and remember them as pending. */
  function Xreadgroup(r: Store, upto: EntryId): Store {
    r.(pending := r.pending + Unread(r, upto), cursor := upto)
  }

  // ---- The consumer ----

  /** A queue operation in progress: its delivery and how many of its commands have run. */
  datatype Op = Ack | Nack(readyAt: int) | Bury

  datatype Consumer =
    | Idle
    | Pumping(due: seq<Payload>, added: Option<EntryId>)
    | Working(op: Op, e: EntryId, p: Payload, stage: nat)

  /** `held` are deliveries handed to the worker; they die with the process. */
  datatype State = State(redis: Store, consumer: Consumer, held: map<EntryId, Payload>)

  predicate Init(s: State) {
    s == State(Store(map[], 0, 0, {}, map[], []), Idle, map[])
  }

  datatype Step =
    | Publish(p: Payload)
    | StartPump(due: seq<Payload>)
    | PumpAdd
    | PumpRemove
    | EndPump
    | Read(upto: EntryId)
    | Reclaim(es: set<EntryId>)
    | Begin(op: Op, e: EntryId)
    | Command
    | RetryOp
    | Crash

  predicate Distinct(due: seq<Payload>) {
    forall i, j | 0 <= i < j < |due| :: due[i] != due[j]
  }

  predicate Enabled(s: State, step: Step) {
    match step
    case Publish(_) => true
    case StartPump(due) => s.consumer.Idle? && Distinct(due) && forall p | p in due :: p in s.redis.delay
    case PumpAdd => s.consumer.Pumping? && s.consumer.due != []
    case PumpRemove => s.consumer.Pumping? && s.consumer.due != [] && s.consumer.added.Some?
    case EndPump => s.consumer.Pumping? && s.consumer.due == []
    case Read(upto) => s.consumer.Idle? && s.redis.cursor <= upto <= s.redis.nextId
    case Reclaim(es) => s.consumer.Idle? && es <= s.redis.pending && es <= s.redis.stream.Keys
    case Begin(_, e) => s.consumer.Idle? && e in s.held
    case Command => s.consumer.Working?
    case RetryOp => s.consumer.Working?
    case Crash => true
  }

  /** ack: XACK, XDEL. nack: ZADD, XACK, XDEL. deadLetter: XADD to the DLQ, XACK, XDEL. */
  function RunCommand(r: Store, op: Op, e: EntryId, p: Payload, stage: nat): Store {
    if op.Ack? then (if stage == 0 then Xack(r, e) else Xdel(r, e))
    else if stage == 0 then (if op.Nack? then Zadd(r, p, op.readyAt) else XaddDlq(r, p))
    else if stage == 1 then Xack(r, e)
    else Xdel(r, e)
  }

  function LastStage(op: Op): nat {
    if op.Ack? then 1 else 2
  }

  function Apply(s: State, step: Step): State
    requires Enabled(s, step)
  {
    match step
    case Publish(p) => s.(redis := Xadd(s.redis, p))
    case StartPump(due) => s.(consumer := Pumping(due, None))
    // XADD before ZREM; a retried XADD may add a duplicate.
    case PumpAdd => s.(redis := Xadd(s.redis, s.consumer.due[0]), consumer := s.consumer.(added := Some(s.redis.nextId)))
    case PumpRemove => s.(redis := Zrem(s.redis, s.consumer.due[0]), consumer := Pumping(s.consumer.due[1..], None))
    case EndPump => s.(consumer := Idle)
    case Read(upto) =>
      s.(redis := Xreadgroup(s.redis, upto),
         held := s.held + map e | e in Unread(s.redis, upto) :: s.redis.stream[e])
    case Reclaim(es) => s.(held := s.held + map e | e in es :: s.redis.stream[e])
    case Begin(op, e) => s.(consumer := Working(op, e, s.held[e], 0))
    case Command =>
      var c := s.consumer;
      var redis := RunCommand(s.redis, c.op, c.e, c.p, c.stage);
      if c.stage >= LastStage(c.op) then State(redis, Idle, s.held - {c.e})
      else s.(redis := redis, consumer := c.(stage := c.stage + 1))
    // The whole command sequence is retried from its start on a transient error.
    case RetryOp => s.(consumer := s.consumer.(stage := 0))
    case Crash => State(s.redis, Idle, map[])
  }

  ghost predicate StepAt(states: seq<State>, steps: seq<Step>, i: nat)
    requires i < |steps| && i + 1 < |states|
  {
    Enabled(states[i], steps[i]) && states[i + 1] == Apply(states[i], steps[i])
  }

  ghost predicate Run(states: seq<State>, steps: seq<Step>) {
    && |states| == |steps| + 1
    && Init(states[0])
    && forall i | 0 <= i < |steps| :: StepAt(states, steps, i)
  }

  lemma RunExtends(states: seq<State>, steps: seq<Step>, step: Step)
    requires Run(states, steps) && Enabled(states[|steps|], step)
    ensures Run(states + [Apply(states[|steps|], step)], steps + [step])
  {
    var states', steps' := states + [Apply(states[|steps|], step)], steps + [step];
    forall i | 0 <= i < |steps'|
      ensures StepAt(states', steps', i)
    {
      assert i < |steps| ==> StepAt(states, steps, i);
    }
  }

  // ---- What it means for a payload not to be lost ----

  /** An entry the group will still hand out: unread, or pending and hence reclaimable. */
  predicate Reachable(r: Store, e: EntryId, p: Payload) {
    e in r.stream && r.stream[e] == p && (r.cursor <= e || e in r.pending)
  }

  ghost predicate Deliverable(r: Store, p: Payload) {
    p in r.delay || p in r.dlq || exists e :: Reachable(r, e, p)
  }

  /** The acknowledging command itself: XACK of an `ack` for a delivery of p. */
  predicate Acknowledges(s: State, step: Step, p: Payload) {
    step.Command? && s.consumer.Working? && s.consumer.op.Ack? && s.consumer.p == p && s.consumer.stage == 0
  }

  ghost predicate Inv(s: State) {
    var r := s.redis;
    && r.cursor <= r.nextId
    && (forall e | e in r.stream :: e < r.nextId)
    && (forall e | e in r.pending :: e < r.cursor)
    && (forall e | e in s.held :: e < r.cursor && (e in r.stream ==> r.stream[e] == s.held[e]))
    && match s.consumer
       case Idle => true
       case Pumping(due, added) =>
         && Distinct(due) && (forall p | p in due :: p in r.delay)
         && (added.Some? ==> due != [] && Reachable(r, added.value, due[0]) && r.cursor <= added.value)
       case Working(op, e, p, stage) =>
         && stage <= LastStage(op)
         && e < r.cursor && (e in r.stream ==> r.stream[e] == p)
         && (op.Ack? && stage == 1 ==> e !in r.pending)
         && (op.Nack? && stage > 0 ==> p in r.delay)
         && (op.Bury? && stage > 0 ==> p in r.dlq)
  }

  lemma StepInv(s: State, step: Step)
    requires Inv(s) && Enabled(s, step)
    ensures Inv(Apply(s, step))
  {
    if step.PumpRemove? {
      var due := s.consumer.due;
      assert forall p | p in due[1..] :: p in due && p != due[0];
    }
  }

  /** One step: a deliverable payload stays deliverable unless this very step acknowledges it. */
  lemma StepKeepsPayload(s: State, step: Step, p: Payload)
    requires Inv(s) && Enabled(s, step)
    requires Deliverable(s.redis, p) && !Acknowledges(s, step, p)
    ensures Deliverable(Apply(s, step).redis, p)
  {
    var r, r' := s.redis, Apply(s, step).redis;
    if step.PumpRemove? && s.consumer.due[0] == p {
      assert Reachable(r', s.consumer.added.value, p);
    } else if p !in r.delay && p !in r.dlq {
      var e :| Reachable(r, e, p);
      if step.Command? && s.consumer.e == e {
        assert s.consumer.p == p;
      } else {
        assert Reachable(r', e, p);
      }
    }
  }

  lemma {:induction false} RunInv(states: seq<State>, steps: seq<Step>, i: nat)
    requires Run(states, steps) && i < |states|
    ensures Inv(states[i])
  {
    if i > 0 {
      RunInv(states, steps, i - 1);
      assert StepAt(states, steps, i - 1);
      StepInv(states[i - 1], steps[i - 1]);
    }
  }

  /**
    No queued message is lost: in every run, with publishers interleaving and a crash allowed
    between any two commands, a payload deliverable at i and not at j was acknowledged in between.
   */
  lemma {:induction false} LostOnlyByAck(states: seq<State>, steps: seq<Step>, i: nat, j: nat, p: Payload) returns (k: nat)
    requires Run(states, steps) && i <= j < |states|
    requires Deliverable(states[i].redis, p) && !Deliverable(states[j].redis, p)
    ensures i <= k < j && Acknowledges(states[k], steps[k], p)
    decreases j
  {
    if Deliverable(states[j - 1].redis, p) {
      RunInv(states, steps, j - 1);
      assert StepAt(states, steps, j - 1);
      if !Acknowledges(states[j - 1], steps[j - 1], p) {
        StepKeepsPayload(states[j - 1], steps[j - 1], p);
        assert false;
      }
      k := j - 1;
    } else {
      k := LostOnlyByAck(states, steps, i, j - 1, p);
    }
  }

  /** A published payload is deliverable at once. */
  lemma PublishedIsDeliverable(states: seq<State>, steps: seq<Step>, i: nat)
    requires Run(states, steps) && i < |steps| && steps[i].Publish?
    ensures Deliverable(states[i + 1].redis, steps[i].p)
  {
    RunInv(states, steps, i);
    assert StepAt(states, steps, i);
    assert Reachable(states[i + 1].redis, states[i].redis.nextId, steps[i].p);
  }

  // ---- Nothing is invented ----

  /** Payloads published by the first i steps. */
  ghost function PublishedBy(steps: seq<Step>, i: nat): set<Payload>
    requires i <= |steps|
  {
    if i == 0 then {}
    else PublishedBy(steps, i - 1) + (if steps[i - 1].Publish? then {steps[i - 1].p} else {})
  }

  ghost predicate AllFrom(s: State, known: set<Payload>) {
    && (forall e | e in s.redis.stream :: s.redis.stream[e] in known)
    && s.redis.delay.Keys <= known
    && (forall p | p in s.redis.dlq :: p in known)
    && (forall e | e in s.held :: s.held[e] in known)
    && (s.consumer.Working? ==> s.consumer.p in known)
  }

  lemma StepInventsNothing(s: State, step: Step, known: set<Payload>)
    requires Inv(s) && Enabled(s, step) && AllFrom(s, known)
    ensures AllFrom(Apply(s, step), known + (if step.Publish? then {step.p} else {}))
  {
  }

  /** Whatever sits in the stream, the delay set, the DLQ or a worker's hands was published earlier. */
  lemma {:induction false} NothingInvented(states: seq<State>, steps: seq<Step>, i: nat)
    requires Run(states, steps) && i < |states|
    ensures AllFrom(states[i], PublishedBy(steps, i))
  {
    if i > 0 {
      NothingInvented(states, steps, i - 1);
      RunInv(states, steps, i - 1);
      assert StepAt(states, steps, i - 1);
      StepInventsNothing(states[i - 1], steps[i - 1], PublishedBy(steps, i - 1));
    }
  }

  // ---- Order ----

  /** Step m hands entry e out for the first time. */
  ghost predicate Reads(states: seq<State>, steps: seq<Step>, m: nat, e: EntryId)
    requires Run(states, steps) && m < |steps|
  {
    steps[m].Read? && e in Unread(states[m].redis, steps[m].upto)
  }

  lemma StepCounters(s: State, step: Step)
    requires Enabled(s, step)
    ensures var r, r' := s.redis, Apply(s, step).redis;
      && r.cursor <= r'.cursor && r.nextId <= r'.nextId
      && r'.cursor == (if step.Read? then step.upto else r.cursor)
      && (step.Publish? ==> r'.nextId == r.nextId + 1 && r.nextId in r'.stream && r'.stream[r.nextId] == step.p)
  {
  }

  /** The read cursor and the entry counter never go back. */
  lemma {:induction false} CountersGrow(states: seq<State>, steps: seq<Step>, i: nat, j: nat)
    requires Run(states, steps) && i <= j < |states|
    ensures states[i].redis.cursor <= states[j].redis.cursor && states[i].redis.nextId <= states[j].redis.nextId
    decreases j
  {
    if i < j {
      CountersGrow(states, steps, i, j - 1);
      assert StepAt(states, steps, j - 1);
      StepCounters(states[j - 1], steps[j - 1]);
    }
  }

  ghost predicate UnreadKept(r: Store) {
    forall e | r.cursor <= e < r.nextId :: e in r.stream
  }

  lemma StepKeepsUnread(s: State, step: Step)
    requires Inv(s) && Enabled(s, step) && UnreadKept(s.redis)
    ensures UnreadKept(Apply(s, step).redis)
  {
  }

  /** No entry is deleted before it has been read. */
  lemma {:induction false} UnreadStays(states: seq<State>, steps: seq<Step>, i: nat)
    requires Run(states, steps) && i < |states|
    ensures UnreadKept(states[i].redis)
  {
    if i > 0 {
      UnreadStays(states, steps, i - 1);
      RunInv(states, steps, i - 1);
      assert StepAt(states, steps, i - 1);
      StepKeepsUnread(states[i - 1], steps[i - 1]);
    }
  }

  /** Every entry below the cursor was handed out by an earlier read. */
  lemma {:induction false} PassedWasRead(states: seq<State>, steps: seq<Step>, j: nat, e: EntryId) returns (m: nat)
    requires Run(states, steps) && j < |states| && e < states[j].redis.cursor
    ensures m < j && Reads(states, steps, m, e)
    decreases j
  {
    assert j > 0;
    if e < states[j - 1].redis.cursor {
      m := PassedWasRead(states, steps, j - 1, e);
    } else {
      m := j - 1;
      assert StepAt(states, steps, m);
      StepCounters(states[m], steps[m]);
      UnreadStays(states, steps, m);
    }
  }

  /** An entry is handed out for the first time once. */
  lemma ReadOnce(states: seq<State>, steps: seq<Step>, m: nat, n: nat, e: EntryId)
    requires Run(states, steps) && m < |steps| && n < |steps| && Reads(states, steps, m, e) && Reads(states, steps, n, e)
    ensures m == n
  {
    if m != n {
      var first, second := if m < n then m else n, if m < n then n else m;
      assert StepAt(states, steps, first);
      StepCounters(states[first], steps[first]);
      CountersGrow(states, steps, first + 1, second);
    }
  }

  /**
    FIFO over runs: of two entries of the partition, the earlier is handed out no later than the later
    one, whatever is deleted, delayed, reclaimed or crashes in between.
   */
  lemma FirstReadsInOrder(states: seq<State>, steps: seq<Step>, n: nat, e: EntryId, f: EntryId) returns (m: nat)
    requires Run(states, steps) && n < |steps| && Reads(states, steps, n, f) && e < f
    ensures m <= n && Reads(states, steps, m, e)
  {
    if e < states[n].redis.cursor {
      m := PassedWasRead(states, steps, n, e);
    } else {
      m := n;
      assert StepAt(states, steps, n);
      UnreadStays(states, steps, n);
    }
  }

  /** Publish order is entry order: what is published later is an entry further on. */
  lemma PublishedInOrder(states: seq<State>, steps: seq<Step>, i: nat, j: nat)
    requires Run(states, steps) && i < j < |steps| && steps[i].Publish? && steps[j].Publish?
    ensures states[i].redis.nextId < states[j].redis.nextId
    ensures states[i].redis.nextId in states[i + 1].redis.stream && states[i + 1].redis.stream[states[i].redis.nextId] == steps[i].p
  {
    assert StepAt(states, steps, i);
    StepCounters(states[i], steps[i]);
    CountersGrow(states, steps, i + 1, j);
  }

  /** So of two messages, the one published first is handed out no later than the other. */
  lemma PublishedIsReadInOrder(states: seq<State>, steps: seq<Step>, i: nat, j: nat, n: nat) returns (m: nat)
    requires Run(states, steps) && i < j < |steps| && steps[i].Publish? && steps[j].Publish?
    requires n < |steps| && Reads(states, steps, n, states[j].redis.nextId)
    ensures m <= n && Reads(states, steps, m, states[i].redis.nextId)
  {
    PublishedInOrder(states, steps, i, j);
    m := FirstReadsInOrder(states, steps, n, states[i].redis.nextId, states[j].redis.nextId);
  }

  // ---- The driver ----

  datatype Delivery = Delivery(e: EntryId, p: Payload)

  const PUMP_LIMIT: nat := 100

  /**
    The driver's methods. `states` records the store after every single command, so a crash between
    two commands is a run that leaves this one at that state.
   */
  class RedisStreamsQueue {
    var state: State
    ghost var states: seq<State>
    ghost var steps: seq<Step>

    ghost predicate Valid()
      reads this
    {
      Run(states, steps) && states[|states| - 1] == state
    }

    ghost predicate Ready()
      reads this
    {
      Valid() && state.consumer == Idle
    }

    constructor ()
      ensures Ready() && steps == [] && state.held == map[]
    {
      state := State(Store(map[], 0, 0, {}, map[], []), Idle, map[]);
      states, steps := [State(Store(map[], 0, 0, {}, map[], []), Idle, map[])], [];
    }

    method Do(step: Step)
      requires Valid() && Enabled(state, step)
      modifies this
      ensures Valid() && state == Apply(old(state), step) && steps == old(steps) + [step]
    {
      RunExtends(states, steps, step);
      state := Apply(state, step);
      states, steps := states + [state], steps + [step];
    }

    /** Publishers add to the stream at any time, also between two commands of the consumer. */
    method PublishAll(ps: seq<Payload>)
      requires Valid()
      modifies this
      ensures Valid() && old(steps) <= steps && state.consumer == old(state.consumer) && state.held == old(state.held)
      ensures Grows(old(state.redis), state.redis)
    {
      RunInv(states, steps, |states| - 1);
      for i := 0 to |ps|
        invariant Valid() && old(steps) <= steps && state.consumer == old(state.consumer) && state.held == old(state.held)
        invariant Grows(old(state.redis), state.redis)
      {
        RunInv(states, steps, |states| - 1);
        Do(Publish(ps[i]));
      }
    }

    /** Move due delay-set members back onto the stream: XADD first, ZREM second. */
    method PumpDelayed(now: int, others: nat -> seq<Payload>)
      requires Ready()
      modifies this
      ensures Ready() && old(steps) <= steps && state.held == old(state.held) && state.redis.cursor == old(state.redis.cursor)
      ensures forall p | p in state.redis.delay :: p in old(state.redis.delay) && state.redis.delay[p] == old(state.redis.delay)[p]
      ensures forall p | p in old(state.redis.delay) && p !in state.redis.delay :: OnStream(state.redis, p)
      ensures forall p | p in old(state.redis.delay) && old(state.redis.delay)[p] > now :: p in state.redis.delay
      ensures |DueMembers(old(state.redis.delay), now)| <= 100 ==>
        forall p | p in state.redis.delay :: state.redis.delay[p] > now
    {
      var due := SelectDue(state.redis.delay, now);
      Do(StartPump(due));
      var done := 0;
      while done < |due|
        invariant Valid() && old(steps) <= steps && state.held == old(state.held)
        invariant done <= |due| && state.consumer == Pumping(due[done..], None)
        invariant state.redis.delay == old(state.redis.delay) - (set p | p in due[..done])
        invariant state.redis.cursor == old(state.redis.cursor)
        invariant forall p | p in due[..done] :: OnStream(state.redis, p)
      {
        PumpOne(due[done..], others(done));
        assert due[done..][1..] == due[done + 1..];
        assert due[..done + 1] == due[..done] + [due[done]];
        done := done + 1;
      }
      assert due[..done] == due;
      Do(EndPump);
    }

    /** XADD, then ZREM, with publishers in between. */
    method PumpOne(due: seq<Payload>, others: seq<Payload>)
      requires Valid() && due != [] && state.consumer == Pumping(due, None)
      modifies this
      ensures Valid() && old(steps) <= steps && state.held == old(state.held) && state.consumer == Pumping(due[1..], None)
      ensures state.redis.delay == old(state.redis.delay) - {due[0]} && state.redis.cursor == old(state.redis.cursor)
      ensures OnStream(state.redis, due[0])
      ensures forall p | old(OnStream(state.redis, p)) :: OnStream(state.redis, p)
    {
      ghost var before := state.redis;
      RunInv(states, steps, |states| - 1);
      Do(PumpAdd);
      PublishAll(others);
      PumpedOnStream(before, state.redis, due[0]);
      ghost var pumped := state.redis;
      Do(PumpRemove);
      assert forall q | OnStream(pumped, q) :: OnStream(state.redis, q);
    }

    /** XAUTOCLAIM: take over pending entries that sat idle past the visibility timeout. */
    method ReclaimExpired(max: nat, idle: set<EntryId>) returns (got: seq<Delivery>)
      requires Ready()
      modifies this
      ensures Ready() && old(steps) <= steps && state.redis == old(state.redis) && |got| <= max
      ensures forall d | d in got :: d.e in idle && d.e in state.redis.pending
                                     && d.e in state.held && state.held[d.e] == d.p
    {
      var left := state.redis.pending * state.redis.stream.Keys * idle;
      var taken: set<EntryId> := {};
      got := [];
      while left != {} && |got| < max
        invariant |got| <= max && left + taken <= state.redis.pending * state.redis.stream.Keys * idle
        invariant Ready() && state == old(state) && steps == old(steps)
        invariant forall d | d in got :: d.e in taken && d.e in state.redis.stream && state.redis.stream[d.e] == d.p
        decreases left
      {
        var e :| e in left;
        got, taken, left := got + [Delivery(e, state.redis.stream[e])], taken + {e}, left - {e};
      }
      Do(Reclaim(taken));
    }

    /** consume: pump, then XREADGROUP the next unread entries, at most `max` of them. */
    method Consume(now: int, max: nat, others: nat -> seq<Payload>) returns (got: seq<Delivery>)
      requires Ready()
      modifies this
      ensures Ready() && old(steps) <= steps && |got| <= max
      ensures forall d | d in got :: d.e in state.held && state.held[d.e] == d.p && d.e in state.redis.pending
      ensures forall i, j | 0 <= i < j < |got| :: got[i].e < got[j].e
      ensures forall e | e in state.redis.stream && old(state.redis.cursor) <= e < state.redis.cursor ::
        Delivery(e, state.redis.stream[e]) in got
      ensures |got| < max ==> state.redis.cursor == state.redis.nextId
    {
      PumpDelayed(now, others);
      got := ReadNew(max);
    }

    /** XREADGROUP > */
    method ReadNew(max: nat) returns (got: seq<Delivery>)
      requires Ready()
      modifies this
      ensures Ready() && old(steps) <= steps && |got| <= max
      ensures forall d | d in got :: d.e in state.held && state.held[d.e] == d.p && d.e in state.redis.pending
      ensures forall i, j | 0 <= i < j < |got| :: got[i].e < got[j].e
      ensures forall e | e in state.redis.stream && old(state.redis.cursor) <= e < state.redis.cursor ::
        Delivery(e, state.redis.stream[e]) in got
      ensures |got| < max ==> state.redis.cursor == state.redis.nextId
    {
      RunInv(states, steps, |states| - 1);
      var upto;
      got, upto := NextUnread(state.redis, max);
      Do(Read(upto));
    }

    method Ack(d: Delivery)
      requires Ready() && d.e in state.held && state.held[d.e] == d.p
      modifies this
      ensures Ready() && old(steps) <= steps
      ensures state.redis.stream == old(state.redis.stream) - {d.e} && state.redis.pending == old(state.redis.pending) - {d.e}
      ensures state.held == old(state.held) - {d.e} && state.redis.cursor == old(state.redis.cursor)
      ensures state.redis.delay == old(state.redis.delay) && state.redis.dlq == old(state.redis.dlq)
    {
      Do(Begin(Op.Ack, d.e));
      Do(Command);
      Do(Command);
    }

    method Nack(d: Delivery, readyAt: int)
      requires Ready() && d.e in state.held && state.held[d.e] == d.p
      modifies this
      ensures Ready() && old(steps) <= steps
      ensures state.redis.stream == old(state.redis.stream) - {d.e} && state.redis.pending == old(state.redis.pending) - {d.e}
      ensures state.held == old(state.held) - {d.e} && state.redis.cursor == old(state.redis.cursor)
      ensures state.redis.delay == old(state.redis.delay)[d.p := readyAt] && state.redis.dlq == old(state.redis.dlq)
    {
      Do(Begin(Op.Nack(readyAt), d.e));
      Do(Command);
      Do(Command);
      Do(Command);
    }

    method DeadLetter(d: Delivery)
      requires Ready() && d.e in state.held && state.held[d.e] == d.p
      modifies this
      ensures Ready() && old(steps) <= steps
      ensures state.redis.stream == old(state.redis.stream) - {d.e} && state.redis.pending == old(state.redis.pending) - {d.e}
      ensures state.held == old(state.held) - {d.e} && state.redis.cursor == old(state.redis.cursor)
      ensures state.redis.dlq == old(state.redis.dlq) + [d.p] && state.redis.delay == old(state.redis.delay)
    {
      Do(Begin(Bury, d.e));
      Do(Command);
      Do(Command);
      Do(Command);
    }
  }

  /** The first unread entries, in stream order and at most `max` of them, and where they end. */
  method NextUnread(r: Store, max: nat) returns (got: seq<Delivery>, upto: EntryId)
    requires r.cursor <= r.nextId
    ensures r.cursor <= upto <= r.nextId && |got| <= max && (|got| < max ==> upto == r.nextId)
    ensures forall d | d in got :: d.e in Unread(r, upto) && r.stream[d.e] == d.p
    ensures forall i, j | 0 <= i < j < |got| :: got[i].e < got[j].e
    ensures forall e | e in Unread(r, upto) :: Delivery(e, r.stream[e]) in got
  {
    got, upto := [], r.cursor;
    while upto < r.nextId && |got| < max
      invariant r.cursor <= upto <= r.nextId && |got| <= max
      invariant forall d | d in got :: d.e in Unread(r, upto) && r.stream[d.e] == d.p
      invariant forall i, j | 0 <= i < j < |got| :: got[i].e < got[j].e
      invariant forall e | e in Unread(r, upto) :: Delivery(e, r.stream[e]) in got
      decreases r.nextId - upto
    {
      if upto in r.stream {
        got := got + [Delivery(upto, r.stream[upto])];
      }
      upto := upto + 1;
    }
  }

  /** An unread entry with this payload. */
  ghost predicate OnStream(r: Store, p: Payload) {
    exists e :: e in r.stream && r.stream[e] == p && r.cursor <= e
  }

  lemma PumpedOnStream(before: Store, after: Store, p: Payload)
    requires Grows(Xadd(before, p), after)
    requires before.cursor <= before.nextId && forall e | e in before.stream :: e < before.nextId
    ensures OnStream(after, p) && forall q | OnStream(before, q) :: OnStream(after, q)
  {
    var added := Xadd(before, p);
    assert before.nextId in added.stream && after.stream[before.nextId] == p;
    forall q | OnStream(before, q)
      ensures OnStream(after, q)
    {
      var e :| e in before.stream && before.stream[e] == q && before.cursor <= e;
      assert e in added.stream && after.stream[e] == q;
    }
  }

  /** What concurrent publishers may do to the store. */
  ghost predicate Grows(a: Store, b: Store) {
    && b == a.(stream := b.stream, nextId := b.nextId) && a.nextId <= b.nextId
    && forall e | e in a.stream :: e in b.stream && b.stream[e] == a.stream[e]
  }

  function DueMembers(delay: map<Payload, int>, now: int): set<Payload> {
    set p | p in delay && delay[p] <= now
  }

  /** ZRANGEBYSCORE -inf now LIMIT 0 100. */
  method SelectDue(delay: map<Payload, int>, now: int) returns (due: seq<Payload>)
    ensures Distinct(due) && |due| <= PUMP_LIMIT
    ensures forall p | p in due :: p in DueMembers(delay, now)
    ensures |DueMembers(delay, now)| <= PUMP_LIMIT ==> forall p | p in DueMembers(delay, now) :: p in due
  {
    var left := DueMembers(delay, now);
    due := [];
    while left != {} && |due| < PUMP_LIMIT
      invariant |due| <= PUMP_LIMIT && Distinct(due) && |due| + |left| == |DueMembers(delay, now)|
      invariant left <= DueMembers(delay, now)
      invariant forall p | p in due :: p in DueMembers(delay, now) && p !in left
      invariant forall p | p in DueMembers(delay, now) :: p in left || p in due
      decreases left
    {
      var p :| p in left;
      due, left := due + [p], left - {p};
    }
  }
}
