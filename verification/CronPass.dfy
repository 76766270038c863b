/**
  One leader pass of the cron, as a stretch of a run of the delivery protocol: every write is a
  protocol step, and all other parties act at each of its await points, every point with a schedule of
  its own. No stale row is left without somebody to drive it.
 */
module CronPass {
  import opened Basics
  import opened Rows
  import opened Protocol
  import opened ProtocolInvariant
  import opened ProtocolTheorems

  const BATCH: nat := 100

  /** A republished message; `replace` names the nonce to rebroadcast. */
  datatype Published = Published(id: RowId, replace: Option<nat>)

  /** What the node reveals, and the clock readings of the pass: a receipt it does not show yet is hidden. */
  datatype Answers = Answers(hidden: Hash -> bool, known: Hash -> bool, clock: nat -> int)

  function ReadReceipt(answers: Answers, chain: Chain, h: Hash): Option<Receipt> {
    if h in chain.mined && !answers.hidden(h) then Some(chain.mined[h]) else None
  }

  // ---- What is expected of the pass, in figures and statuses ----

  /** A revert that left more than a twentieth of its gas: retrying cannot help. */
  predicate LeftGas(receipt: Receipt) {
    && !receipt.success && receipt.gasUsed.Some? && receipt.gasLimit.Some? && receipt.gasLimit.value > 0
    && receipt.gasUsed.value * 100 < receipt.gasLimit.value * 95
  }

  /** Another attempt with a fresh nonce is left. */
  predicate FreshLeft(r: Row) {
    (r.status == Pending || r.status == Submitted || r.status == Failed) && r.retryCount + 1 < r.maxRetries
  }

  /** Another attempt on the committed nonce is left. */
  predicate ReplaceLeft(r: Row) {
    (r.status == Submitting || r.status == Submitted) && r.retryCount + 1 < r.maxRetries
  }

  /** A failed attempt is counted; without another one the row is given up. */
  predicate AfterFresh(r: Row, r': Row) {
    if FreshLeft(r) then r'.status == Failed && r'.retryCount == r.retryCount + 1
    else Finalized(r, r', DeadLetter)
  }

  predicate AfterReplace(r: Row, r': Row) {
    if ReplaceLeft(r) then r'.status == r.status && r'.retryCount == r.retryCount + 1 && r'.nonce == r.nonce && r'.wallet == r.wallet
    else if r.status == Submitting || r.status == Submitted then r'.status == DeadLetter
    else r' == r
  }

  /** Success confirms, a revert with gas left gives up, any other revert asks for a fresh nonce. */
  predicate Reconciled(r: Row, r': Row, receipt: Receipt) {
    if receipt.success then Finalized(r, r', Confirmed)
    else if LeftGas(receipt) then Finalized(r, r', DeadLetter)
    else AfterFresh(r, r')
  }

  /** What a write of a final status leaves behind: `status`, unless the row was final already. */
  predicate Finalized(r: Row, r': Row, status: Status) {
    if r.status == Confirmed || r.status == DeadLetter then r' == r else r'.status == status
  }

  // ---- Stale rows ----

  predicate Stale(r: Row, status: Status, cutoff: int) {
    r.status == status && r.updatedAt < cutoff
  }

  function StaleRows(rows: map<RowId, Row>, status: Status, cutoff: int): set<RowId> {
    set id | id in rows && Stale(rows[id], status, cutoff)
  }

  /** ORDER BY updated_at, id */
  predicate Before(rows: map<RowId, Row>, a: RowId, b: RowId) {
    && a in rows && b in rows
    && (rows[a].updatedAt < rows[b].updatedAt || (rows[a].updatedAt == rows[b].updatedAt && a <= b))
  }

  predicate IsOldest(rows: map<RowId, Row>, ids: set<RowId>, a: RowId)
    requires ids <= rows.Keys
  {
    a in ids && forall b | b in ids :: Before(rows, a, b)
  }

  lemma {:induction false} OldestExists(rows: map<RowId, Row>, ids: set<RowId>)
    requires ids != {} && ids <= rows.Keys
    ensures exists a :: IsOldest(rows, ids, a)
    decreases ids
  {
    var x :| x in ids;
    var rest := ids - {x};
    assert ids == rest + {x};
    if rest == {} {
      assert IsOldest(rows, ids, x);
    } else {
      OldestExists(rows, rest);
      var y :| IsOldest(rows, rest, y);
      assert forall b | b in ids :: b == x || b in rest;
      assert IsOldest(rows, ids, if Before(rows, x, y) then x else y);
    }
  }

  /** At most `limit` of the rows, oldest first. */
  method OldestFirst(rows: map<RowId, Row>, all: set<RowId>, limit: nat) returns (recs: seq<RowId>)
    requires all <= rows.Keys
    ensures |recs| <= limit && forall i | 0 <= i < |recs| :: recs[i] in all
    ensures forall i, j | 0 <= i < j < |recs| :: recs[i] != recs[j] && Before(rows, recs[i], recs[j])
    ensures |recs| < limit || |all| <= limit ==> forall id | id in all :: id in recs
    ensures forall id, i | id in all && id !in recs && 0 <= i < |recs| :: Before(rows, recs[i], id)
  {
    var left := all;
    recs := [];
    while left != {} && |recs| < limit
      invariant left <= all && |recs| <= limit && |recs| + |left| == |all|
      invariant forall id | id in all :: id in left || id in recs
      invariant forall i | 0 <= i < |recs| :: recs[i] in all && recs[i] !in left
      invariant forall i, j | 0 <= i < j < |recs| :: recs[i] != recs[j] && Before(rows, recs[i], recs[j])
      invariant forall i, id | 0 <= i < |recs| && id in left :: Before(rows, recs[i], id)
      decreases left
    {
      OldestExists(rows, left);
      var id :| id in left && IsOldest(rows, left, id);
      recs, left := recs + [id], left - {id};
    }
  }

  predicate EndStatus(status: Status) {
    status == Confirmed || status == DeadLetter
  }

  lemma SubsetSize(a: set<RowId>, b: set<RowId>)
    requires a <= b
    ensures |a| <= |b|
  {
    assert b == a + (b - a);
  }

  // ---- Writes stamp the rows they change ----

  predicate Timed(step: Step) {
    || step.InsertRow? || step.Begin? || step.ConfirmConsumed? || step.ReserveCommit? || step.RecordSubmitted?
    || step.HandleFailure? || step.BuryRow? || step.CronResubmit? || step.CronConfirm? || step.CronRefresh?
    || step.CronBury?
  }

  function Changed(rows: map<RowId, Row>, rows': map<RowId, Row>): set<RowId> {
    set id | id in rows' && (id !in rows || rows'[id] != rows[id])
  }

  lemma WorkerStamps(s: State, step: Step, id: RowId)
    requires Enabled(s, step) && WorkerStep(step) && id in Changed(s.rows, Apply(s, step).rows)
    ensures Timed(step) && Apply(s, step).rows[id].updatedAt == step.now
  {
  }

  lemma CronStamps(s: State, step: Step, id: RowId)
    requires Enabled(s, step) && !WorkerStep(step) && id in Changed(s.rows, Apply(s, step).rows)
    ensures Timed(step) && Apply(s, step).rows[id].updatedAt == step.now
  {
  }

  /** Rows nobody wrote are as they were; a row written since the pass began is no longer stale. */
  ghost predicate Consistent(
    initial: map<RowId, Row>, rows: map<RowId, Row>, moved: set<RowId>, done: set<RowId>, cutoff: int)
  {
    && initial.Keys <= rows.Keys
    && (forall id | id in rows :: id in moved || id in done || (id in initial && rows[id] == initial[id]))
    && (forall id | id in rows && (id in moved || id in done) && !Terminal(rows[id]) :: rows[id].updatedAt >= cutoff)
  }

  lemma StepConsistent(
    s: State, step: Step, s': State, initial: map<RowId, Row>, moved: set<RowId>, done: set<RowId>, moved': set<RowId>,
    done': set<RowId>, cutoff: int)
    requires Enabled(s, step) && s' == Apply(s, step) && Consistent(initial, s.rows, moved, done, cutoff) && (Timed(step) ==> step.now >= cutoff)
    requires moved <= moved' && done <= done' && moved' + done' == moved + done + Changed(s.rows, s'.rows)
    ensures Consistent(initial, s'.rows, moved', done', cutoff)
  {
    var rows' := s'.rows;
    StepAdvances(s, step);
    forall id | id in Changed(s.rows, rows')
      ensures rows'[id].updatedAt >= cutoff
    {
      if WorkerStep(step) {
        WorkerStamps(s, step, id);
      } else {
        CronStamps(s, step, id);
      }
    }
    ChangedConsistent(initial, s.rows, rows', moved, done, moved', done', cutoff);
  }

  lemma ChangedConsistent(
    initial: map<RowId, Row>, rows: map<RowId, Row>, rows': map<RowId, Row>, moved: set<RowId>, done: set<RowId>,
    moved': set<RowId>, done': set<RowId>, cutoff: int)
    requires Consistent(initial, rows, moved, done, cutoff) && rows.Keys <= rows'.Keys
    requires moved' + done' == moved + done + Changed(rows, rows')
    requires forall id | id in Changed(rows, rows') :: rows'[id].updatedAt >= cutoff
    ensures Consistent(initial, rows', moved', done', cutoff)
  {
    forall id | id in rows'
      ensures id in moved' || id in done' || (id in initial && rows'[id] == initial[id])
      ensures (id in moved' || id in done') && !Terminal(rows'[id]) ==> rows'[id].updatedAt >= cutoff
    {
      assert id in moved' + done' <==> id in moved + done + Changed(rows, rows');
    }
  }

  lemma StepKeeps(s: State, step: Step)
    requires Enabled(s, step)
    ensures var s' := Apply(s, step);
      && s.chain.mined.Keys <= s'.chain.mined.Keys
      && forall id | id in s.rows && Terminal(s.rows[id]) :: id in s'.rows && Terminal(s'.rows[id])
  {
    StepAdvances(s, step);
  }

  /** Writes restamp a row, so no row becomes stale during the pass. */
  lemma StaleShrinks(
    initial: map<RowId, Row>, rows: map<RowId, Row>, moved: set<RowId>, done: set<RowId>, cutoff: int, status: Status,
    locked: set<RowId>)
    requires Consistent(initial, rows, moved, done, cutoff) && !EndStatus(status)
    ensures forall id | id in StaleRows(rows, status, cutoff) ::
      id in StaleRows(initial, status, cutoff) && id !in moved && id !in done
    ensures forall id | id in StaleRows(initial, status, cutoff) && id !in moved && id !in done ::
      id in StaleRows(rows, status, cutoff)
    ensures |StaleRows(rows, status, cutoff) - locked| <= |StaleRows(initial, status, cutoff)|
  {
    SubsetSize(StaleRows(rows, status, cutoff) - locked, StaleRows(initial, status, cutoff));
  }

  // ---- What a pass has done so far ----

  /** A submitted row whose transaction the node still knows, shows no receipt of, and that is not clearly stuck. */
  predicate StillInFlight(r: Row, first: Chain, answers: Answers, start: int, timeout: nat) {
    && r.status == Submitted && r.hash.Some?
    && ReadReceipt(answers, first, r.hash.value) == None && answers.known(r.hash.value)
    && start - r.updatedAt <= 2 * timeout
  }

  ghost predicate AllInFlight(
    initial: map<RowId, Row>, waiting: set<RowId>, first: Chain, answers: Answers, start: int, timeout: nat)
  {
    forall id | id in waiting :: id in initial && StillInFlight(initial[id], first, answers, start, timeout)
  }

  /** `skipped` are rows locked by another transaction when their status was selected. */
  datatype View = View(
    rows: map<RowId, Row>, published: seq<Published>, moved: set<RowId>, skipped: set<(Status, RowId)>,
    waiting: set<RowId>)

  ghost predicate PublishedIn(published: seq<Published>, id: RowId) {
    exists p :: p in published && p.id == id
  }

  /** Published again, moved by somebody else, or locked when selected. */
  ghost predicate ResentIn(v: View, status: Status, id: RowId) {
    PublishedIn(v.published, id) || id in v.moved || (status, id) in v.skipped
  }

  /** The outcomes the pass may leave a stale row of a status with. */
  ghost predicate HandledIn(v: View, status: Status, id: RowId) {
    || ResentIn(v, status, id) || (status == Submitted && id in v.waiting)
    || (id in v.rows && Terminal(v.rows[id]))
  }

  ghost predicate Progressed(a: View, b: View) {
    && a.moved <= b.moved && a.skipped <= b.skipped && a.waiting <= b.waiting && a.published <= b.published
    && (forall id | id in a.rows && Terminal(a.rows[id]) :: id in b.rows && Terminal(b.rows[id]))
  }

  lemma ResentStays(a: View, b: View, status: Status, id: RowId)
    requires Progressed(a, b) && ResentIn(a, status, id)
    ensures ResentIn(b, status, id)
  {
    if PublishedIn(a.published, id) {
      var p :| p in a.published && p.id == id;
      assert p in b.published;
    }
  }

  ghost predicate AllResent(v: View, status: Status, ids: set<RowId>) {
    forall id | id in ids :: ResentIn(v, status, id)
  }

  ghost predicate AllHandled(v: View, status: Status, ids: set<RowId>) {
    forall id | id in ids :: HandledIn(v, status, id)
  }

  lemma AllResentStay(a: View, b: View, status: Status, ids: set<RowId>)
    requires Progressed(a, b) && AllResent(a, status, ids)
    ensures AllResent(b, status, ids)
  {
    forall id | id in ids
      ensures ResentIn(b, status, id)
    {
      ResentStays(a, b, status, id);
    }
  }

  lemma AllHandledStay(a: View, b: View, status: Status, ids: set<RowId>)
    requires Progressed(a, b) && AllHandled(a, status, ids)
    ensures AllHandled(b, status, ids)
  {
    forall id | id in ids
      ensures HandledIn(b, status, id)
    {
      if ResentIn(a, status, id) {
        ResentStays(a, b, status, id);
      }
    }
  }

  /** A batch is handled when its selected rows are, and the rest were moved or locked. */
  lemma BatchResent(v: View, status: Status, stale: set<RowId>, recs: seq<RowId>, acted: set<RowId>)
    requires AllResent(v, status, acted) && forall j | 0 <= j < |recs| :: recs[j] in acted
    requires forall id | id in stale :: id in recs || id in v.moved || (status, id) in v.skipped
    ensures AllResent(v, status, stale)
  {
  }

  lemma BatchHandled(v: View, status: Status, stale: set<RowId>, recs: seq<RowId>, acted: set<RowId>)
    requires AllHandled(v, status, acted) && forall j | 0 <= j < |recs| :: recs[j] in acted
    requires forall id | id in stale :: id in recs || id in v.moved || (status, id) in v.skipped
    ensures AllHandled(v, status, stale)
  {
  }

  /** The messages added name no nonce, rows of this status only, and no row twice. */
  ghost predicate OncePlain(before: seq<Published>, after: seq<Published>, initial: map<RowId, Row>, status: Status) {
    && before <= after
    && (forall j | |before| <= j < |after| ::
          after[j].replace == None && after[j].id in initial && initial[after[j].id].status == status)
    && (forall i, j | |before| <= i < j < |after| :: after[i].id != after[j].id)
  }

  lemma RepublishedOnce(before: seq<Published>, after: seq<Published>, recs: seq<RowId>, initial: map<RowId, Row>, status: Status)
    requires before <= after && |after| == |before| + |recs|
    requires forall i | 0 <= i < |recs| :: after[|before| + i] == Published(recs[i], None)
    requires forall i | 0 <= i < |recs| :: recs[i] in initial && initial[recs[i]].status == status
    requires forall i, j | 0 <= i < j < |recs| :: recs[i] != recs[j]
    ensures OncePlain(before, after, initial, status)
  {
    assert forall j | |before| <= j < |after| :: after[j] == Published(recs[j - |before|], None);
  }

  lemma FourHandled(a: View, b: View, initial: map<RowId, Row>, cutoff: int)
    requires Progressed(a, b)
    requires AllResent(a, Pending, StaleRows(initial, Pending, cutoff)) && AllResent(a, Failed, StaleRows(initial, Failed, cutoff))
    requires AllHandled(b, Submitting, StaleRows(initial, Submitting, cutoff))
    requires AllHandled(b, Submitted, StaleRows(initial, Submitted, cutoff))
    ensures forall id | id in initial && !Terminal(initial[id]) && initial[id].updatedAt < cutoff ::
      HandledIn(b, initial[id].status, id)
    ensures forall id | id in initial && (initial[id].status == Pending || initial[id].status == Failed) && initial[id].updatedAt < cutoff ::
      ResentIn(b, initial[id].status, id)
  {
    AllResentStay(a, b, Pending, StaleRows(initial, Pending, cutoff));
    AllResentStay(a, b, Failed, StaleRows(initial, Failed, cutoff));
    assert forall id | id in initial && !Terminal(initial[id]) && initial[id].updatedAt < cutoff ::
      id in StaleRows(initial, initial[id].status, cutoff);
  }

  ghost predicate IsRun(states: seq<State>, steps: seq<Step>, state: State) {
    Run(states, steps) && states[|steps|] == state
  }

  ghost predicate Grown(first: Chain, chain: Chain) {
    first.mined.Keys <= chain.mined.Keys
  }

  lemma StepGrown(s: State, step: Step, first: Chain)
    requires Enabled(s, step) && Grown(first, s.chain)
    ensures Grown(first, Apply(s, step).chain)
  {
    StepKeeps(s, step);
  }

  lemma StepProgressed(s: State, step: Step, before: View)
    requires Enabled(s, step) && before.rows == s.rows
    ensures Progressed(before, before.(rows := Apply(s, step).rows))
  {
    StepKeeps(s, step);
  }

  lemma RunContinues(states: seq<State>, steps: seq<Step>, state: State, step: Step)
    requires IsRun(states, steps, state) && Enabled(state, step)
    ensures IsRun(states + [Apply(state, step)], steps + [step], Apply(state, step))
  {
    RunExtends(states, steps, step);
  }

  method TakeStep(ghost states: seq<State>, ghost steps: seq<Step>, state: State, step: Step, ghost first: Chain, ghost before: View)
    returns (next: State)
    requires IsRun(states, steps, state) && Enabled(state, step) && Grown(first, state.chain) && before.rows == state.rows
    ensures next == Apply(state, step) && IsRun(states + [next], steps + [step], next) && Grown(first, next.chain)
    ensures Progressed(before, before.(rows := next.rows))
  {
    next := Apply(state, step);
    RunContinues(states, steps, state, step);
    StepGrown(state, step, first);
    StepProgressed(state, step, before);
  }

  // ---- The pass ----

  function Tagged(status: Status, ids: set<RowId>): set<(Status, RowId)> {
    set id | id in ids :: (status, id)
  }

  lemma SkippedLocked(skipped: set<(Status, RowId)>, locked: Status -> set<RowId>)
    requires skipped == {} + Tagged(Pending, locked(Pending)) + Tagged(Failed, locked(Failed))
                        + Tagged(Submitting, locked(Submitting)) + Tagged(Submitted, locked(Submitted))
    ensures forall status, id | (status, id) in skipped :: id in locked(status)
  {
  }

  function Prefix(recs: seq<RowId>, n: nat): set<RowId>
    requires n <= |recs|
  {
    set i | 0 <= i < n :: recs[i]
  }

  lemma PrefixGrows(recs: seq<RowId>, n: nat)
    requires n < |recs| && forall i, j | 0 <= i < j < |recs| :: recs[i] != recs[j]
    ensures recs[n] !in Prefix(recs, n) && Prefix(recs, n + 1) == Prefix(recs, n) + {recs[n]}
  {
  }

  class Pass {
    var state: State
    ghost var states: seq<State>
    ghost var steps: seq<Step>
    var published: seq<Published>
    ghost const initial: map<RowId, Row>         // the rows when the pass began
    ghost const first: Chain                     // the chains when the pass began
    ghost var moved: set<RowId>                  // rows somebody else has written since
    ghost var done: set<RowId>                   // rows this pass has written
    ghost var skipped: set<(Status, RowId)>      // rows locked when their status was selected
    ghost var waiting: set<RowId>                // submitted rows left alone
    const answers: Answers
    const start: int
    const timeout: nat

    constructor (state: State, ghost states: seq<State>, ghost steps: seq<Step>, answers: Answers, start: int, timeout: nat)
      requires Run(states, steps) && states[|steps|] == state
      ensures Valid() && this.state == state && this.states == states && this.steps == steps && published == []
      ensures initial == state.rows && first == state.chain
      ensures this.answers == answers && this.start == start && this.timeout == timeout
      ensures moved == {} && skipped == {} && waiting == {} && done == {}
    {
      this.state, this.states, this.steps, this.published := state, states, steps, [];
      this.initial, this.first := state.rows, state.chain;
      this.answers, this.start, this.timeout := answers, start, timeout;
      moved, skipped, waiting, done := {}, {}, {}, {};
    }

    function Cutoff(): int {
      start - timeout
    }

    ghost function Look(): View
      reads this
    {
      View(state.rows, published, moved, skipped, waiting)
    }

    ghost predicate Handled(id: RowId)
      requires id in initial
      reads this
    {
      HandledIn(Look(), initial[id].status, id)
    }

    ghost predicate Valid()
      reads this
    {
      && IsRun(states, steps, state) && Grown(first, state.chain)
      && Consistent(initial, state.rows, moved, done, Cutoff())
      && AllInFlight(initial, waiting, first, answers, start, timeout)
    }

    twostate predicate Progress()
      reads this
    {
      Progressed(old(Look()), Look()) && old(done) <= done && old(steps) <= steps
    }

    /** One step of the protocol, by the cron or by somebody else. */
    method Do(step: Step, own: bool)
      requires Valid() && Enabled(state, step) && (Timed(step) ==> step.now >= Cutoff())
      modifies this`state, this`states, this`steps, this`moved, this`done
      ensures Valid() && Progress() && state == Apply(old(state), step) && steps == old(steps) + [step]
      ensures moved == old(moved) + (if own then {} else Changed(old(state).rows, state.rows))
      ensures done == old(done) + (if own then Changed(old(state).rows, state.rows) else {})
    {
      var next := TakeStep(states, steps, state, step, first, Look());
      ghost var changed := Changed(state.rows, next.rows);
      ghost var moved' := moved + if own then {} else changed;
      ghost var done' := done + if own then changed else {};
      StepConsistent(state, step, next, initial, moved, done, moved', done', Cutoff());
      Record(next, step, moved', done');
    }

    method Record(next: State, ghost step: Step, ghost moved': set<RowId>, ghost done': set<RowId>)
      requires IsRun(states + [next], steps + [step], next) && Grown(first, next.chain)
      requires Consistent(initial, next.rows, moved', done', Cutoff())
      requires AllInFlight(initial, waiting, first, answers, start, timeout)
      requires Progressed(Look(), Look().(rows := next.rows, moved := moved')) && done <= done'
      modifies this`state, this`states, this`steps, this`moved, this`done
      ensures Valid() && Progress() && state == next && steps == old(steps) + [step] && moved == moved' && done == done'
    {
      state, states, steps := next, states + [next], steps + [step];
      moved, done := moved', done';
    }

    /** A write of the cron itself: at most the target row changes. */
    method Write(step: Step, id: RowId)
      requires Valid() && Enabled(state, step) && CronStep(step) && WritesRow(step) && id == TargetRow(state, step)
      requires step.now >= Cutoff()
      modifies this`state, this`states, this`steps, this`moved, this`done
      ensures Valid() && Progress() && state == Apply(old(state), step) && steps == old(steps) + [step]
      ensures moved == old(moved) && done <= old(done) + {id} && id in state.rows
    {
      WriteChangesOneRow(state, step);
      Do(step, true);
    }

    method CountRetry(id: RowId, now: int)
      requires Valid() && state.cron.at == Scanning && id in state.cron.snaps && id in state.rows && now >= Cutoff()
      modifies this`state, this`states, this`steps, this`moved, this`done
      ensures Valid() && Progress() && state == ApplyCronResubmit(old(state), id, now)
      ensures moved == old(moved) && done <= old(done) + {id} && id in state.rows
    {
      Write(CronResubmit(id, now), id);
    }

    method Fail(id: RowId, now: int)
      requires Valid() && state.cron.at.Refreshing? && state.cron.at.id == id && id in state.rows && now >= Cutoff()
      modifies this`state, this`states, this`steps, this`moved, this`done
      ensures Valid() && Progress() && state == ApplyCronRefresh(old(state), id, old(state).cron.at.rec, now)
      ensures moved == old(moved) && done <= old(done) + {id} && id in state.rows
    {
      Write(CronRefresh(now), id);
    }

    method Confirm(id: RowId, now: int)
      requires Valid() && state.cron.at == Confirming(id) && id in state.rows && now >= Cutoff()
      modifies this`state, this`states, this`steps, this`moved, this`done
      ensures Valid() && Progress() && moved == old(moved) && done <= old(done) + {id}
      ensures id in state.rows && Terminal(state.rows[id]) && Finalized(old(state).rows[id], state.rows[id], Confirmed)
      ensures state.cron == old(state).cron.(at := Scanning)
    {
      Write(CronConfirm(now), id);
    }

    method Bury(id: RowId, now: int)
      requires Valid() && state.cron.at == Burying(id) && id in state.rows && now >= Cutoff()
      modifies this`state, this`states, this`steps, this`moved, this`done
      ensures Valid() && Progress() && moved == old(moved) && done <= old(done) + {id}
      ensures id in state.rows && Terminal(state.rows[id]) && Finalized(old(state).rows[id], state.rows[id], DeadLetter)
      ensures state.cron == old(state).cron.(at := Scanning)
    {
      Write(CronBury(now), id);
    }

    /** Look the receipt up: nothing is written yet. */
    method Classify(id: RowId)
      requires Valid() && state.cron.at == Scanning && id in state.cron.snaps && id in state.rows
      requires state.cron.snaps[id].status == Submitted && state.cron.snaps[id].hash.Some?
      requires state.cron.snaps[id].hash.value in state.chain.mined
      modifies this`state, this`states, this`steps, this`moved, this`done
      ensures Valid() && Progress() && moved == old(moved) && done == old(done)
      ensures state == ApplyCronReceipt(old(state), id)
    {
      Do(CronReceipt(id), true);
      assert Changed(state.rows, state.rows) == {};
    }

    /** Workers, listeners and the chains act; their writes stamp rows with the current time. */
    method Others(schedule: seq<Step>)
      requires Valid()
      modifies this`state, this`states, this`steps, this`moved, this`done
      ensures Valid() && Progress() && done == old(done) && state.cron == old(state).cron
      ensures forall id | id in old(state).rows :: id in state.rows && (id in moved || state.rows[id] == old(state).rows[id])
    {
      for i := 0 to |schedule|
        invariant Valid() && Progress() && done == old(done) && state.cron == old(state).cron
        invariant forall id | id in old(state).rows :: id in state.rows && (id in moved || state.rows[id] == old(state).rows[id])
      {
        var step := schedule[i];
        if Enabled(state, step) && !CronStep(step) && (Timed(step) ==> step.now >= Cutoff()) {
          OthersKeepCron(state, step);
          StepAdvances(state, step);
          Do(step, false);
        }
      }
    }

    /** SELECT ... WHERE status AND updated_at < cutoff ORDER BY ... LIMIT ... FOR UPDATE SKIP LOCKED. */
    method SelectStale(status: Status, limit: nat, locked: set<RowId>) returns (recs: seq<RowId>)
      ensures forall i | 0 <= i < |recs| :: recs[i] in StaleRows(state.rows, status, Cutoff()) - locked
      ensures forall i | 0 <= i < |recs| ::
        recs[i] in state.rows && state.rows[recs[i]].status == status && state.rows[recs[i]].updatedAt < start - timeout && recs[i] !in locked
      ensures forall i, j | 0 <= i < j < |recs| :: recs[i] != recs[j] && Before(state.rows, recs[i], recs[j])
      ensures forall i, j | 0 <= i < j < |recs| :: state.rows[recs[i]].updatedAt <= state.rows[recs[j]].updatedAt
      ensures |recs| < limit ==>
        forall id | id in state.rows && state.rows[id].status == status && state.rows[id].updatedAt < start - timeout :: id in recs || id in locked
      ensures |recs| <= limit
      ensures |StaleRows(state.rows, status, Cutoff()) - locked| <= limit ==>
        forall id | id in StaleRows(state.rows, status, Cutoff()) - locked :: id in recs
      ensures forall id, i | id in StaleRows(state.rows, status, Cutoff()) - locked && id !in recs && 0 <= i < |recs| ::
        Before(state.rows, recs[i], id)
    {
      var all := StaleRows(state.rows, status, Cutoff()) - locked;
      recs := OldestFirst(state.rows, all, limit);
    }

    /** A batch: every stale row of one status that nobody has locked or moved. */
    method SelectBatch(status: Status, locked: set<RowId>) returns (recs: seq<RowId>)
      requires Valid() && !EndStatus(status) && |StaleRows(initial, status, Cutoff())| <= BATCH
      modifies this`skipped
      ensures Valid() && Progress() && skipped == old(skipped) + Tagged(status, locked)
      ensures forall i | 0 <= i < |recs| ::
        recs[i] in initial && recs[i] in state.rows && state.rows[recs[i]] == initial[recs[i]] && initial[recs[i]].status == status
      ensures forall i, j | 0 <= i < j < |recs| :: recs[i] != recs[j]
      ensures forall id | id in StaleRows(initial, status, Cutoff()) && id !in done ::
        id in recs || id in moved || (status, id) in skipped
    {
      StaleShrinks(initial, state.rows, moved, done, Cutoff(), status, locked);
      recs := SelectStale(status, BATCH, locked);
      skipped := skipped + Tagged(status, locked);
    }

    method Publish(id: RowId, replace: Option<nat>)
      requires Valid()
      modifies this`published
      ensures Valid() && Progress() && published == old(published) + [Published(id, replace)] && PublishedIn(published, id)
    {
      published := published + [Published(id, replace)];
      assert published[|published| - 1].id == id;
    }

    /** Bury a row: whatever others did meanwhile, it is terminal afterwards. */
    method BuryRow(id: RowId, k: nat, schedule: seq<Step>)
      requires Valid() && id in state.rows && answers.clock(k) >= start && state.cron.at == Burying(id)
      modifies this`state, this`states, this`steps, this`moved, this`done
      ensures Valid() && Progress() && id in state.rows && Terminal(state.rows[id]) && done <= old(done) + {id}
      ensures state.cron == old(state).cron.(at := Scanning)
      ensures id !in moved ==> Finalized(old(state).rows[id], state.rows[id], DeadLetter)
    {
      Others(schedule);
      Bury(id, answers.clock(k));
    }

    /** Others act once more, and the message goes out. */
    method PublishAfter(id: RowId, replace: Option<nat>, schedule: seq<Step>)
      requires Valid()
      modifies this`state, this`states, this`steps, this`moved, this`done, this`published
      ensures Valid() && Progress() && done == old(done) && state.cron == old(state).cron
      ensures published == old(published) + [Published(id, replace)] && PublishedIn(published, id)
      ensures forall j | j in old(state).rows :: j in state.rows && (j in moved || state.rows[j] == old(state).rows[j])
    {
      Others(schedule);
      Publish(id, replace);
    }

    method BuryOrPublish(id: RowId, exhausted: bool, replace: Option<nat>, k: nat, schedule: seq<Step>)
      requires Valid() && id in state.rows && answers.clock(k) >= start
      requires state.cron.at == if exhausted then Burying(id) else Scanning
      modifies this`state, this`states, this`steps, this`moved, this`done, this`published
      ensures Valid() && Progress() && done <= old(done) + {id} && state.cron == old(state).cron.(at := Scanning)
      ensures published == old(published) + if exhausted then [] else [Published(id, replace)]
      ensures if exhausted then id in state.rows && Terminal(state.rows[id]) else PublishedIn(published, id)
      ensures id in state.rows && (id !in moved ==> if exhausted then Finalized(old(state).rows[id], state.rows[id], DeadLetter) else state.rows[id] == old(state).rows[id])
    {
      if exhausted {
        BuryRow(id, k, schedule);
      } else {
        PublishAfter(id, replace, schedule);
      }
    }

    /** Mark failed and republish for a fresh nonce, or bury. */
    method RetryFresh(id: RowId, k: nat, others: nat -> seq<Step>)
      requires Valid() && id in state.rows && answers.clock(k) >= start
      requires state.cron.at.Refreshing? && state.cron.at.id == id
      modifies this`state, this`states, this`steps, this`moved, this`done, this`published
      ensures Valid() && Progress() && done <= old(done) + {id} && state.cron == old(state).cron.(at := Scanning)
      ensures published == old(published) + if FreshLeft(old(state).rows[id]) then [Published(id, None)] else []
      ensures PublishedIn(published, id) || (id in state.rows && Terminal(state.rows[id]))
      ensures id in state.rows && (id !in moved ==> AfterFresh(old(state).rows[id], state.rows[id]))
    {
      var updated := MarkFailed(state.rows[id], answers.clock(k));
      Fail(id, answers.clock(k));
      BuryOrPublish(id, Exhausted(updated), None, k, others(2));
    }

    /** Rebroadcast the committed nonce; without one, fall back to a fresh send. */
    method Resubmit(id: RowId, rec: Row, k: nat, others: nat -> seq<Step>)
      requires Valid() && id in state.rows && answers.clock(k) >= start
      requires state.cron.at == Scanning && id in state.cron.snaps && state.cron.snaps[id] == rec
      requires (rec.status == Submitting || rec.status == Submitted) && (state.rows[id] == rec || id in moved)
      modifies this`state, this`states, this`steps, this`moved, this`done, this`published
      ensures Valid() && Progress() && done <= old(done) + {id}
      ensures state.cron == Cron(old(state).cron.snaps - {id}, Scanning)
      ensures PublishedIn(published, id) || id in moved || (id in state.rows && Terminal(state.rows[id]))
      ensures rec.nonce.Some? && rec.wallet.Some? ==>
        && published == old(published) + (if ReplaceLeft(old(state).rows[id]) then [Published(id, rec.nonce)] else [])
        && id in state.rows && (id !in moved ==> AfterReplace(old(state).rows[id], state.rows[id]))
    {
      var updated := IncrementRetry(state.rows[id], answers.clock(k));
      CountRetry(id, answers.clock(k));
      if rec.nonce.None? || rec.wallet.None? {
        Others(others(3));
        RetryFresh(id, k, others);
      } else if updated.Some? {
        BuryOrPublish(id, Exhausted(updated), rec.nonce, k, others(2));
      }
    }

    /** The cron's snapshots are never without wallet and nonce. */
    lemma SnapHasPair(id: RowId, rec: Row)
      requires Valid() && id in state.cron.snaps && state.cron.snaps[id] == rec
      ensures rec.wallet.Some? && rec.nonce.Some? && (rec.status == Submitted ==> rec.hash.Some?)
    {
      ShapesHold(states, steps, |steps|);
    }

    /** A receipt was found; others act, and the row is confirmed, retried with a fresh nonce, or given up. */
    method Settle(id: RowId, rec: Row, receipt: Receipt, k: nat, others: nat -> seq<Step>)
      requires Valid() && id in state.rows && answers.clock(k) >= start
      requires state.cron.at == Scanning && id in state.cron.snaps && state.cron.snaps[id] == rec
      requires rec.status == Submitted && rec.hash.Some?
      requires rec.hash.value in state.chain.mined && state.chain.mined[rec.hash.value] == receipt
      modifies this`state, this`states, this`steps, this`moved, this`done, this`published
      ensures Valid() && Progress() && done <= old(done) + {id}
      ensures state.cron == Cron(old(state).cron.snaps - {id}, Scanning)
      ensures PublishedIn(published, id) || (id in state.rows && Terminal(state.rows[id]))
      ensures id in state.rows && (receipt.success || LeftGas(receipt) ==> published == old(published) && Terminal(state.rows[id]))
      ensures id !in moved ==> Reconciled(old(state).rows[id], state.rows[id], receipt)
      ensures id !in moved && !receipt.success && !LeftGas(receipt) ==>
        published == old(published) + if FreshLeft(old(state).rows[id]) then [Published(id, None)] else []
    {
      Classify(id);
      Others(others(1));
      Conclude(id, receipt, k, others);
    }

    /** The write that the receipt calls for. */
    method Conclude(id: RowId, receipt: Receipt, k: nat, others: nat -> seq<Step>)
      requires Valid() && id in state.rows && answers.clock(k) >= start
      requires if receipt.success then state.cron.at == Confirming(id)
        else if LikelyOutOfGas(receipt) then state.cron.at.Refreshing? && state.cron.at.id == id
        else state.cron.at == Burying(id)
      modifies this`state, this`states, this`steps, this`moved, this`done, this`published
      ensures Valid() && Progress() && done <= old(done) + {id} && state.cron == old(state).cron.(at := Scanning)
      ensures PublishedIn(published, id) || (id in state.rows && Terminal(state.rows[id]))
      ensures id in state.rows && (receipt.success || LeftGas(receipt) ==> published == old(published) && Terminal(state.rows[id]))
      ensures id !in moved ==> Reconciled(old(state).rows[id], state.rows[id], receipt)
      ensures !receipt.success && !LeftGas(receipt) ==>
        published == old(published) + if FreshLeft(old(state).rows[id]) then [Published(id, None)] else []
    {
      if receipt.success {
        Confirm(id, answers.clock(k));
      } else if LikelyOutOfGas(receipt) {
        RetryFresh(id, k, others);
      } else {
        BuryRow(id, k, others(2));
      }
    }

    /** No receipt was found; others act, and a dropped or clearly stuck transaction is resubmitted. */
    method Chase(id: RowId, rec: Row, k: nat, others: nat -> seq<Step>)
      requires Valid() && id in state.rows && answers.clock(k) >= start
      requires state.cron.at == Scanning && id in state.cron.snaps && state.cron.snaps[id] == rec
      requires rec.status == Submitted && rec.hash.Some? && ReadReceipt(answers, state.chain, rec.hash.value) == None
      requires rec.nonce.Some? && rec.wallet.Some?
      requires id in initial && initial[id] == rec && (state.rows[id] == rec || id in moved)
      modifies this`state, this`states, this`steps, this`moved, this`done, this`published, this`waiting
      ensures Valid() && Progress() && Handled(id) && done <= old(done) + {id}
      ensures state.cron.at == Scanning && state.cron.snaps - {id} == old(state).cron.snaps - {id}
      ensures if !answers.known(rec.hash.value) || answers.clock(k) - rec.updatedAt > 2 * timeout then
          && waiting == old(waiting)
          && (id !in moved ==>
                published == old(published) + if ReplaceLeft(old(state).rows[id]) then [Published(id, rec.nonce)] else [])
        else waiting == old(waiting) + {id} && published == old(published) && done == old(done)
    {
      if !answers.known(rec.hash.value) || answers.clock(k) - rec.updatedAt > 2 * timeout {
        ResubmitLater(id, rec, k, others);
      } else {
        waiting := waiting + {id};
        Others(others(1));
      }
    }

    method ResubmitLater(id: RowId, rec: Row, k: nat, others: nat -> seq<Step>)
      requires Valid() && id in state.rows && answers.clock(k) >= start
      requires state.cron.at == Scanning && id in state.cron.snaps && state.cron.snaps[id] == rec
      requires rec.status == Submitted && rec.nonce.Some? && rec.wallet.Some? && (state.rows[id] == rec || id in moved)
      modifies this`state, this`states, this`steps, this`moved, this`done, this`published
      ensures Valid() && Progress() && done <= old(done) + {id}
      ensures state.cron == Cron(old(state).cron.snaps - {id}, Scanning)
      ensures PublishedIn(published, id) || id in moved || (id in state.rows && Terminal(state.rows[id]))
      ensures id !in moved ==>
        published == old(published) + if ReplaceLeft(old(state).rows[id]) then [Published(id, rec.nonce)] else []
    {
      Others(others(1));
      Resubmit(id, rec, k, others);
    }

    /** Reconcile one submitted row against its receipt. A submitted snapshot without a hash never occurs. */
    method Reconcile(id: RowId, rec: Row, k: nat, others: nat -> seq<Step>)
      requires Valid() && id in state.rows && answers.clock(k) >= start
      requires state.cron.at == Scanning && id in state.cron.snaps && state.cron.snaps[id] == rec
      requires rec.status == Submitted && id in initial && initial[id] == rec && (state.rows[id] == rec || id in moved)
      modifies this`state, this`states, this`steps, this`moved, this`done, this`published, this`waiting
      ensures Valid() && Progress() && Handled(id) && done <= old(done) + {id}
      ensures state.cron.at == Scanning && state.cron.snaps - {id} == old(state).cron.snaps - {id}
      ensures rec.hash.Some?
      ensures match ReadReceipt(answers, old(state).chain, rec.hash.value)
        case None =>
          if !answers.known(rec.hash.value) || answers.clock(k) - rec.updatedAt > 2 * timeout then
            && waiting == old(waiting)
            && (id !in moved ==>
                  published == old(published) + if ReplaceLeft(old(state).rows[id]) then [Published(id, rec.nonce)] else [])
          else waiting == old(waiting) + {id} && published == old(published) && done == old(done)
        case Some(receipt) =>
          && waiting == old(waiting)
          && id in state.rows && (id !in moved ==> Reconciled(old(state).rows[id], state.rows[id], receipt))
          && if receipt.success || LeftGas(receipt) then published == old(published) && Terminal(state.rows[id])
             else id !in moved ==> published == old(published) + if FreshLeft(old(state).rows[id]) then [Published(id, None)] else []
    {
      SnapHasPair(id, rec);
      match ReadReceipt(answers, state.chain, rec.hash.value) {
        case None => Chase(id, rec, k, others);
        case Some(receipt) => Settle(id, rec, receipt, k, others);
      }
    }

    // ---- The batches ----

    /** Republish the rows whose queue message may have been lost. */
    method RepublishLost(status: Status, locked: set<RowId>, others: nat -> seq<Step>)
      requires Valid() && (status == Pending || status == Failed)
      requires |StaleRows(initial, status, Cutoff())| <= BATCH && done == {}
      modifies this`state, this`states, this`steps, this`moved, this`done, this`skipped, this`published
      ensures Valid() && Progress() && skipped == old(skipped) + Tagged(status, locked) && done == {}
      ensures state.cron == old(state).cron
      ensures AllResent(Look(), status, StaleRows(initial, status, Cutoff()))
      ensures OncePlain(old(published), published, initial, status)
    {
      var recs := SelectBatch(status, locked);
      var snaps := state.rows;
      ShapesHold(states, steps, |steps|);
      ghost var sent := RepublishAll(recs, snaps, status, others);
      BatchResent(Look(), status, StaleRows(initial, status, Cutoff()), recs, sent);
      RepublishedOnce(old(published), published, recs, initial, status);
    }

    method RepublishAll(recs: seq<RowId>, snaps: map<RowId, Row>, status: Status, others: nat -> seq<Step>)
      returns (ghost sent: set<RowId>)
      requires Valid() && forall i | 0 <= i < |recs| :: recs[i] in snaps && (status == Pending ==> snaps[recs[i]].hash.None?)
      modifies this`state, this`states, this`steps, this`moved, this`done, this`published
      ensures Valid() && Progress() && done == old(done) && state.cron == old(state).cron
      ensures AllResent(Look(), status, sent) && forall j | 0 <= j < |recs| :: recs[j] in sent
      ensures |published| == |old(published)| + |recs|
      ensures forall i | 0 <= i < |recs| :: published[|old(published)| + i] == Published(recs[i], None)
    {
      sent := {};
      for i := 0 to |recs|
        invariant Valid() && Progress() && done == old(done) && state.cron == old(state).cron
        invariant AllResent(Look(), status, sent) && forall j | 0 <= j < i :: recs[j] in sent
        invariant |published| == |old(published)| + i
        invariant forall j | 0 <= j < i :: published[|old(published)| + j] == Published(recs[j], None)
      {
        RepublishNext(recs[i], status == Pending && snaps[recs[i]].hash.Some?, others(i), status, sent);
        sent := sent + {recs[i]};
      }
    }

    /** A pending row with a relay hash would be mid-transition elsewhere: it would be left alone. */
    method RepublishNext(id: RowId, leave: bool, schedule: seq<Step>, ghost status: Status, ghost sent: set<RowId>)
      requires Valid() && !leave && AllResent(Look(), status, sent)
      modifies this`state, this`states, this`steps, this`moved, this`done, this`published
      ensures Valid() && Progress() && done == old(done) && state.cron == old(state).cron
      ensures AllResent(Look(), status, sent + {id}) && published == old(published) + [Published(id, None)]
    {
      ghost var before := Look();
      Others(schedule);
      if !leave {
        Publish(id, None);
      }
      AllResentStay(before, Look(), status, sent);
    }

    /** One row of the `submitting` or `submitted` batch, after others had their turn. */
    method ActOn(id: RowId, rec: Row, k: nat, others: nat -> seq<Step>)
      requires Valid() && id in initial && initial[id] == rec && id !in done && answers.clock(k) >= start
      requires rec.status == Submitting || rec.status == Submitted
      requires state.cron.at == Scanning && id in state.cron.snaps && state.cron.snaps[id] == rec
      modifies this`state, this`states, this`steps, this`moved, this`done, this`published, this`waiting
      ensures Valid() && Progress() && Handled(id) && done <= old(done) + {id}
      ensures state.cron.at == Scanning && state.cron.snaps - {id} == old(state).cron.snaps - {id}
    {
      Others(others(0));
      if rec.status == Submitting {
        Resubmit(id, rec, k, others);
      } else {
        Reconcile(id, rec, k, others);
      }
    }

    /** The same, keeping track of the rows of the batch that are handled already. */
    method ActNext(id: RowId, rec: Row, k: nat, others: (nat, nat) -> seq<Step>, ghost acted: set<RowId>)
      requires Valid() && id in initial && initial[id] == rec && id !in done && answers.clock(k) >= start
      requires (rec.status == Submitting || rec.status == Submitted) && AllHandled(Look(), rec.status, acted)
      requires state.cron.at == Scanning && id in state.cron.snaps && state.cron.snaps[id] == rec
      modifies this`state, this`states, this`steps, this`moved, this`done, this`published, this`waiting
      ensures Valid() && Progress() && AllHandled(Look(), rec.status, acted + {id}) && done <= old(done) + {id}
      ensures state.cron.at == Scanning && state.cron.snaps - {id} == old(state).cron.snaps - {id}
    {
      ghost var before := Look();
      ActOn(id, rec, k, (point: nat) => others(k, point));
      AllHandledStay(before, Look(), rec.status, acted);
    }

    /** Recover crashed `submitting` rows, or reconcile `submitted` ones. */
    method ProcessBatch(status: Status, locked: set<RowId>, others: (nat, nat) -> seq<Step>)
      requires Valid() && (status == Submitting || status == Submitted) && state.cron.at == Scanning
      requires |StaleRows(initial, status, Cutoff())| <= BATCH
      requires forall k: nat :: answers.clock(k) >= start
      requires forall id | id in done :: id in initial && initial[id].status != status
      modifies this`state, this`states, this`steps, this`moved, this`done, this`skipped, this`published, this`waiting
      ensures Valid() && Progress() && skipped == old(skipped) + Tagged(status, locked) && state.cron.at == Scanning
      ensures AllHandled(Look(), status, StaleRows(initial, status, Cutoff()))
      ensures forall id | id in done :: id in old(done) || (id in initial && initial[id].status == status)
    {
      var recs, snaps := SelectAndClaim(status, locked);
      ActOnAll(recs, snaps, status, others);
      BatchHandled(Look(), status, StaleRows(initial, status, Cutoff()), recs, Prefix(recs, |recs|));
    }

    /** Select a batch whose snapshots the cron then acts on. */
    method SelectAndClaim(status: Status, locked: set<RowId>) returns (recs: seq<RowId>, snaps: map<RowId, Row>)
      requires Valid() && (status == Submitting || status == Submitted) && state.cron.at == Scanning
      requires |StaleRows(initial, status, Cutoff())| <= BATCH
      requires forall id | id in done :: id in initial && initial[id].status != status
      modifies this`state, this`states, this`steps, this`moved, this`done, this`skipped
      ensures Valid() && Progress() && skipped == old(skipped) + Tagged(status, locked) && state.cron.at == Scanning
      ensures done == old(done)
      ensures forall i | 0 <= i < |recs| :: recs[i] in initial && recs[i] in snaps && snaps[recs[i]] == initial[recs[i]]
      ensures forall i | 0 <= i < |recs| :: recs[i] !in done && initial[recs[i]].status == status
      ensures forall i | 0 <= i < |recs| :: recs[i] in state.cron.snaps && state.cron.snaps[recs[i]] == snaps[recs[i]]
      ensures forall i, j | 0 <= i < j < |recs| :: recs[i] != recs[j]
      ensures forall id | id in StaleRows(initial, status, Cutoff()) :: id in recs || id in moved || (status, id) in skipped
    {
      recs := SelectBatch(status, locked);
      snaps := state.rows;
      Claim(recs);
    }

    method Claim(recs: seq<RowId>)
      requires Valid() && state.cron.at == Scanning
      requires forall i | 0 <= i < |recs| ::
        recs[i] in state.rows && (state.rows[recs[i]].status == Submitting || state.rows[recs[i]].status == Submitted)
      modifies this`state, this`states, this`steps, this`moved, this`done
      ensures Valid() && Progress() && done == old(done) && moved == old(moved) && state.rows == old(state).rows
      ensures state.cron.at == Scanning
      ensures forall i | 0 <= i < |recs| ::
        recs[i] in state.cron.snaps && recs[i] in state.rows && state.cron.snaps[recs[i]] == state.rows[recs[i]]
    {
      var ids := set id | id in recs;
      assert forall i | 0 <= i < |recs| :: recs[i] in ids;
      Do(CronSelect(ids), true);
      assert Changed(state.rows, state.rows) == {};
    }

    method ActOnAll(recs: seq<RowId>, snaps: map<RowId, Row>, status: Status, others: (nat, nat) -> seq<Step>)
      requires Valid() && (status == Submitting || status == Submitted) && state.cron.at == Scanning
      requires forall k: nat :: answers.clock(k) >= start
      requires forall i | 0 <= i < |recs| :: recs[i] in initial && recs[i] in snaps && snaps[recs[i]] == initial[recs[i]]
      requires forall i | 0 <= i < |recs| :: recs[i] !in done && initial[recs[i]].status == status
      requires forall i | 0 <= i < |recs| :: recs[i] in state.cron.snaps && state.cron.snaps[recs[i]] == snaps[recs[i]]
      requires forall i, j | 0 <= i < j < |recs| :: recs[i] != recs[j]
      modifies this`state, this`states, this`steps, this`moved, this`done, this`published, this`waiting
      ensures Valid() && Progress() && state.cron.at == Scanning
      ensures AllHandled(Look(), status, Prefix(recs, |recs|)) && done <= old(done) + Prefix(recs, |recs|)
    {
      for i := 0 to |recs|
        invariant Valid() && Progress() && state.cron.at == Scanning
        invariant AllHandled(Look(), status, Prefix(recs, i)) && done <= old(done) + Prefix(recs, i)
        invariant forall j | i <= j < |recs| :: recs[j] in state.cron.snaps && state.cron.snaps[recs[j]] == snaps[recs[j]]
      {
        ghost var before := state.cron.snaps;
        PrefixGrows(recs, i);
        ActNext(recs[i], snaps[recs[i]], i, others, Prefix(recs, i));
        SnapsLeft(before, state.cron.snaps, recs, snaps, i);
      }
    }

    /**
      The whole pass. With at most one batch of stale rows per status, every stale pending or failed row
      has been published again, was moved by somebody else, or was locked when its status was selected;
      every other stale non-terminal row too, or it is terminal, or it is a submitted row whose
      transaction is still known, shows no receipt and is not clearly stuck.
     */
    method Tick(locked: Status -> set<RowId>, others: (Status, nat, nat) -> seq<Step>)
      requires Valid() && state.rows == initial && moved == {} && done == {} && skipped == {} && waiting == {}
      requires state.cron.at == Scanning
      requires forall status | !EndStatus(status) :: |StaleRows(initial, status, Cutoff())| <= 100
      requires forall k: nat :: answers.clock(k) >= start
      modifies this
      ensures Valid() && old(steps) <= steps
      ensures forall id | id in initial && !Terminal(initial[id]) && initial[id].updatedAt < start - timeout :: Handled(id)
      ensures forall id | id in initial && (initial[id].status == Pending || initial[id].status == Failed) && initial[id].updatedAt < start - timeout ::
        ResentIn(Look(), initial[id].status, id)
      ensures forall status, id | (status, id) in skipped :: id in locked(status)
      ensures forall id | id in waiting :: id in initial && StillInFlight(initial[id], first, answers, start, timeout)
    {
      RepublishBoth(locked, others);
      ghost var republished := Look();
      ReconcileAll(locked, others);
      FourHandled(republished, Look(), initial, Cutoff());
      SkippedLocked(skipped, locked);
    }

    /** The first half: rows that live only in the queue. */
    method RepublishBoth(locked: Status -> set<RowId>, others: (Status, nat, nat) -> seq<Step>)
      requires Valid() && done == {}
      requires |StaleRows(initial, Pending, Cutoff())| <= BATCH && |StaleRows(initial, Failed, Cutoff())| <= BATCH
      modifies this`state, this`states, this`steps, this`moved, this`done, this`skipped, this`published
      ensures Valid() && Progress() && done == {} && state.cron == old(state).cron
      ensures skipped == old(skipped) + Tagged(Pending, locked(Pending)) + Tagged(Failed, locked(Failed))
      ensures AllResent(Look(), Pending, StaleRows(initial, Pending, Cutoff()))
      ensures AllResent(Look(), Failed, StaleRows(initial, Failed, Cutoff()))
    {
      RepublishLost(Pending, locked(Pending), (k: nat) => others(Pending, k, 0));
      ghost var republished := Look();
      RepublishLost(Failed, locked(Failed), (k: nat) => others(Failed, k, 0));
      AllResentStay(republished, Look(), Pending, StaleRows(initial, Pending, Cutoff()));
    }

    /** The second half of the pass: rows that have a nonce. */
    method ReconcileAll(locked: Status -> set<RowId>, others: (Status, nat, nat) -> seq<Step>)
      requires Valid() && done == {} && state.cron.at == Scanning
      requires |StaleRows(initial, Submitting, Cutoff())| <= BATCH && |StaleRows(initial, Submitted, Cutoff())| <= BATCH
      requires forall k: nat :: answers.clock(k) >= start
      modifies this`state, this`states, this`steps, this`moved, this`done, this`skipped, this`published, this`waiting
      ensures Valid() && Progress()
      ensures skipped == old(skipped) + Tagged(Submitting, locked(Submitting)) + Tagged(Submitted, locked(Submitted))
      ensures AllHandled(Look(), Submitting, StaleRows(initial, Submitting, Cutoff()))
      ensures AllHandled(Look(), Submitted, StaleRows(initial, Submitted, Cutoff()))
    {
      ProcessBatch(Submitting, locked(Submitting), (k: nat, point: nat) => others(Submitting, k, point));
      ghost var recovered := Look();
      ProcessBatch(Submitted, locked(Submitted), (k: nat, point: nat) => others(Submitted, k, point));
      AllHandledStay(recovered, Look(), Submitting, StaleRows(initial, Submitting, Cutoff()));
    }
  }

  lemma SnapsLeft(before: map<RowId, Row>, after: map<RowId, Row>, recs: seq<RowId>, snaps: map<RowId, Row>, i: nat)
    requires i < |recs| && after - {recs[i]} == before - {recs[i]}
    requires forall j | 0 <= j < |recs| :: recs[j] in snaps
    requires forall j | i <= j < |recs| :: recs[j] in before && before[recs[j]] == snaps[recs[j]]
    requires forall a, b | 0 <= a < b < |recs| :: recs[a] != recs[b]
    ensures forall j | i < j < |recs| :: recs[j] in after && after[recs[j]] == snaps[recs[j]]
  {
    forall j | i < j < |recs|
      ensures recs[j] in after && after[recs[j]] == snaps[recs[j]]
    {
      assert recs[j] in before - {recs[i]};
      assert (before - {recs[i]})[recs[j]] == before[recs[j]];
      assert (after - {recs[i]})[recs[j]] == after[recs[j]];
    }
  }
}
