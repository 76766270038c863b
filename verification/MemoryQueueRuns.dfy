/** Guarantees of the in-process queue over every run with a non-decreasing clock. */
module MemoryQueueRuns {
  import opened MemoryQueue

  datatype Op =
    | OpPublish(m: Message)
    | OpConsume(chain: nat, max: nat)
    | OpReclaim(chain: nat, max: nat)
    | OpAck(h: Handle)
    | OpNack(h: Handle, delay: int)
    | OpDeadLetter(h: Handle, m: Message, reason: string)
    | OpClose

  /**
    A queue with the history of its run: first deliveries of never-nacked messages in the order they
    happened, the time each handle was last handed out, handles created by a nack, and the bags of
    messages ever published and ever removed by ack or deadLetter.
   */
  datatype Hist = Hist(
    q: Queue,
    clock: int,
    first: seq<Delivery>,
    lastTaken: map<Handle, int>,
    retried: set<Handle>,
    published: multiset<Message>,
    removed: multiset<Message>)

  function Start(clock: int): Hist {
    Hist(EMPTY, clock, [], map[], {}, multiset{}, multiset{})
  }

  /** First deliveries among `ds`: attempt 1 of a handle that no nack created. */
  function Firsts(ds: seq<Delivery>, retried: set<Handle>): seq<Delivery> {
    if ds == [] then []
    else (if ds[0].attempt == 1 && ds[0].handle !in retried then [ds[0]] else []) + Firsts(ds[1..], retried)
  }

  function Stamped(lastTaken: map<Handle, int>, ds: seq<Delivery>, now: int): map<Handle, int> {
    lastTaken + map d | d in ds :: d.handle := now
  }

  function Out(q: Queue, inflight: bool, chain: nat, max: nat, now: int, visibility: nat): seq<Delivery> {
    Deliveries(q.entries, TakenEntries(q.entries, inflight, chain, max, now, visibility))
  }

  function AfterTake(h: Hist, inflight: bool, chain: nat, max: nat, now: int, visibility: nat): Hist {
    var ds := Out(h.q, inflight, chain, max, now, visibility);
    h.(q := h.q.(entries := TakenEntries(h.q.entries, inflight, chain, max, now, visibility)), clock := now,
       first := h.first + Firsts(ds, h.retried), lastTaken := Stamped(h.lastTaken, ds, now))
  }

  function After(h: Hist, op: Op, now: int, visibility: nat): Hist {
    match op
    case OpPublish(m) =>
      h.(q := Published(h.q, m, now), clock := now, published := h.published + multiset{m})
    case OpConsume(chain, max) => AfterTake(h, false, chain, max, now, visibility)
    case OpReclaim(chain, max) => AfterTake(h, true, chain, max, now, visibility)
    case OpAck(x) =>
      h.(q := h.q.(entries := Without(h.q.entries, x)), clock := now, removed := h.removed + Tracked(h.q, x))
    case OpNack(x, delay) =>
      h.(q := Nacked(h.q, x, now, delay), clock := now,
         retried := if Find(h.q.entries, x) < |h.q.entries| then h.retried + {h.q.next} else h.retried)
    case OpDeadLetter(x, m, reason) =>
      h.(q := Buried(h.q, x, m, reason), clock := now, removed := h.removed + Tracked(h.q, x))
    case OpClose => h.(q := h.q.(entries := []), clock := now)
  }

  lemma {:induction false} FirstsOf(ds: seq<Delivery>, retried: set<Handle>)
    ensures forall f | f in Firsts(ds, retried) :: f in ds && f.attempt == 1 && f.handle !in retried
    ensures forall d | d in ds && d.attempt == 1 && d.handle !in retried :: d in Firsts(ds, retried)
    ensures Sorted(ds) ==> Sorted(Firsts(ds, retried))
  {
    if ds != [] {
      FirstsOf(ds[1..], retried);
    }
  }

  // ---- The invariant of a run ----

  predicate EntryOk(h: Hist, e: Entry, visibility: nat) {
    && e.id < h.q.next
    && (e.inflight <==> e.id in h.lastTaken)
    && (e.inflight ==> e.availableAt == h.lastTaken[e.id] + visibility)
    && (e.id !in h.retried ==> if e.inflight then e.attempts >= 1 else e.attempts == 0 && e.availableAt <= h.clock)
  }

  /** Never-nacked messages that were never handed out come after every first delivery of their partition. */
  ghost predicate NotOvertaken(h: Hist, e: Entry) {
    e.id !in h.retried && !e.inflight ==>
      forall f | f in h.first && f.message.chain == e.message.chain :: f.handle < e.id
  }

  ghost predicate FirstInOrder(first: seq<Delivery>) {
    forall i, j | 0 <= i < j < |first| && first[i].message.chain == first[j].message.chain ::
      first[i].handle < first[j].handle
  }

  ghost predicate Inv(h: Hist, visibility: nat) {
    && IdsIncrease(h.q.entries)
    && (forall e | e in h.q.entries :: EntryOk(h, e, visibility) && NotOvertaken(h, e))
    && (forall x | x in h.lastTaken :: x < h.q.next)
    && (forall x | x in h.retried :: x < h.q.next)
    && (forall f | f in h.first :: f.handle < h.q.next)
    && FirstInOrder(h.first)
  }

  lemma TakeIds(h: Hist, inflight: bool, chain: nat, max: nat, now: int, visibility: nat)
    requires Inv(h, visibility)
    ensures var out := TakenEntries(h.q.entries, inflight, chain, max, now, visibility);
      && IdsIncrease(out) && Sorted(Deliveries(h.q.entries, out))
      && forall k | 0 <= k < |out| :: out[k].id == h.q.entries[k].id && out[k].message == h.q.entries[k].message
  {
    var es := h.q.entries;
    var out := TakenEntries(es, inflight, chain, max, now, visibility);
    forall k | 0 <= k < |out|
      ensures out[k].id == es[k].id && out[k].message == es[k].message
    {
      TakenAt(es, inflight, chain, max, now, visibility, k);
    }
    DeliveriesSorted(es, out);
  }

  /** A delivery comes from an eligible entry. */
  lemma TakeDelivers(h: Hist, inflight: bool, chain: nat, max: nat, now: int, visibility: nat, d: Delivery) returns (k: nat)
    requires d in Out(h.q, inflight, chain, max, now, visibility)
    ensures k < |h.q.entries| && Eligible(h.q.entries[k], inflight, chain, now)
    ensures TakenEntries(h.q.entries, inflight, chain, max, now, visibility)[k] == Handed(h.q.entries[k], now, visibility)
    ensures d == DeliveryOf(Handed(h.q.entries[k], now, visibility))
  {
    k := DeliveryFrom(h.q.entries, TakenEntries(h.q.entries, inflight, chain, max, now, visibility), d);
    TakenAt(h.q.entries, inflight, chain, max, now, visibility, k);
  }

  lemma TakeEntriesOk(h: Hist, inflight: bool, chain: nat, max: nat, now: int, visibility: nat, k: nat)
    requires Inv(h, visibility) && h.clock <= now && k < |h.q.entries|
    ensures var h' := AfterTake(h, inflight, chain, max, now, visibility); EntryOk(h', h'.q.entries[k], visibility)
  {
    var es := h.q.entries;
    var out := TakenEntries(es, inflight, chain, max, now, visibility);
    var ds := Deliveries(es, out);
    TakenAt(es, inflight, chain, max, now, visibility, k);
    assert es[k] in es && EntryOk(h, es[k], visibility);
    if out[k] != es[k] {
      DeliveredAt(es, out, k);
    } else {
      forall d | d in ds
        ensures d.handle != es[k].id
      {
        var j := TakeDelivers(h, inflight, chain, max, now, visibility, d);
        assert j != k;
        assert es[j].id == d.handle;
      }
    }
  }

  /** New first deliveries come from never-nacked, never-delivered entries of the partition taken from. */
  lemma NewFirst(h: Hist, inflight: bool, chain: nat, max: nat, now: int, visibility: nat, f: Delivery) returns (k: nat)
    requires Inv(h, visibility) && f in Firsts(Out(h.q, inflight, chain, max, now, visibility), h.retried)
    ensures k < |h.q.entries| && h.q.entries[k].id == f.handle && h.q.entries[k].message == f.message
    ensures !inflight && Eligible(h.q.entries[k], false, chain, now) && f.handle !in h.retried
    ensures TakenEntries(h.q.entries, inflight, chain, max, now, visibility)[k] != h.q.entries[k]
  {
    FirstsOf(Out(h.q, inflight, chain, max, now, visibility), h.retried);
    k := TakeDelivers(h, inflight, chain, max, now, visibility, f);
    assert h.q.entries[k] in h.q.entries && EntryOk(h, h.q.entries[k], visibility);
  }

  lemma TakeNotOvertaken(h: Hist, inflight: bool, chain: nat, max: nat, now: int, visibility: nat, k: nat)
    requires Inv(h, visibility) && h.clock <= now && k < |h.q.entries|
    ensures var h' := AfterTake(h, inflight, chain, max, now, visibility); NotOvertaken(h', h'.q.entries[k])
  {
    var es := h.q.entries;
    var out := TakenEntries(es, inflight, chain, max, now, visibility);
    TakenAt(es, inflight, chain, max, now, visibility, k);
    assert es[k] in es && EntryOk(h, es[k], visibility) && NotOvertaken(h, es[k]);
    if es[k].id !in h.retried && !out[k].inflight {
      forall f | f in Firsts(Out(h.q, inflight, chain, max, now, visibility), h.retried) && f.message.chain == es[k].message.chain
        ensures f.handle < es[k].id
      {
        var j := NewFirst(h, inflight, chain, max, now, visibility, f);
        assert Eligible(es[k], inflight, chain, now);
        assert j < k;
      }
    }
  }

  lemma TakeFirstInOrder(h: Hist, inflight: bool, chain: nat, max: nat, now: int, visibility: nat)
    requires Inv(h, visibility)
    ensures var h' := AfterTake(h, inflight, chain, max, now, visibility);
      FirstInOrder(h'.first) && forall f | f in h'.first :: f.handle < h.q.next
  {
    var ds := Out(h.q, inflight, chain, max, now, visibility);
    var fs := Firsts(ds, h.retried);
    TakeIds(h, inflight, chain, max, now, visibility);
    FirstsOf(ds, h.retried);
    forall f | f in fs
      ensures f.handle < h.q.next
      ensures forall g | g in h.first && g.message.chain == f.message.chain :: g.handle < f.handle
    {
      var k := NewFirst(h, inflight, chain, max, now, visibility, f);
      assert h.q.entries[k] in h.q.entries && NotOvertaken(h, h.q.entries[k]) && EntryOk(h, h.q.entries[k], visibility);
    }
  }

  lemma TakeInv(h: Hist, inflight: bool, chain: nat, max: nat, now: int, visibility: nat)
    requires Inv(h, visibility) && h.clock <= now
    ensures Inv(AfterTake(h, inflight, chain, max, now, visibility), visibility)
  {
    var h' := AfterTake(h, inflight, chain, max, now, visibility);
    TakeIds(h, inflight, chain, max, now, visibility);
    forall e | e in h'.q.entries
      ensures EntryOk(h', e, visibility) && NotOvertaken(h', e)
    {
      var k :| 0 <= k < |h'.q.entries| && h'.q.entries[k] == e;
      TakeEntriesOk(h, inflight, chain, max, now, visibility, k);
      TakeNotOvertaken(h, inflight, chain, max, now, visibility, k);
    }
    TakeFirstInOrder(h, inflight, chain, max, now, visibility);
    forall x | x in h'.lastTaken
      ensures x < h'.q.next
    {
      if x !in h.lastTaken {
        var d :| d in Out(h.q, inflight, chain, max, now, visibility) && d.handle == x;
        var k := TakeDelivers(h, inflight, chain, max, now, visibility, d);
        assert h.q.entries[k] in h.q.entries && EntryOk(h, h.q.entries[k], visibility);
      }
    }
  }

  lemma DropInv(h: Hist, x: Handle, visibility: nat)
    requires Inv(h, visibility)
    ensures Inv(h.(q := h.q.(entries := Without(h.q.entries, x))), visibility)
  {
    WithoutLaw(h.q.entries, x);
    var h' := h.(q := h.q.(entries := Without(h.q.entries, x)));
    forall e | e in h'.q.entries
      ensures EntryOk(h', e, visibility) && NotOvertaken(h', e)
    {
      assert EntryOk(h, e, visibility) && NotOvertaken(h, e);
    }
  }

  function Appended(h: Hist, e: Entry, isRetry: bool): Hist {
    h.(q := h.q.(entries := h.q.entries + [e], next := h.q.next + 1),
       retried := if isRetry then h.retried + {e.id} else h.retried)
  }

  lemma AppendInv(h: Hist, e: Entry, isRetry: bool, visibility: nat)
    requires Inv(h, visibility) && e.id == h.q.next && !e.inflight
    requires isRetry || (e.attempts == 0 && e.availableAt <= h.clock)
    ensures Inv(Appended(h, e, isRetry), visibility)
  {
    var h' := Appended(h, e, isRetry);
    forall i, j | 0 <= i < j < |h'.q.entries|
      ensures h'.q.entries[i].id < h'.q.entries[j].id
    {
      assert h.q.entries[i] in h.q.entries && EntryOk(h, h.q.entries[i], visibility);
    }
    forall x | x in h'.q.entries
      ensures EntryOk(h', x, visibility) && NotOvertaken(h', x)
    {
      assert x != e ==> EntryOk(h, x, visibility) && NotOvertaken(h, x);
    }
  }

  lemma ClockInv(h: Hist, now: int, visibility: nat)
    requires Inv(h, visibility) && h.clock <= now
    ensures Inv(h.(clock := now), visibility)
  {
    var h' := h.(clock := now);
    forall e | e in h'.q.entries
      ensures EntryOk(h', e, visibility) && NotOvertaken(h', e)
    {
      assert EntryOk(h, e, visibility) && NotOvertaken(h, e);
    }
  }

  lemma StepInv(h: Hist, op: Op, now: int, visibility: nat)
    requires Inv(h, visibility) && h.clock <= now
    ensures Inv(After(h, op, now, visibility), visibility)
  {
    ClockInv(h, now, visibility);
    var h1 := h.(clock := now);
    match op {
      case OpPublish(m) => AppendInv(h1, Entry(h.q.next, m, 0, false, now), false, visibility);
        SideEffectInv(Appended(h1, Entry(h.q.next, m, 0, false, now), false), After(h, op, now, visibility), visibility);
      case OpConsume(chain, max) => TakeInv(h, false, chain, max, now, visibility);
      case OpReclaim(chain, max) => TakeInv(h, true, chain, max, now, visibility);
      case OpAck(x) => DropInv(h1, x, visibility);
        SideEffectInv(h1.(q := h.q.(entries := Without(h.q.entries, x))), After(h, op, now, visibility), visibility);
      case OpNack(x, delay) => NackInv(h1, x, delay, visibility);
      case OpDeadLetter(x, m, reason) => DropInv(h1, x, visibility);
        SideEffectInv(h1.(q := h.q.(entries := Without(h.q.entries, x))), After(h, op, now, visibility), visibility);
      case OpClose =>
    }
  }

  /** The dead-letter list and the message bags play no part in the invariant. */
  lemma SideEffectInv(h: Hist, h': Hist, visibility: nat)
    requires Inv(h, visibility)
    requires h' == h.(q := h.q.(dead := h'.q.dead), published := h'.published, removed := h'.removed)
    ensures Inv(h', visibility)
  {
    forall e | e in h'.q.entries
      ensures EntryOk(h', e, visibility) && NotOvertaken(h', e)
    {
      assert EntryOk(h, e, visibility) && NotOvertaken(h, e);
    }
  }

  /** Redelivering is dropping the entry and appending it under a new id. */
  lemma NackAppends(h: Hist, x: Handle, delay: int, visibility: nat)
    ensures var i := Find(h.q.entries, x);
      After(h, OpNack(x, delay), h.clock, visibility) ==
      if i < |h.q.entries| then
        Appended(h.(q := h.q.(entries := Without(h.q.entries, x))),
                 h.q.entries[i].(id := h.q.next, inflight := false, availableAt := h.clock + delay), true)
      else h
  {
  }

  lemma NackInv(h: Hist, x: Handle, delay: int, visibility: nat)
    requires Inv(h, visibility)
    ensures Inv(After(h, OpNack(x, delay), h.clock, visibility), visibility)
  {
    var i := Find(h.q.entries, x);
    if i < |h.q.entries| {
      var dropped := h.(q := h.q.(entries := Without(h.q.entries, x)));
      var again := h.q.entries[i].(id := h.q.next, inflight := false, availableAt := h.clock + delay);
      DropInv(h, x, visibility);
      AppendInv(dropped, again, true, visibility);
      NackAppends(h, x, delay, visibility);
    }
  }

  // ---- Theorems over runs ----

  /** A run: operations at non-decreasing times from the empty queue. */
  ghost predicate Run(hs: seq<Hist>, ops: seq<Op>, times: seq<int>, visibility: nat) {
    && |ops| == |times| && |hs| == |ops| + 1
    && hs[0] == Start(hs[0].clock)
    && forall i | 0 <= i < |ops| :: hs[i].clock <= times[i] && hs[i + 1] == After(hs[i], ops[i], times[i], visibility)
  }

  lemma {:induction false} RunInv(hs: seq<Hist>, ops: seq<Op>, times: seq<int>, visibility: nat, i: nat)
    requires Run(hs, ops, times, visibility) && i < |hs|
    ensures Inv(hs[i], visibility)
  {
    if i > 0 {
      RunInv(hs, ops, times, visibility, i - 1);
      StepInv(hs[i - 1], ops[i - 1], times[i - 1], visibility);
    }
  }

  /** What the operation at step i hands out. */
  ghost function HandedOut(hs: seq<Hist>, ops: seq<Op>, times: seq<int>, visibility: nat, i: nat): seq<Delivery>
    requires Run(hs, ops, times, visibility) && i < |ops|
  {
    match ops[i]
    case OpConsume(chain, max) => Out(hs[i].q, false, chain, max, times[i], visibility)
    case OpReclaim(chain, max) => Out(hs[i].q, true, chain, max, times[i], visibility)
    case _ => []
  }

  /** FIFO: first deliveries of never-nacked messages of one partition happen in publish order. */
  lemma FirstDeliveriesInPublishOrder(hs: seq<Hist>, ops: seq<Op>, times: seq<int>, visibility: nat, i: nat)
    requires Run(hs, ops, times, visibility) && i < |hs|
    ensures forall a, b | 0 <= a < b < |hs[i].first| && hs[i].first[a].message.chain == hs[i].first[b].message.chain ::
      hs[i].first[a].handle < hs[i].first[b].handle
  {
    RunInv(hs, ops, times, visibility, i);
  }

  /** FIFO, the other half: nothing tracked and never nacked was overtaken by a later message of its partition. */
  lemma NeverOvertaken(hs: seq<Hist>, ops: seq<Op>, times: seq<int>, visibility: nat, i: nat, f: Delivery, e: Entry)
    requires Run(hs, ops, times, visibility) && i < |hs|
    requires f in hs[i].first && e in hs[i].q.entries && e.id !in hs[i].retried
    requires f.message.chain == e.message.chain && e.id < f.handle
    ensures e.inflight && e.attempts >= 1
  {
    RunInv(hs, ops, times, visibility, i);
    assert NotOvertaken(hs[i], e) && EntryOk(hs[i], e, visibility);
  }

  lemma TakeStamps(h: Hist, inflight: bool, chain: nat, max: nat, now: int, visibility: nat, d: Delivery)
    requires d in Out(h.q, inflight, chain, max, now, visibility)
    ensures var h' := AfterTake(h, inflight, chain, max, now, visibility);
      d.handle in h'.lastTaken && h'.lastTaken[d.handle] == now && h'.clock == now
  {
  }

  lemma StepKeepsStamp(h: Hist, op: Op, now: int, visibility: nat, x: Handle, t: int)
    requires x in h.lastTaken && t <= h.lastTaken[x] && t <= h.clock <= now
    ensures var h' := After(h, op, now, visibility);
      x in h'.lastTaken && t <= h'.lastTaken[x] && t <= h'.clock
  {
  }

  lemma {:induction false} LastTakenGrows(
    hs: seq<Hist>, ops: seq<Op>, times: seq<int>, visibility: nat, i: nat, j: nat, d: Delivery)
    requires Run(hs, ops, times, visibility) && i < j < |hs|
    requires d in HandedOut(hs, ops, times, visibility, i)
    ensures d.handle in hs[j].lastTaken && times[i] <= hs[j].lastTaken[d.handle] && times[i] <= hs[j].clock
    decreases j
  {
    if j > i + 1 {
      LastTakenGrows(hs, ops, times, visibility, i, j - 1, d);
      StepKeepsStamp(hs[j - 1], ops[j - 1], times[j - 1], visibility, d.handle, times[i]);
    } else {
      TakeStamps(hs[i], ops[i].OpReclaim?, ops[i].chain, ops[i].max, times[i], visibility, d);
    }
  }

  /** A handle handed out at step i is not handed out again before its visibility timeout has passed. */
  lemma NoEarlyRedelivery(hs: seq<Hist>, ops: seq<Op>, times: seq<int>, visibility: nat, i: nat, j: nat, d: Delivery, d': Delivery)
    requires Run(hs, ops, times, visibility) && i < j < |ops|
    requires d in HandedOut(hs, ops, times, visibility, i) && d' in HandedOut(hs, ops, times, visibility, j)
    requires d.handle == d'.handle
    ensures times[i] + visibility <= times[j]
  {
    LastTakenGrows(hs, ops, times, visibility, i, j, d);
    RunInv(hs, ops, times, visibility, j);
    var h := hs[j];
    var k := TakeDelivers(h, ops[j].OpReclaim?, ops[j].chain, ops[j].max, times[j], visibility, d');
    assert h.q.entries[k] in h.q.entries && EntryOk(h, h.q.entries[k], visibility);
  }

  // ---- Conservation ----

  lemma {:induction false} BagSame(a: seq<Entry>, b: seq<Entry>)
    requires |a| == |b| && forall k | 0 <= k < |a| :: a[k].message == b[k].message
    ensures Bag(a) == Bag(b)
  {
    if a != [] {
      BagSame(a[1..], b[1..]);
    }
  }

  ghost predicate Balanced(h: Hist) {
    h.published == Bag(h.q.entries) + h.removed
  }

  lemma Regroup(a: multiset<Message>, b: multiset<Message>, c: multiset<Message>)
    ensures (a + b) + c == a + (c + b) && (a + b) + c == (a + c) + b
  {
  }

  lemma StepBalanced(h: Hist, op: Op, now: int, visibility: nat)
    requires Inv(h, visibility) && Balanced(h) && !op.OpClose?
    ensures Balanced(After(h, op, now, visibility))
  {
    match op {
      case OpPublish(m) => PublishBalanced(h, m, now);
      case OpConsume(chain, max) => TakeBag(h, false, chain, max, now, visibility);
      case OpReclaim(chain, max) => TakeBag(h, true, chain, max, now, visibility);
      case OpAck(x) => RemoveBalanced(h, x);
      case OpNack(x, delay) => NackBag(h.q, x, now, delay);
      case OpDeadLetter(x, m, reason) => RemoveBalanced(h, x);
      case OpClose =>
    }
  }

  lemma PublishBalanced(h: Hist, m: Message, now: int)
    requires Balanced(h)
    ensures h.published + multiset{m} == Bag(Published(h.q, m, now).entries) + h.removed
  {
    var e := Entry(h.q.next, m, 0, false, now);
    BagConcat(h.q.entries, [e]);
    assert Bag([e]) == multiset{m};
    Regroup(Bag(h.q.entries), multiset{m}, h.removed);
  }

  lemma RemoveBalanced(h: Hist, x: Handle)
    requires Balanced(h)
    ensures h.published == Bag(Without(h.q.entries, x)) + (h.removed + Tracked(h.q, x))
  {
    BagWithout(h.q, x);
    Regroup(Bag(Without(h.q.entries, x)), Tracked(h.q, x), h.removed);
  }

  lemma TakeBag(h: Hist, inflight: bool, chain: nat, max: nat, now: int, visibility: nat)
    requires Inv(h, visibility)
    ensures Bag(TakenEntries(h.q.entries, inflight, chain, max, now, visibility)) == Bag(h.q.entries)
  {
    TakeIds(h, inflight, chain, max, now, visibility);
    BagSame(h.q.entries, TakenEntries(h.q.entries, inflight, chain, max, now, visibility));
  }

  /** Until the queue is closed, every published message is tracked or was removed by ack or deadLetter, with multiplicity. */
  lemma {:induction false} MessagesConserved(hs: seq<Hist>, ops: seq<Op>, times: seq<int>, visibility: nat, i: nat)
    requires Run(hs, ops, times, visibility) && i < |hs|
    requires forall k | 0 <= k < i :: !ops[k].OpClose?
    ensures hs[i].published == Bag(hs[i].q.entries) + hs[i].removed
  {
    if i > 0 {
      MessagesConserved(hs, ops, times, visibility, i - 1);
      RunInv(hs, ops, times, visibility, i - 1);
      StepBalanced(hs[i - 1], ops[i - 1], times[i - 1], visibility);
    }
  }
}
