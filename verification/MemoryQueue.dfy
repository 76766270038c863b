/** The in-process partitioned queue: a ready/in-flight state machine on an injected clock. */
module MemoryQueue {
  type Handle = nat

  /** A message; its source chain is the partition it lives in. */
  datatype Message = Message(chain: nat, body: string)

  datatype Entry = Entry(id: Handle, message: Message, attempts: nat, inflight: bool, availableAt: int)

  datatype Delivery = Delivery(handle: Handle, message: Message, attempt: nat)

  /** Entries in insertion order; handles are numbered from a counter that never goes back. */
  datatype Queue = Queue(entries: seq<Entry>, dead: seq<(Message, string)>, next: nat)

  const EMPTY := Queue([], [], 0)

  // ---- The operations as functions ----

  function Published(q: Queue, m: Message, now: int): Queue {
    q.(entries := q.entries + [Entry(q.next, m, 0, false, now)], next := q.next + 1)
  }

  predicate Eligible(e: Entry, inflight: bool, chain: nat, now: int) {
    e.message.chain == chain && e.inflight == inflight && e.availableAt <= now
  }

  function Handed(e: Entry, now: int, visibility: nat): Entry {
    e.(inflight := true, availableAt := now + visibility, attempts := e.attempts + 1)
  }

  function DeliveryOf(e: Entry): Delivery {
    Delivery(e.id, e.message, e.attempts)
  }

  /** Hand out the first `max` eligible entries, in order. */
  function TakenEntries(es: seq<Entry>, inflight: bool, chain: nat, max: nat, now: int, visibility: nat): (out: seq<Entry>)
    ensures |out| == |es|
  {
    if es == [] || max == 0 then es
    else if Eligible(es[0], inflight, chain, now)
    then [Handed(es[0], now, visibility)] + TakenEntries(es[1..], inflight, chain, max - 1, now, visibility)
    else [es[0]] + TakenEntries(es[1..], inflight, chain, max, now, visibility)
  }

  /** The deliveries that belong to a change of entries: those whose attempt counter moved. */
  function Deliveries(es: seq<Entry>, out: seq<Entry>): seq<Delivery>
    requires |out| == |es|
  {
    if es == [] then []
    else (if out[0] != es[0] then [DeliveryOf(out[0])] else []) + Deliveries(es[1..], out[1..])
  }

  function Find(es: seq<Entry>, h: Handle): (i: nat)
    ensures i <= |es|
    ensures i < |es| ==> es[i].id == h
    ensures forall j | 0 <= j < i :: es[j].id != h
  {
    if es == [] || es[0].id == h then 0 else 1 + Find(es[1..], h)
  }

  function Without(es: seq<Entry>, h: Handle): seq<Entry> {
    var i := Find(es, h);
    if i < |es| then es[..i] + es[i + 1..] else es
  }

  function Nacked(q: Queue, h: Handle, now: int, delay: int): Queue {
    var i := Find(q.entries, h);
    if i == |q.entries| then q
    else q.(entries := Without(q.entries, h) + [q.entries[i].(id := q.next, inflight := false, availableAt := now + delay)],
            next := q.next + 1)
  }

  function Buried(q: Queue, h: Handle, m: Message, reason: string): Queue {
    q.(entries := Without(q.entries, h), dead := q.dead + [(m, reason)])
  }

  // ---- What the operations keep ----

  predicate IdsIncrease(es: seq<Entry>) {
    forall i, j | 0 <= i < j < |es| :: es[i].id < es[j].id
  }

  /** Handles increase in insertion order, and none is reused. */
  predicate Ordered(es: seq<Entry>, next: nat) {
    IdsIncrease(es) && forall e | e in es :: e.id < next
  }

  /** The message a handle stands for, if it is tracked. */
  function Tracked(q: Queue, h: Handle): multiset<Message> {
    var i := Find(q.entries, h);
    if i < |q.entries| then multiset{q.entries[i].message} else multiset{}
  }

  /** The messages the entries hold, with multiplicity. */
  function Bag(es: seq<Entry>): multiset<Message> {
    if es == [] then multiset{} else multiset{es[0].message} + Bag(es[1..])
  }

  lemma {:induction false} BagConcat(a: seq<Entry>, b: seq<Entry>)
    ensures Bag(a + b) == Bag(a) + Bag(b)
  {
    if a == [] {
      assert a + b == b;
    } else {
      assert (a + b)[1..] == a[1..] + b && (a + b)[0] == a[0];
      calc {
        Bag(a + b);
        multiset{a[0].message} + Bag(a[1..] + b);
        { BagConcat(a[1..], b); }
        multiset{a[0].message} + (Bag(a[1..]) + Bag(b));
        Bag(a) + Bag(b);
      }
    }
  }

  lemma {:induction false} BagWithout(q: Queue, x: Handle)
    ensures Bag(q.entries) == Bag(Without(q.entries, x)) + Tracked(q, x)
  {
    var es, i := q.entries, Find(q.entries, x);
    if i < |es| {
      assert es == es[..i] + ([es[i]] + es[i + 1..]);
      BagConcat(es[..i], [es[i]] + es[i + 1..]);
      assert ([es[i]] + es[i + 1..])[1..] == es[i + 1..];
      BagConcat(es[..i], es[i + 1..]);
    }
  }

  lemma {:induction false} NackBag(q: Queue, x: Handle, now: int, delay: int)
    ensures Bag(Nacked(q, x, now, delay).entries) == Bag(q.entries)
  {
    BagWithout(q, x);
    var i := Find(q.entries, x);
    if i < |q.entries| {
      BagConcat(Without(q.entries, x), [q.entries[i].(id := q.next, inflight := false, availableAt := now + delay)]);
    }
  }

  /** Exactly the entry of this handle goes; the others keep their order. */
  lemma {:induction false} WithoutLaw(es: seq<Entry>, h: Handle)
    requires IdsIncrease(es)
    ensures IdsIncrease(Without(es, h))
    ensures forall e :: e in Without(es, h) <==> e in es && e.id != h
  {
    WithoutIncreases(es, h);
    forall e
      ensures e in Without(es, h) <==> e in es && e.id != h
    {
      if e in Without(es, h) {
        KeptWasThere(es, h, e);
      }
      if e in es && e.id != h {
        OthersAreKept(es, h, e);
      }
    }
  }

  lemma {:induction false} WithoutIncreases(es: seq<Entry>, h: Handle)
    requires IdsIncrease(es)
    ensures IdsIncrease(Without(es, h))
  {
    WithoutAt(es, h);
  }

  /** Entries before the dropped one stay in place, later ones move up by one. */
  lemma {:induction false} WithoutAt(es: seq<Entry>, h: Handle)
    ensures var i, out := Find(es, h), Without(es, h);
      && |out| == (if i < |es| then |es| - 1 else |es|)
      && forall k | 0 <= k < |out| :: out[k] == if k < i then es[k] else es[k + 1]
  {
  }

  lemma {:induction false} KeptWasThere(es: seq<Entry>, h: Handle, e: Entry)
    requires IdsIncrease(es) && e in Without(es, h)
    ensures e in es && e.id != h
  {
    WithoutAt(es, h);
    var i, out := Find(es, h), Without(es, h);
    var k :| 0 <= k < |out| && out[k] == e;
    assert e == es[if k < i then k else k + 1];
  }

  lemma {:induction false} OthersAreKept(es: seq<Entry>, h: Handle, e: Entry)
    requires e in es && e.id != h
    ensures e in Without(es, h)
  {
    WithoutAt(es, h);
    var i, out := Find(es, h), Without(es, h);
    var k :| 0 <= k < |es| && es[k] == e;
    assert out[if k < i then k else k - 1] == e;
  }

  /** `e` is gone, and its message stands last under a new handle, with its attempts, ready at `readyAt`. */
  predicate Redelivered(before: seq<Entry>, after: seq<Entry>, e: Entry, readyAt: int) {
    && |after| == |before| > 0 && e !in after
    && var again := after[|after| - 1];
    && (forall o | o in before :: o.id < again.id)
    && again.message == e.message && again.attempts == e.attempts && !again.inflight && again.availableAt == readyAt
  }

  lemma {:induction false} NackLaw(q: Queue, h: Handle, now: int, delay: int)
    requires Ordered(q.entries, q.next)
    ensures var t := Nacked(q, h, now, delay);
      && Ordered(t.entries, t.next) && Bag(t.entries) == Bag(q.entries)
      && ((forall e | e in q.entries :: e.id != h) ==> t.entries == q.entries)
      && (forall e | e in q.entries && e.id != h :: e in t.entries)
      && (forall e | e in q.entries && e.id == h :: Redelivered(q.entries, t.entries, e, now + delay))
  {
    NackBag(q, h, now, delay);
    WithoutLaw(q.entries, h);
    var i := Find(q.entries, h);
    if i < |q.entries| {
      NackMoves(q, h, i, now, delay);
    }
  }

  lemma {:induction false} NackMoves(q: Queue, h: Handle, i: nat, now: int, delay: int)
    requires Ordered(q.entries, q.next) && i == Find(q.entries, h) < |q.entries|
    requires IdsIncrease(Without(q.entries, h)) && forall e :: e in Without(q.entries, h) <==> e in q.entries && e.id != h
    ensures var t := Nacked(q, h, now, delay);
      && Ordered(t.entries, t.next)
      && (forall e | e in q.entries && e.id != h :: e in t.entries)
      && (forall e | e in q.entries && e.id == h :: Redelivered(q.entries, t.entries, e, now + delay))
  {
    var t, kept := Nacked(q, h, now, delay), Without(q.entries, h);
    assert t.entries == kept + [t.entries[|kept|]];
    forall e | e in q.entries && e.id == h
      ensures Redelivered(q.entries, t.entries, e, now + delay)
    {
      var k :| 0 <= k < |q.entries| && q.entries[k] == e;
      assert k == i;
    }
  }

  lemma BagOfOne(e: Entry)
    ensures Bag([e]) == multiset{e.message}
  {
  }

  // ---- What a take does, index by index ----

  lemma {:induction false} TakenAt(es: seq<Entry>, inflight: bool, chain: nat, max: nat, now: int, visibility: nat, k: nat)
    requires k < |es|
    ensures var out := TakenEntries(es, inflight, chain, max, now, visibility);
      && (out[k] == es[k] || (Eligible(es[k], inflight, chain, now) && out[k] == Handed(es[k], now, visibility)))
      && (Eligible(es[k], inflight, chain, now) && out[k] == es[k] ==> forall j | k <= j < |es| :: out[j] == es[j])
  {
    var out := TakenEntries(es, inflight, chain, max, now, visibility);
    if max > 0 {
      var max' := if Eligible(es[0], inflight, chain, now) then max - 1 else max;
      var out' := TakenEntries(es[1..], inflight, chain, max', now, visibility);
      assert out[1..] == out';
      if k > 0 {
        TakenAt(es[1..], inflight, chain, max', now, visibility, k - 1);
        assert forall j | k <= j < |es| :: es[j] == es[1..][j - 1] && out[j] == out'[j - 1];
      }
    }
  }

  lemma {:induction false} DeliveryFrom(es: seq<Entry>, out: seq<Entry>, d: Delivery) returns (k: nat)
    requires |es| == |out| && d in Deliveries(es, out)
    ensures k < |es| && out[k] != es[k] && d == DeliveryOf(out[k])
  {
    if out[0] != es[0] && d == DeliveryOf(out[0]) {
      k := 0;
    } else {
      k := DeliveryFrom(es[1..], out[1..], d);
      k := k + 1;
    }
  }

  lemma {:induction false} DeliveredAt(es: seq<Entry>, out: seq<Entry>, k: nat)
    requires |es| == |out| && k < |es| && out[k] != es[k]
    ensures DeliveryOf(out[k]) in Deliveries(es, out)
  {
    if k > 0 {
      DeliveredAt(es[1..], out[1..], k - 1);
    }
  }

  predicate Sorted(ds: seq<Delivery>) {
    forall i, j | 0 <= i < j < |ds| :: ds[i].handle < ds[j].handle
  }

  lemma {:induction false} DeliveriesSorted(es: seq<Entry>, out: seq<Entry>)
    requires |es| == |out| && IdsIncrease(out)
    ensures Sorted(Deliveries(es, out))
  {
    if es != [] {
      DeliveriesSorted(es[1..], out[1..]);
      var rest := Deliveries(es[1..], out[1..]);
      forall d | d in rest
        ensures out[0].id < d.handle
      {
        var k := DeliveryFrom(es[1..], out[1..], d);
      }
    }
  }

  lemma {:induction false} TakenCount(es: seq<Entry>, inflight: bool, chain: nat, max: nat, now: int, visibility: nat)
    ensures var out := TakenEntries(es, inflight, chain, max, now, visibility);
      && |Deliveries(es, out)| <= max
      && (|Deliveries(es, out)| < max ==> forall k | 0 <= k < |es| && Eligible(es[k], inflight, chain, now) :: out[k] != es[k])
  {
    var out := TakenEntries(es, inflight, chain, max, now, visibility);
    if es != [] && max > 0 {
      var max' := if Eligible(es[0], inflight, chain, now) then max - 1 else max;
      TakenCount(es[1..], inflight, chain, max', now, visibility);
      assert out[1..] == TakenEntries(es[1..], inflight, chain, max', now, visibility);
      assert forall k | 1 <= k < |es| :: es[k] == es[1..][k - 1] && out[k] == out[1..][k - 1];
    } else {
      NothingDelivered(es);
    }
  }

  lemma {:induction false} NothingDelivered(es: seq<Entry>)
    ensures Deliveries(es, es) == []
  {
    if es != [] {
      NothingDelivered(es[1..]);
    }
  }

  // ---- What is expected of a take, field by field ----

  /** Entry e becomes o: handed out once more and hidden for the visibility timeout. */
  predicate HandedOut(e: Entry, o: Entry, now: int, visibility: nat) {
    && o.id == e.id && o.message == e.message && o.inflight
    && o.attempts == e.attempts + 1 && o.availableAt == now + visibility
  }

  /** Only entries of this partition in this state whose time has come change, and those become handed out. */
  ghost predicate OnlyDue(es: seq<Entry>, out: seq<Entry>, inflight: bool, chain: nat, now: int, visibility: nat) {
    && |out| == |es|
    && forall k | 0 <= k < |es| && out[k] != es[k] ::
         && es[k].message.chain == chain && es[k].inflight == inflight && es[k].availableAt <= now
         && HandedOut(es[k], out[k], now, visibility)
  }

  /** If fewer than `max` were handed out, none that was due is left; and none is passed over for a later one. */
  ghost predicate InTurn(es: seq<Entry>, out: seq<Entry>, n: nat, inflight: bool, chain: nat, max: nat, now: int) {
    && |out| == |es| && n <= max
    && forall k | 0 <= k < |es| && es[k].message.chain == chain && es[k].inflight == inflight && es[k].availableAt <= now ::
         out[k] != es[k] || (n == max && forall j | k <= j < |es| :: out[j] == es[j])
  }

  /** The deliveries are those of the changed entries, in their order. */
  ghost predicate DeliveredAre(es: seq<Entry>, out: seq<Entry>, ds: seq<Delivery>) {
    && |out| == |es|
    && (forall d | d in ds :: exists k :: 0 <= k < |es| && out[k] != es[k] && d == Delivery(es[k].id, es[k].message, es[k].attempts + 1))
    && (forall k | 0 <= k < |es| && out[k] != es[k] :: Delivery(es[k].id, es[k].message, es[k].attempts + 1) in ds)
    && (forall i, j | 0 <= i < j < |ds| :: ds[i].handle < ds[j].handle)
  }

  lemma TakeLaw(es: seq<Entry>, inflight: bool, chain: nat, max: nat, now: int, visibility: nat)
    requires IdsIncrease(es)
    ensures var out := TakenEntries(es, inflight, chain, max, now, visibility);
      var ds := Deliveries(es, out);
      && OnlyDue(es, out, inflight, chain, now, visibility)
      && InTurn(es, out, |ds|, inflight, chain, max, now)
      && DeliveredAre(es, out, ds)
  {
    var out := TakenEntries(es, inflight, chain, max, now, visibility);
    TakenCount(es, inflight, chain, max, now, visibility);
    forall k | 0 <= k < |es|
      ensures out[k] == es[k] || (Eligible(es[k], inflight, chain, now) && out[k] == Handed(es[k], now, visibility))
      ensures Eligible(es[k], inflight, chain, now) && out[k] == es[k] ==> forall j | k <= j < |es| :: out[j] == es[j]
    {
      TakenAt(es, inflight, chain, max, now, visibility, k);
    }
    TakenKeeps(es, inflight, chain, max, now, visibility);
    TakenDeliveries(es, out, now, visibility);
  }

  lemma TakenDeliveries(es: seq<Entry>, out: seq<Entry>, now: int, visibility: nat)
    requires |out| == |es| && IdsIncrease(es)
    requires forall k | 0 <= k < |es| :: out[k] == es[k] || out[k] == Handed(es[k], now, visibility)
    ensures DeliveredAre(es, out, Deliveries(es, out))
  {
    var ds := Deliveries(es, out);
    DeliveriesSorted(es, out);
    forall d | d in ds
      ensures exists k :: 0 <= k < |es| && out[k] != es[k] && d == Delivery(es[k].id, es[k].message, es[k].attempts + 1)
    {
      var k := DeliveryFrom(es, out, d);
    }
    forall k | 0 <= k < |es| && out[k] != es[k]
      ensures Delivery(es[k].id, es[k].message, es[k].attempts + 1) in ds
    {
      DeliveredAt(es, out, k);
    }
  }

  // ---- The class ----

  class InMemoryQueue {
    var entries: seq<Entry>
    var deadLettered: seq<(Message, string)>
    var next: nat
    const visibility: nat

    ghost predicate Valid()
      reads this
    {
      Ordered(entries, next)
    }

    constructor (visibility: nat)
      ensures Valid() && Contents() == EMPTY && this.visibility == visibility
    {
      entries, deadLettered, next, this.visibility := [], [], 0, visibility;
    }

    function Contents(): Queue
      reads this
    {
      Queue(entries, deadLettered, next)
    }

    /** The message goes to the end, ready at once, under a handle that was never used. */
    method Publish(m: Message, now: int)
      requires Valid()
      modifies this
      ensures Valid() && Contents() == Published(old(Contents()), m, now)
      ensures |entries| == |old(entries)| + 1 && old(entries) <= entries
      ensures forall e | e in old(entries) :: e.id < entries[|entries| - 1].id
      ensures var e := entries[|entries| - 1]; e.message == m && !e.inflight && e.attempts == 0 && e.availableAt == now
      ensures Bag(entries) == old(Bag(entries)) + multiset{m} && deadLettered == old(deadLettered)
    {
      BagConcat(entries, [Entry(next, m, 0, false, now)]);
      BagOfOne(Entry(next, m, 0, false, now));
      entries, next := entries + [Entry(next, m, 0, false, now)], next + 1;
    }

    /** Walk the entries in insertion order and mark the taken ones in place. */
    method Take(inflight: bool, chain: nat, max: nat, now: int) returns (out: seq<Delivery>)
      requires Valid()
      modifies this
      ensures Valid() && Contents() == old(Contents()).(entries := TakenEntries(old(entries), inflight, chain, max, now, visibility))
      ensures out == Deliveries(old(entries), entries)
      ensures OnlyDue(old(entries), entries, inflight, chain, now, visibility)
      ensures InTurn(old(entries), entries, |out|, inflight, chain, max, now)
      ensures DeliveredAre(old(entries), entries, out)
    {
      out := [];
      var i := 0;
      ghost var walk := Walk(entries, inflight, chain, max, now, visibility);
      while i < |entries| && |out| < max
        invariant deadLettered == old(deadLettered) && next == old(next)
        invariant TakenUpTo(walk, entries, out, i)
      {
        out := Consider(walk, out, i, inflight, chain, now);
        i := i + 1;
      }
      TakeEnd(walk, entries, out, i);
      TakenOrdered(old(entries), inflight, chain, max, now, visibility, next);
      TakeLaw(old(entries), inflight, chain, max, now, visibility);
    }

    /** Mark entry i in place and hand it out, if it is eligible. */
    method Consider(ghost walk: Walk, out: seq<Delivery>, i: nat, inflight: bool, chain: nat, now: int) returns (out': seq<Delivery>)
      requires TakenUpTo(walk, entries, out, i) && i < |entries| && |out| < walk.max
      requires walk.inflight == inflight && walk.chain == chain && walk.now == now && walk.visibility == visibility
      modifies this`entries
      ensures TakenUpTo(walk, entries, out', i + 1)
    {
      var e := entries[i];
      out' := out;
      TakeStep(walk, entries, out, i);
      if Eligible(e, inflight, chain, now) {
        entries := entries[i := Handed(e, now, visibility)];
        out' := out + [DeliveryOf(entries[i])];
      }
    }

    /** Exactly the delivered message goes. */
    method Ack(d: Delivery)
      requires Valid()
      modifies this
      ensures Valid() && Contents() == old(Contents()).(entries := Without(old(entries), d.handle))
      ensures forall e :: e in entries <==> e in old(entries) && e.id != d.handle
      ensures old(Bag(entries)) == Bag(entries) + Tracked(old(Contents()), d.handle)
    {
      WithoutLaw(entries, d.handle);
      BagWithout(Contents(), d.handle);
      entries := Without(entries, d.handle);
    }

    /**
      A tracked message moves to the end under a handle that was never used, keeping its attempts, and
      is ready after the delay; no message is lost and no other entry changes.
     */
    method Nack(d: Delivery, now: int, delay: int)
      requires Valid()
      modifies this
      ensures Valid() && Contents() == Nacked(old(Contents()), d.handle, now, delay)
      ensures Bag(entries) == old(Bag(entries)) && deadLettered == old(deadLettered)
      ensures (forall e | e in old(entries) :: e.id != d.handle) ==> entries == old(entries)
      ensures forall e | e in old(entries) && e.id != d.handle :: e in entries
      ensures forall e | e in old(entries) && e.id == d.handle :: Redelivered(old(entries), entries, e, now + delay)
    {
      NackLaw(Contents(), d.handle, now, delay);
      var i := Find(entries, d.handle);
      if i == |entries| {
        return;
      }
      var e := entries[i];
      entries := Without(entries, d.handle);
      entries, next := entries + [e.(id := next, inflight := false, availableAt := now + delay)], next + 1;
    }

    /** Exactly the delivered message goes, and it is listed as dead with its reason. */
    method DeadLetter(d: Delivery, reason: string)
      requires Valid()
      modifies this
      ensures Valid() && Contents() == Buried(old(Contents()), d.handle, d.message, reason)
      ensures forall e :: e in entries <==> e in old(entries) && e.id != d.handle
      ensures old(Bag(entries)) == Bag(entries) + Tracked(old(Contents()), d.handle)
      ensures |deadLettered| == |old(deadLettered)| + 1 && old(deadLettered) <= deadLettered
      ensures deadLettered[|deadLettered| - 1] == (d.message, reason)
    {
      WithoutLaw(entries, d.handle);
      BagWithout(Contents(), d.handle);
      entries, deadLettered := Without(entries, d.handle), deadLettered + [(d.message, reason)];
    }

    method Close()
      requires Valid()
      modifies this
      ensures Valid() && Contents() == old(Contents()).(entries := [])
    {
      entries := [];
    }
  }

  /** A take in progress: the entries it started from and its parameters. */
  datatype Walk = Walk(es: seq<Entry>, inflight: bool, chain: nat, max: nat, now: int, visibility: nat)

  ghost function Rest(w: Walk, i: nat, taken: nat): seq<Entry>
    requires i <= |w.es| && taken <= w.max
  {
    TakenEntries(w.es[i..], w.inflight, w.chain, w.max - taken, w.now, w.visibility)
  }

  /** The first i entries are decided, the others untouched. */
  ghost predicate TakenUpTo(w: Walk, cur: seq<Entry>, out: seq<Delivery>, i: nat) {
    && |cur| == |w.es| && i <= |cur| && |out| <= w.max
    && cur[i..] == w.es[i..]
    && TakenEntries(w.es, w.inflight, w.chain, w.max, w.now, w.visibility) == cur[..i] + Rest(w, i, |out|)
    && out == Deliveries(w.es[..i], cur[..i])
  }

  lemma {:induction false} TakeStep(w: Walk, cur: seq<Entry>, out: seq<Delivery>, i: nat)
    requires TakenUpTo(w, cur, out, i) && i < |cur| && |out| < w.max
    ensures cur[i] == w.es[i]
    ensures
      if Eligible(cur[i], w.inflight, w.chain, w.now)
      then var e := Handed(cur[i], w.now, w.visibility); TakenUpTo(w, cur[i := e], out + [DeliveryOf(e)], i + 1)
      else TakenUpTo(w, cur, out, i + 1)
  {
    assert cur[i..][0] == cur[i] && w.es[i..][0] == w.es[i];
    if Eligible(cur[i], w.inflight, w.chain, w.now) {
      DecideStep(w, cur, out, i, Handed(cur[i], w.now, w.visibility), out + [DeliveryOf(Handed(cur[i], w.now, w.visibility))]);
    } else {
      assert cur[i := cur[i]] == cur;
      DecideStep(w, cur, out, i, cur[i], out);
    }
  }

  lemma {:induction false} RestUnfolds(w: Walk, i: nat, taken: nat)
    requires i < |w.es| && taken < w.max
    ensures Rest(w, i, taken) ==
      if Eligible(w.es[i], w.inflight, w.chain, w.now) then [Handed(w.es[i], w.now, w.visibility)] + Rest(w, i + 1, taken + 1)
      else [w.es[i]] + Rest(w, i + 1, taken)
  {
    assert w.es[i..][0] == w.es[i] && w.es[i..][1..] == w.es[i + 1..];
  }

  lemma {:induction false} DecideStep(w: Walk, cur: seq<Entry>, out: seq<Delivery>, i: nat, e: Entry, out': seq<Delivery>)
    requires TakenUpTo(w, cur, out, i) && i < |cur| && |out| < w.max && cur[i] == w.es[i]
    requires e == if Eligible(cur[i], w.inflight, w.chain, w.now) then Handed(cur[i], w.now, w.visibility) else cur[i]
    requires out' == out + if e != cur[i] then [DeliveryOf(e)] else []
    ensures TakenUpTo(w, cur[i := e], out', i + 1)
  {
    DecideEntries(w, cur, |out|, i, e);
    DecideDeliveries(w.es, cur, out, i, e);
  }

  lemma {:induction false} DecideEntries(w: Walk, cur: seq<Entry>, taken: nat, i: nat, e: Entry)
    requires |cur| == |w.es| && i < |cur| && taken < w.max && cur[i..] == w.es[i..]
    requires TakenEntries(w.es, w.inflight, w.chain, w.max, w.now, w.visibility) == cur[..i] + Rest(w, i, taken)
    requires e == if Eligible(w.es[i], w.inflight, w.chain, w.now) then Handed(w.es[i], w.now, w.visibility) else w.es[i]
    ensures var cur' := cur[i := e];
      && cur'[i + 1..] == w.es[i + 1..]
      && TakenEntries(w.es, w.inflight, w.chain, w.max, w.now, w.visibility)
         == cur'[..i + 1] + Rest(w, i + 1, if e != w.es[i] then taken + 1 else taken)
  {
    RestUnfolds(w, i, taken);
    OneMore(cur, i, e, Rest(w, i + 1, if e != w.es[i] then taken + 1 else taken));
    assert w.es[i..][1..] == w.es[i + 1..];
  }

  lemma {:induction false} DecideDeliveries(es: seq<Entry>, cur: seq<Entry>, out: seq<Delivery>, i: nat, e: Entry)
    requires |cur| == |es| && i < |cur| && out == Deliveries(es[..i], cur[..i])
    ensures Deliveries(es[..i + 1], cur[i := e][..i + 1]) == out + if e != es[i] then [DeliveryOf(e)] else []
  {
    DeliveriesAppend(es[..i], cur[..i], es[i], e);
    OneMore(cur, i, e, []);
    assert es[..i + 1] == es[..i] + [es[i]];
  }

  /** Deciding position i moves the boundary between the decided entries and the rest by one. */
  lemma OneMore(es: seq<Entry>, i: nat, e: Entry, rest: seq<Entry>)
    requires i < |es|
    ensures var es' := es[i := e];
      && es'[..i + 1] == es[..i] + [e] && es'[i + 1..] == es[i..][1..]
      && es[..i] + ([e] + rest) == es'[..i + 1] + rest
  {
  }

  /** Handing out changes no handle and no message. */
  lemma {:induction false} TakenKeeps(es: seq<Entry>, inflight: bool, chain: nat, max: nat, now: int, visibility: nat)
    ensures var out := TakenEntries(es, inflight, chain, max, now, visibility);
      forall k | 0 <= k < |es| :: out[k].id == es[k].id && out[k].message == es[k].message
  {
    if es != [] && max > 0 {
      TakenKeeps(es[1..], inflight, chain, if Eligible(es[0], inflight, chain, now) then max - 1 else max, now, visibility);
    }
  }

  lemma {:induction false} TakenOrdered(es: seq<Entry>, inflight: bool, chain: nat, max: nat, now: int, visibility: nat, next: nat)
    requires Ordered(es, next)
    ensures Ordered(TakenEntries(es, inflight, chain, max, now, visibility), next)
  {
    TakenKeeps(es, inflight, chain, max, now, visibility);
    var out := TakenEntries(es, inflight, chain, max, now, visibility);
    forall e | e in out
      ensures e.id < next
    {
      var k :| 0 <= k < |out| && out[k] == e;
      assert es[k] in es;
    }
  }

  lemma {:induction false} TakeEnd(w: Walk, cur: seq<Entry>, out: seq<Delivery>, i: nat)
    requires TakenUpTo(w, cur, out, i) && (i == |cur| || |out| == w.max)
    ensures cur == TakenEntries(w.es, w.inflight, w.chain, w.max, w.now, w.visibility)
    ensures out == Deliveries(w.es, cur)
  {
    assert cur == cur[..i] + cur[i..];
    DeliveriesUnchanged(w.es, cur, i);
  }

  lemma {:induction false} DeliveriesAppend(es: seq<Entry>, out: seq<Entry>, e: Entry, o: Entry)
    requires |es| == |out|
    ensures Deliveries(es + [e], out + [o]) == Deliveries(es, out) + (if o != e then [DeliveryOf(o)] else [])
  {
    if es == [] {
      assert Deliveries([], []) == [];
    } else {
      var es', out' := es + [e], out + [o];
      assert es'[0] == es[0] && out'[0] == out[0] && es'[1..] == es[1..] + [e] && out'[1..] == out[1..] + [o];
      DeliveriesAppend(es[1..], out[1..], e, o);
      var first := if out[0] != es[0] then [DeliveryOf(out[0])] else [];
      assert Deliveries(es', out') == first + Deliveries(es[1..] + [e], out[1..] + [o]);
    }
  }

  lemma {:induction false} DeliveriesUnchanged(es: seq<Entry>, out: seq<Entry>, i: nat)
    requires |es| == |out| && i <= |es| && es[i..] == out[i..]
    ensures Deliveries(es, out) == Deliveries(es[..i], out[..i])
    decreases |es|
  {
    if es != [] {
      assert i < |es| ==> es[i..][0] == es[i] && out[i..][0] == out[i];
      if i == 0 {
        assert es[1..] == es[0..][1..] && out[1..] == out[0..][1..];
        DeliveriesUnchanged(es[1..], out[1..], 0);
      } else {
        DeliveriesUnchanged(es[1..], out[1..], i - 1);
        assert es[..i][1..] == es[1..][..i - 1] && out[..i][1..] == out[1..][..i - 1];
        assert es[1..][i - 1..] == es[i..] && out[1..][i - 1..] == out[i..];
      }
    }
  }
}
