/**
  The block-range listener of one source chain: any number of concurrent scanners, crashes included,
  share a cursor row and the transactions table.
 */
module Listener {
  import opened Basics

  type ListenerId = nat

  /** The source transaction a row is keyed by; two events of one transaction share it. */
  type Key = nat

  /** The finalized source chain: correlatable events of each block, and where scanning starts. */
  datatype Source = Source(events: int -> set<Key>, genesis: int)

  datatype ScannerAt =
    | Off
    | Initialised
    | HasCursor(cursor: int)
    | Scanned(cursor: int, last: int, found: set<Key>)

  /** block_tracker.last_scanned_block, the keys that have a row, and every scanner's point. */
  datatype State = State(cursor: Option<int>, keys: set<Key>, scanners: map<ListenerId, ScannerAt>)

  predicate Init(s: State) {
    s.cursor == None && s.scanners == map[]
  }

  function At(s: State, l: ListenerId): ScannerAt {
    if l in s.scanners then s.scanners[l] else Off
  }

  /** The source transactions with a correlatable event in blocks from..to. */
  function Scan(src: Source, from: int, last: int): set<Key>
    decreases last - from + 1
  {
    if from > last then {} else src.events(from) + Scan(src, from + 1, last)
  }

  datatype Step =
    | InitCursor(l: ListenerId)
    | ReadCursor(l: ListenerId)
    | ScanRange(l: ListenerId, head: int, span: int)
    | Commit(l: ListenerId)
    | CrashScanner(l: ListenerId)
    | InsertByWorker(k: Key)

  predicate Enabled(s: State, step: Step) {
    match step
    case InitCursor(l) => At(s, l) == Off
    case ReadCursor(l) => At(s, l) == Initialised && s.cursor.Some?
    case ScanRange(l, _, _) => At(s, l).HasCursor?
    case Commit(l) => At(s, l).Scanned?
    case CrashScanner(_) => true
    case InsertByWorker(_) => true
  }

  function Goto(s: State, l: ListenerId, at: ScannerAt): State {
    s.(scanners := s.scanners[l := at])
  }

  /** The cursor only moves forward. */
  function Advanced(cursor: Option<int>, last: int): Option<int> {
    if cursor.Some? && cursor.value < last then Some(last) else cursor
  }

  function Apply(src: Source, s: State, step: Step): State
    requires Enabled(s, step)
  {
    match step
    // The cursor is the last block already scanned, so genesis - 1 means nothing yet.
    case InitCursor(l) =>
      Goto(if s.cursor.None? then s.(cursor := Some(src.genesis - 1)) else s, l, Initialised)
    case ReadCursor(l) => Goto(s, l, HasCursor(s.cursor.value))
    case ScanRange(l, head, span) =>
      var c := At(s, l).cursor;
      if head <= c then Goto(s, l, Off)
      else
        var last := if head < c + span then head else c + span;
        Goto(s, l, Scanned(c, last, Scan(src, c + 1, last)))
    // Rows and cursor in one transaction.
    case Commit(l) =>
      var at := At(s, l);
      Goto(s.(keys := s.keys + at.found, cursor := Advanced(s.cursor, at.last)), l, Off)
    case CrashScanner(l) => Goto(s, l, Off)
    case InsertByWorker(k) => s.(keys := s.keys + {k})
  }

  ghost predicate StepAt(src: Source, states: seq<State>, steps: seq<Step>, i: nat)
    requires i < |steps| && i + 1 < |states|
  {
    Enabled(states[i], steps[i]) && states[i + 1] == Apply(src, states[i], steps[i])
  }

  ghost predicate Run(src: Source, states: seq<State>, steps: seq<Step>) {
    && |states| == |steps| + 1
    && Init(states[0])
    && forall i | 0 <= i < |steps| :: StepAt(src, states, steps, i)
  }

  lemma RunExtends(src: Source, states: seq<State>, steps: seq<Step>, step: Step)
    requires Run(src, states, steps) && Enabled(states[|steps|], step)
    ensures Run(src, states + [Apply(src, states[|steps|], step)], steps + [step])
  {
    var states', steps' := states + [Apply(src, states[|steps|], step)], steps + [step];
    forall i | 0 <= i < |steps'|
      ensures StepAt(src, states', steps', i)
    {
      assert i < |steps| ==> StepAt(src, states, steps, i);
    }
  }

  // ---- Coverage ----

  ghost predicate BlockCovered(src: Source, keys: set<Key>, b: int) {
    src.events(b) <= keys
  }

  /** Every block from genesis through `upto` has all its rows. */
  ghost predicate Covered(src: Source, keys: set<Key>, upto: int) {
    forall b | src.genesis <= b <= upto :: BlockCovered(src, keys, b)
  }

  ghost predicate ScannerOk(src: Source, s: State, at: ScannerAt) {
    match at
    case Off => true
    case Initialised => s.cursor.Some?
    case HasCursor(c) => s.cursor.Some? && src.genesis - 1 <= c <= s.cursor.value
    case Scanned(c, last, found) =>
      && s.cursor.Some? && src.genesis - 1 <= c <= s.cursor.value && found == Scan(src, c + 1, last)
      && forall b | c < b <= last :: BlockCovered(src, found, b)
  }

  ghost predicate Inv(src: Source, s: State) {
    && (s.cursor.Some? ==> src.genesis - 1 <= s.cursor.value && Covered(src, s.keys, s.cursor.value))
    && forall l | l in s.scanners :: ScannerOk(src, s, s.scanners[l])
  }

  /** The source transaction has a correlatable event in a block from `from` through `last`. */
  ghost predicate Occurs(src: Source, k: Key, from: int, last: int) {
    exists b :: from <= b <= last && k in src.events(b)
  }

  /** A scan finds exactly the source transactions of its blocks. */
  lemma {:induction false} ScanIsExact(src: Source, from: int, last: int, k: Key)
    ensures k in Scan(src, from, last) <==> Occurs(src, k, from, last)
    decreases last - from
  {
    if from <= last {
      ScanIsExact(src, from + 1, last, k);
    }
  }

  lemma {:induction false} ScanCovers(src: Source, from: int, last: int, b: int)
    requires from <= b <= last
    ensures BlockCovered(src, Scan(src, from, last), b)
    decreases last - from
  {
    if from < b {
      ScanCovers(src, from + 1, last, b);
    }
  }

  lemma StepInv(src: Source, s: State, step: Step)
    requires Inv(src, s) && Enabled(s, step)
    ensures Inv(src, Apply(src, s, step))
  {
    var s' := Apply(src, s, step);
    if step.ScanRange? && At(s', step.l).Scanned? {
      var at := At(s', step.l);
      forall b | at.cursor < b <= at.last
        ensures BlockCovered(src, at.found, b)
      {
        ScanCovers(src, at.cursor + 1, at.last, b);
      }
    }
    if step.Commit? {
      var at := At(s, step.l);
      forall b | src.genesis <= b <= s'.cursor.value
        ensures BlockCovered(src, s'.keys, b)
      {
        assert b <= s.cursor.value ==> BlockCovered(src, s.keys, b);
        assert at.cursor < b <= at.last ==> BlockCovered(src, at.found, b);
      }
    }
    forall b | s.cursor.Some? && src.genesis <= b <= s.cursor.value
      ensures BlockCovered(src, s'.keys, b)
    {
      assert BlockCovered(src, s.keys, b);
    }
  }

  lemma {:induction false} RunInv(src: Source, states: seq<State>, steps: seq<Step>, i: nat)
    requires Run(src, states, steps) && i < |states|
    ensures Inv(src, states[i])
  {
    if i > 0 {
      RunInv(src, states, steps, i - 1);
      assert StepAt(src, states, steps, i - 1);
      StepInv(src, states[i - 1], steps[i - 1]);
    }
  }

  /**
    Coverage: in every reachable state each source transaction with a correlatable event in a block
    from genesis through the stored cursor has a row.
   */
  lemma EveryEventHasARow(src: Source, states: seq<State>, steps: seq<Step>, i: nat, b: int, k: Key)
    requires Run(src, states, steps) && i < |states| && states[i].cursor.Some?
    requires src.genesis <= b <= states[i].cursor.value && k in src.events(b)
    ensures k in states[i].keys
  {
    RunInv(src, states, steps, i);
    assert BlockCovered(src, states[i].keys, b);
  }

  /** The cursor never moves backward, and rows never disappear. */
  lemma {:induction false} CursorIsMonotone(src: Source, states: seq<State>, steps: seq<Step>, i: nat, j: nat)
    requires Run(src, states, steps) && i <= j < |states|
    ensures states[i].keys <= states[j].keys
    ensures states[i].cursor.Some? ==> states[j].cursor.Some? && states[i].cursor.value <= states[j].cursor.value
    decreases j
  {
    if i < j {
      CursorIsMonotone(src, states, steps, i, j - 1);
      assert StepAt(src, states, steps, j - 1);
    }
  }

  /** Only a commit advances an existing cursor, exactly to the last block its scan covered. */
  lemma CursorMovesByCommit(src: Source, states: seq<State>, steps: seq<Step>, i: nat)
    requires Run(src, states, steps) && i < |steps|
    requires states[i].cursor.Some? && states[i + 1].cursor != states[i].cursor
    ensures steps[i].Commit? && At(states[i], steps[i].l).Scanned? && states[i + 1].cursor == Some(At(states[i], steps[i].l).last)
  {
    assert StepAt(src, states, steps, i);
  }

  // ---- The scan routine ----

  class Scanner {
    const src: Source
    var state: State
    ghost var states: seq<State>
    ghost var steps: seq<Step>

    ghost predicate Valid()
      reads this
    {
      Run(src, states, steps) && states[|states| - 1] == state
    }

    constructor (src: Source, s: State)
      requires Init(s)
      ensures Valid() && state == s && this.src == src && steps == []
    {
      this.src, state, states, steps := src, s, [s], [];
    }

    method Do(step: Step)
      requires Valid() && Enabled(state, step)
      modifies this
      ensures Valid() && state == Apply(src, old(state), step) && steps == old(steps) + [step]
    {
      RunExtends(src, states, steps, step);
      state := Apply(src, state, step);
      states, steps := states + [state], steps + [step];
    }

    /** Other scanners and workers act between two statements. */
    method Others(l: ListenerId, schedule: seq<Step>)
      requires Valid()
      modifies this
      ensures Valid() && old(steps) <= steps && At(state, l) == old(At(state, l))
      ensures old(state.keys) <= state.keys
      ensures old(state.cursor).Some? ==> state.cursor.Some? && old(state.cursor).value <= state.cursor.value
    {
      for i := 0 to |schedule|
        invariant Valid() && old(steps) <= steps && At(state, l) == old(At(state, l))
        invariant old(state.keys) <= state.keys
        invariant old(state.cursor).Some? ==> state.cursor.Some? && old(state.cursor).value <= state.cursor.value
      {
        var step := schedule[i];
        if Enabled(state, step) && (step.InsertByWorker? || step.l != l) {
          Do(step);
        }
      }
    }

    lemma CurrentInv()
      requires Valid()
      ensures Inv(src, state)
    {
      RunInv(src, states, steps, |states| - 1);
    }

    /** Insert the genesis cursor if there is none, then read the stored one. */
    method ReadOrInit(l: ListenerId, others: seq<Step>) returns (cursor: int)
      requires Valid() && At(state, l) == Off
      modifies this
      ensures Valid() && old(steps) <= steps && At(state, l) == HasCursor(cursor)
      ensures state.cursor == Some(cursor) && src.genesis - 1 <= cursor
      ensures old(state.cursor).Some? ==> old(state.cursor).value <= cursor
    {
      Do(InitCursor(l));
      Others(l, others);
      Do(ReadCursor(l));
      cursor := At(state, l).cursor;
      CurrentInv();
    }

    /** Rows and cursor commit together; whatever others did, the cursor has reached `last`. */
    method CommitScan(l: ListenerId) returns (last: int)
      requires Valid() && At(state, l).Scanned?
      modifies this
      ensures Valid() && old(steps) <= steps && At(state, l) == Off && last == old(At(state, l)).last
      ensures state.cursor.Some? && last <= state.cursor.value && Covered(src, state.keys, state.cursor.value)
      ensures old(state.cursor).Some? && state.cursor.value == if old(state.cursor).value < last then last else old(state.cursor).value
      ensures forall k :: k in state.keys <==> k in old(state.keys) || Occurs(src, k, old(At(state, l)).cursor + 1, last)
      ensures old(state.cursor).Some? ==> old(state.cursor).value <= state.cursor.value
    {
      CurrentInv();
      last := At(state, l).last;
      ghost var from := At(state, l).cursor + 1;
      Do(Commit(l));
      CurrentInv();
      forall k
        ensures k in Scan(src, from, last) <==> Occurs(src, k, from, last)
      {
        ScanIsExact(src, from, last, k);
      }
    }

    /** One tick: read the cursor, scan at most `span` blocks up to the head, record atomically. */
    method ScanChainOnce(l: ListenerId, head: int, span: int, others: nat -> seq<Step>) returns (from: int, last: int)
      requires Valid() && At(state, l) == Off
      modifies this
      ensures Valid() && old(steps) <= steps && At(state, l) == Off
      ensures state.cursor.Some? && last <= state.cursor.value
      ensures Covered(src, state.keys, state.cursor.value)
      ensures old(state.cursor).Some? ==> old(state.cursor).value <= state.cursor.value
      ensures (from == last && head <= last) || (from <= head && last == Min(head, from - 1 + span))
    {
      var cursor := ReadOrInit(l, others(0));
      Others(l, others(1));
      StartScan(l, head, span);
      if At(state, l) == Off {
        CurrentInv();
        return cursor, cursor;
      }
      Others(l, others(2));
      last := CommitScan(l);
      from := cursor + 1;
    }

    method StartScan(l: ListenerId, head: int, span: int)
      requires Valid() && At(state, l).HasCursor?
      modifies this
      ensures Valid() && old(steps) <= steps && state.cursor == old(state.cursor) && state.keys == old(state.keys)
      ensures var cursor := old(At(state, l)).cursor;
        if head <= cursor then At(state, l) == Off
        else At(state, l).Scanned? && At(state, l).last == Min(head, cursor + span)
    {
      Do(ScanRange(l, head, span));
    }
  }
}
