/**
  The listener's startup sweep: keyset pagination over pending rows while workers move rows out of
  `pending` and other listeners add rows between any two statements.
 */
module StartupSweep {
  import opened Basics
  import opened Rows

  /** (created_at, id): unique per row and fixed for its lifetime. */
  datatype Key = Key(createdAt: int, id: RowId)

  predicate Less(a: Key, b: Key) {
    a.createdAt < b.createdAt || (a.createdAt == b.createdAt && a.id < b.id)
  }

  predicate After(k: Key, cursor: Option<Key>) {
    cursor.None? || Less(cursor.value, k)
  }

  /** Later than the cursor, or as old with a higher id. */
  predicate Past(createdAt: int, id: RowId, cursor: Option<Key>) {
    match cursor
    case None => true
    case Some(c) => createdAt > c.createdAt || (createdAt == c.createdAt && id > c.id)
  }

  function KeyOf(rows: map<RowId, Row>, id: RowId): Key
    requires id in rows
  {
    Key(rows[id].createdAt, id)
  }

  predicate Sweepable(r: Row) {
    r.status == Pending && r.hash.None?
  }

  /** Rows a page may contain. */
  function Candidates(rows: map<RowId, Row>, cursor: Option<Key>): set<RowId> {
    set id | id in rows && rows[id].status == Pending && After(KeyOf(rows, id), cursor)
  }

  predicate IsFirst(rows: map<RowId, Row>, ids: set<RowId>, a: RowId)
    requires ids <= rows.Keys
  {
    a in ids && forall b | b in ids && b != a :: Less(KeyOf(rows, a), KeyOf(rows, b))
  }

  lemma {:induction false} FirstExists(rows: map<RowId, Row>, ids: set<RowId>)
    requires ids != {} && ids <= rows.Keys
    ensures exists a :: IsFirst(rows, ids, a)
    decreases ids
  {
    var x :| x in ids;
    var rest := ids - {x};
    assert ids == rest + {x};
    if rest == {} {
      assert IsFirst(rows, ids, x);
    } else {
      FirstExists(rows, rest);
      var y :| IsFirst(rows, rest, y);
      assert IsFirst(rows, ids, if Less(KeyOf(rows, x), KeyOf(rows, y)) then x else y);
    }
  }

  /** In ascending key order. */
  predicate InOrder(rows: map<RowId, Row>, page: seq<RowId>) {
    forall i, j | 0 <= i < j < |page| ::
      page[i] in rows && page[j] in rows && Less(KeyOf(rows, page[i]), KeyOf(rows, page[j]))
  }

  /** Every row of the page comes before `id`. */
  predicate AllBefore(rows: map<RowId, Row>, page: seq<RowId>, id: RowId)
    requires id in rows
  {
    forall i | 0 <= i < |page| :: page[i] in rows && Less(KeyOf(rows, page[i]), KeyOf(rows, id))
  }

  lemma OrderGrows(rows: map<RowId, Row>, page: seq<RowId>, id: RowId)
    requires id in rows && InOrder(rows, page) && AllBefore(rows, page, id)
    ensures InOrder(rows, page + [id])
  {
  }

  lemma BeforeGrows(rows: map<RowId, Row>, page: seq<RowId>, a: RowId, id: RowId)
    requires a in rows && id in rows && AllBefore(rows, page, id) && Less(KeyOf(rows, a), KeyOf(rows, id))
    ensures AllBefore(rows, page + [a], id)
  {
  }

  datatype Move = Move(id: RowId, row: Row)

  ghost predicate SameKeysAs(before: map<RowId, Row>, after: map<RowId, Row>) {
    forall id | id in before :: id in after && after[id].createdAt == before[id].createdAt
  }

  ghost predicate Steady(rows: map<RowId, Row>, steady: set<RowId>) {
    forall id | id in steady :: id in rows && Sweepable(rows[id])
  }

  /** Everything published lies at or before the cursor, once; no steady row there is missing. */
  ghost predicate Swept(rows: map<RowId, Row>, published: seq<RowId>, steady: set<RowId>, cursor: Option<Key>) {
    && (forall i | 0 <= i < |published| :: published[i] in rows && !After(KeyOf(rows, published[i]), cursor))
    && (forall i, j | 0 <= i < j < |published| :: published[i] != published[j])
    && (forall id | id in steady && id in rows && !After(KeyOf(rows, id), cursor) :: id in published)
  }

  /** After a page, everything up to its last key is swept; a short page was the last one. */
  lemma PageSwept(
    before: map<RowId, Row>, after: map<RowId, Row>, sent: seq<RowId>, published: seq<RowId>,
    kept: set<RowId>, steady: set<RowId>, page: seq<RowId>, cursor: Option<Key>, last: Key, batch: nat)
    requires Steady(before, kept) && Steady(after, steady) && steady <= kept && SameKeysAs(before, after)
    requires Swept(before, sent, kept, cursor)
    requires page != [] && forall id | id in page :: id in Candidates(before, cursor)
    requires page[|page| - 1] in before && last == KeyOf(before, page[|page| - 1])
    requires InOrder(before, page)
    requires forall id | id in Candidates(before, cursor) && id !in page :: |page| == batch && AllBefore(before, page, id)
    requires sent <= published && forall i | |sent| <= i < |published| :: published[i] in page
    requires forall i, j | 0 <= i < j < |published| :: published[i] != published[j]
    requires forall id | id in page && id in steady :: id in published
    ensures Swept(after, published, steady, Some(last))
    ensures |page| < batch ==> forall id | id in steady :: id in published
  {
    forall i | 0 <= i < |published|
      ensures published[i] in after && !After(KeyOf(after, published[i]), Some(last))
    {
      if i < |sent| {
        assert published[i] == sent[i];
        assert page[|page| - 1] in Candidates(before, cursor);
      } else {
        var k :| 0 <= k < |page| && page[k] == published[i];
        assert page[k] in Candidates(before, cursor);
      }
    }
    forall id | id in steady && (|page| < batch || !After(KeyOf(after, id), Some(last)))
      ensures id in published
    {
      assert id in kept && KeyOf(after, id) == KeyOf(before, id);
      if After(KeyOf(after, id), cursor) {
        assert id in Candidates(before, cursor);
        assert page[|page| - 1] in page;
      }
    }
  }

  class Sweep {
    var rows: map<RowId, Row>
    var published: seq<RowId>
    ghost var steady: set<RowId>      // pending without a relay hash at every moment so far
    ghost var seen: set<RowId>        // pending without a relay hash at some moment so far
    const backlog: set<Key>           // the finite set of rows that exist or will be inserted

    constructor (rows: map<RowId, Row>, backlog: set<Key>)
      requires forall id | id in rows :: KeyOf(rows, id) in backlog
      ensures this.rows == rows && this.backlog == backlog && published == []
      ensures steady == (set id | id in rows && rows[id].status == Pending && rows[id].hash.None?) && seen == steady && Valid()
    {
      this.rows, this.backlog, published := rows, backlog, [];
      steady := set id | id in rows && Sweepable(rows[id]);
      seen := steady;
    }

    ghost predicate Valid()
      reads this
    {
      && (forall id | id in rows :: KeyOf(rows, id) in backlog)
      && Steady(rows, steady)
      && (forall id | id in rows && rows[id].status == Pending && rows[id].hash.None? :: id in seen)
    }

    ghost predicate SameKeys(before: map<RowId, Row>)
      reads this
    {
      SameKeysAs(before, rows)
    }

    /** Workers move rows, listeners insert rows of the backlog. */
    method Others(schedule: seq<Move>)
      requires Valid()
      modifies this`rows, this`steady, this`seen
      ensures Valid() && steady <= old(steady) && old(seen) <= seen && SameKeys(old(rows))
    {
      for i := 0 to |schedule|
        invariant Valid() && steady <= old(steady) && old(seen) <= seen && SameKeys(old(rows))
      {
        Write(schedule[i]);
      }
    }

    method Write(m: Move)
      requires Valid()
      modifies this`rows, this`steady, this`seen
      ensures forall id | id in seen && id !in old(seen) :: id in rows && rows[id].status == Pending && rows[id].hash.None?
      ensures Valid() && steady <= old(steady) && old(seen) <= seen && SameKeys(old(rows))
    {
      if (if m.id in rows then m.row.createdAt == rows[m.id].createdAt else Key(m.row.createdAt, m.id) in backlog) {
        rows := rows[m.id := m.row];
        if !Sweepable(m.row) {
          steady := steady - {m.id};
        } else {
          seen := seen + {m.id};
        }
      }
    }

    /** SELECT ... WHERE status = 'pending' AND (created_at, id) > cursor ORDER BY created_at, id LIMIT batch. */
    method SelectPage(batch: nat, cursor: Option<Key>) returns (page: seq<RowId>)
      requires Valid()
      ensures |page| <= batch && forall id | id in page :: id in Candidates(rows, cursor)
      ensures InOrder(rows, page)
      ensures forall id | id in page :: id in rows && rows[id].status == Pending && Past(rows[id].createdAt, id, cursor)
      ensures forall i, j | 0 <= i < j < |page| ::
        rows[page[i]].createdAt < rows[page[j]].createdAt || (rows[page[i]].createdAt == rows[page[j]].createdAt && page[i] < page[j])
      ensures |page| < batch ==>
        forall id | id in rows && rows[id].status == Pending && Past(rows[id].createdAt, id, cursor) :: id in page
      ensures forall id | id in Candidates(rows, cursor) && id !in page :: |page| == batch && AllBefore(rows, page, id)
    {
      var left := Candidates(rows, cursor);
      page := [];
      while left != {} && |page| < batch
        invariant |page| <= batch && left <= Candidates(rows, cursor)
        invariant forall id | id in page :: id in Candidates(rows, cursor)
        invariant forall id | id in Candidates(rows, cursor) :: id in left || id in page
        invariant InOrder(rows, page)
        invariant forall id | id in left :: AllBefore(rows, page, id)
        decreases left
      {
        FirstExists(rows, left);
        var a :| IsFirst(rows, left, a);
        OrderGrows(rows, page, a);
        forall id | id in left - {a}
          ensures AllBefore(rows, page + [a], id)
        {
          BeforeGrows(rows, page, a, id);
        }
        page, left := page + [a], left - {a};
      }
    }

    /** Keys still ahead of the cursor: what is left of the backlog. */
    ghost function Ahead(cursor: Option<Key>): set<Key> {
      set k | k in backlog && After(k, cursor)
    }

    ghost predicate SweptTo(cursor: Option<Key>)
      reads this
    {
      Swept(rows, published, steady, cursor)
    }

    /** Publish one page; the snapshot decides, whatever happens to the rows meanwhile. */
    method PublishPage(page: seq<RowId>, cursor: Option<Key>, others: nat -> seq<Move>)
      requires Valid() && SweptTo(cursor)
      requires forall i | 0 <= i < |page| :: page[i] in Candidates(rows, cursor)
      requires forall i, j | 0 <= i < j < |page| :: page[i] != page[j]
      modifies this
      ensures Valid() && steady <= old(steady) && SameKeys(old(rows))
      ensures old(published) <= published
      ensures old(seen) <= seen && forall i | |old(published)| <= i < |published| :: published[i] in seen
      ensures forall i | |old(published)| <= i < |published| :: published[i] in page
      ensures forall i, j | 0 <= i < j < |published| :: published[i] != published[j]
      ensures forall id | id in page && id in steady :: id in published
      ensures |published| <= |old(published)| + |page|
    {
      var snaps := rows;
      for n := 0 to |page|
        invariant Valid() && steady <= old(steady) && SameKeys(old(rows)) && SameKeys(snaps)
        invariant old(published) <= published && |published| <= |old(published)| + n
        invariant old(seen) <= seen && forall i | |old(published)| <= i < |published| :: published[i] in seen
        invariant forall i | |old(published)| <= i < |published| :: published[i] in page[..n]
        invariant forall i, j | 0 <= i < j < |published| :: published[i] != published[j]
        invariant forall id | id in page[..n] && id in steady :: id in published
      {
        assert page[..n + 1] == page[..n] + [page[n]];
        assert page[n] !in page[..n] && page[n] !in old(published);
        if snaps[page[n]].hash.None? {
          published := published + [page[n]];
        }
        Others(others(n));
      }
      assert page[..|page|] == page;
    }

    /**
      The sweep. Every row that stays pending without a relay hash throughout is published exactly
      once, nothing is published twice, and the loop ends on any finite backlog.
     */
    method RepublishPending(batch: nat, others: (nat, nat) -> seq<Move>) returns (total: nat)
      requires Valid() && published == [] && batch >= 1
      modifies this
      ensures Valid() && steady <= old(steady)
      ensures forall id | id in steady :: id in published
      ensures forall i | 0 <= i < |published| :: published[i] in seen
      ensures forall i, j | 0 <= i < j < |published| :: published[i] != published[j]
      ensures |published| <= total
    {
      var cursor: Option<Key> := None;
      var round, swept := 0, false;
      total := 0;
      while !swept
        invariant swept ==> forall id | id in steady :: id in published
        invariant forall i | 0 <= i < |published| :: published[i] in seen
        invariant Valid() && SweptTo(cursor) && steady <= old(steady) && |published| <= total
        decreases !swept, Ahead(cursor)
      {
        var page := SelectPage(batch, cursor);
        if page == [] {
          assert forall id | id in steady :: After(KeyOf(rows, id), cursor) ==> id in Candidates(rows, cursor);
          swept := true;
        } else {
          assert page[|page| - 1] in Candidates(rows, cursor);
          var last := KeyOf(rows, page[|page| - 1]);
          ghost var before, sent, kept := rows, published, steady;
          PublishPage(page, cursor, (n: nat) => others(round, n));
          PageSwept(before, rows, sent, published, kept, steady, page, cursor, last, batch);
          total := total + |page|;
          assert last in Ahead(cursor) && last !in Ahead(Some(last));
          swept := |page| < batch;
          cursor, round := Some(last), round + 1;
        }
      }
    }
  }
}
