/**
 * The configuration diff between a local and a remote tree: what would be
 * pushed and what would be pulled, key by key, apart from excluded paths.
 */
module ConfigDiff {
  import opened Basics

  datatype Primitive = Null | Truth(b: bool) | Number(n: int) | Text(s: string)

  datatype Json = Leaf(value: Primitive) | Obj(fields: map<string, Json>)

  type Fields = map<string, Json>

  datatype Delta =
    | Change(push: Option<Json>, pull: Option<Json>)
    | Nested(entries: map<string, Delta>)

  function Join(path: string, key: string): string {
    if path != "" then path + "." + key else key
  }

  predicate Excluded(excluded: seq<string>, path: string, key: string) {
    Join(path, key) in excluded
  }

  function Lookup(a: Fields, k: string): Option<Json> {
    if k in a then Some(a[k]) else None
  }

  // ---- The diff as a function ----

  /** The entry of the diff at key `k`, or nothing where there is no difference to report. */
  function Entry(a: Fields, b: Fields, excluded: seq<string>, path: string, k: string): (d: Option<Delta>)
    decreases Obj(a), 0
  {
    if (k !in a && k !in b) || Excluded(excluded, path, k) then None
    else if k in a && k in b && a[k].Obj? && b[k].Obj? then
      var inner := Diff(a[k].fields, b[k].fields, excluded, Join(path, k));
      if inner == map[] then None else Some(Nested(inner))
    else if Lookup(a, k) == Lookup(b, k) then None
    else Some(Change(Lookup(a, k), Lookup(b, k)))
  }

  function Diff(a: Fields, b: Fields, excluded: seq<string>, path: string): (d: map<string, Delta>)
    decreases Obj(a), 1
  {
    map k | k in a.Keys + b.Keys && Entry(a, b, excluded, path, k).Some? :: Entry(a, b, excluded, path, k).value
  }

  // ---- The diff as it is computed: collect, then prune ----

  /** The entry before pruning: nested diffs are recorded even when they are empty. */
  ghost function Unpruned(a: Fields, b: Fields, excluded: seq<string>, path: string, k: string): Option<Delta> {
    if (k !in a && k !in b) || Excluded(excluded, path, k) then None
    else if k in a && k in b && a[k].Obj? && b[k].Obj? then
      Some(Nested(Diff(a[k].fields, b[k].fields, excluded, Join(path, k))))
    else if Lookup(a, k) == Lookup(b, k) then None
    else Some(Change(Lookup(a, k), Lookup(b, k)))
  }

  function Found(m: map<string, Delta>, k: string): Option<Delta> {
    if k in m then Some(m[k]) else None
  }

  /** `result` holds the unpruned entries of the keys for which `done` holds, and nothing else. */
  ghost predicate Collected(
    result: map<string, Delta>, a: Fields, b: Fields, excluded: seq<string>, path: string, done: set<string>)
  {
    forall k :: Found(result, k) == (if k in done then Unpruned(a, b, excluded, path, k) else None)
  }

  /** The keys in `todo` are still unpruned; every other key is as the diff has it. */
  ghost predicate Pruned(
    result: map<string, Delta>, a: Fields, b: Fields, excluded: seq<string>, path: string, todo: set<string>)
  {
    forall k ::
      Found(result, k) ==
      (if k in todo then Unpruned(a, b, excluded, path, k) else Entry(a, b, excluded, path, k))
  }

  /** One more key is done: its entry is written where it has one, and no other entry moves. */
  lemma CollectStep(
    before: map<string, Delta>, after: map<string, Delta>, a: Fields, b: Fields, excluded: seq<string>,
    path: string, done: set<string>, key: string)
    requires Collected(before, a, b, excluded, path, done)
    requires Found(after, key) == Unpruned(a, b, excluded, path, key)
    requires forall k | k != key :: Found(after, k) == Found(before, k)
    ensures Collected(after, a, b, excluded, path, done + {key})
  {
  }

  /** First loop: every key of the local tree. */
  method CollectLocal(obj1: Fields, obj2: Fields, excluded: seq<string>, currentPath: string)
    returns (result: map<string, Delta>)
    ensures Collected(result, obj1, obj2, excluded, currentPath, obj1.Keys)
    decreases Obj(obj1), 0
  {
    result := map[];
    var todo := obj1.Keys;
    while todo != {}
      invariant todo <= obj1.Keys
      invariant Collected(result, obj1, obj2, excluded, currentPath, obj1.Keys - todo)
      decreases |todo|
    {
      var key :| key in todo;
      ghost var before, done := result, obj1.Keys - todo;
      assert Found(before, key).None?;
      if Excluded(excluded, currentPath, key) {
      } else if key in obj2 {
        if obj1[key].Obj? && obj2[key].Obj? {
          assert obj1[key] == Obj(obj1[key].fields);
          var inner := DiffObjects(obj1[key].fields, obj2[key].fields, excluded, Join(currentPath, key));
          result := result[key := Nested(inner)];
        } else if obj1[key] != obj2[key] {
          result := result[key := Change(Some(obj1[key]), Some(obj2[key]))];
        }
      } else {
        result := result[key := Change(Some(obj1[key]), None)];
      }
      CollectStep(before, result, obj1, obj2, excluded, currentPath, done, key);
      todo := todo - {key};
      assert done + {key} == obj1.Keys - todo;
    }
    assert obj1.Keys - todo == obj1.Keys;
  }

  lemma RemoteOnly(a: Fields, b: Fields, excluded: seq<string>, path: string, k: string)
    requires k !in a && k in b
    ensures Unpruned(a, b, excluded, path, k) ==
      (if Excluded(excluded, path, k) then None else Some(Change(None, Some(b[k]))))
  {
  }

  /** Second loop: the keys only the remote tree has. */
  method CollectRemote(
    start: map<string, Delta>, obj1: Fields, obj2: Fields, excluded: seq<string>, currentPath: string)
    returns (result: map<string, Delta>)
    requires Collected(start, obj1, obj2, excluded, currentPath, obj1.Keys)
    ensures Collected(result, obj1, obj2, excluded, currentPath, obj1.Keys + obj2.Keys)
  {
    result := start;
    var todo := obj2.Keys;
    ghost var done := obj1.Keys;
    while todo != {}
      invariant obj1.Keys <= done
      invariant forall k :: k in done || k in todo <==> k in obj1 || k in obj2
      invariant forall k | k in todo :: k in done ==> k in obj1
      invariant Collected(result, obj1, obj2, excluded, currentPath, done)
      decreases |todo|
    {
      var key :| key in todo;
      ghost var before := result;
      assert key !in obj1 ==> Found(before, key).None?;
      if key !in obj1 {
        RemoteOnly(obj1, obj2, excluded, currentPath, key);
        if !Excluded(excluded, currentPath, key) {
          result := result[key := Change(None, Some(obj2[key]))];
        }
        CollectStep(before, result, obj1, obj2, excluded, currentPath, done, key);
        done := done + {key};
      }
      todo := todo - {key};
    }
    assert done == obj1.Keys + obj2.Keys;
  }

  /** Third loop: drop the nested diffs that came out empty. */
  method Prune(
    start: map<string, Delta>, ghost obj1: Fields, ghost obj2: Fields, ghost excluded: seq<string>,
    ghost currentPath: string)
    returns (result: map<string, Delta>)
    requires Collected(start, obj1, obj2, excluded, currentPath, obj1.Keys + obj2.Keys)
    ensures result == Diff(obj1, obj2, excluded, currentPath)
  {
    result := start;
    var todo := result.Keys;
    forall k
      ensures k !in todo ==> Entry(obj1, obj2, excluded, currentPath, k).None?
    {
      assert Found(result, k).None? ==> Entry(obj1, obj2, excluded, currentPath, k).None?;
    }
    while todo != {}
      invariant Pruned(result, obj1, obj2, excluded, currentPath, todo)
      decreases |todo|
    {
      var key :| key in todo;
      todo := todo - {key};
      if key in result && result[key].Nested? && result[key].entries == map[] {
        result := result - {key};
      }
    }
    SameMap(result, Diff(obj1, obj2, excluded, currentPath));
  }

  method DiffObjects(obj1: Fields, obj2: Fields, excluded: seq<string>, currentPath: string)
    returns (result: map<string, Delta>)
    ensures result == Diff(obj1, obj2, excluded, currentPath)
    decreases Obj(obj1), 1
  {
    result := CollectLocal(obj1, obj2, excluded, currentPath);
    result := CollectRemote(result, obj1, obj2, excluded, currentPath);
    result := Prune(result, obj1, obj2, excluded, currentPath);
  }

  lemma SameMap(m: map<string, Delta>, n: map<string, Delta>)
    requires forall k :: Found(m, k) == Found(n, k)
    ensures m == n
  {
    forall k
      ensures k in m <==> k in n
      ensures k in m && k in n ==> m[k] == n[k]
    {
      assert Found(m, k) == Found(n, k);
    }
  }

  // ---- What the diff is measured against ----

  datatype Shape = Missing | Branch | Holds(value: Primitive)

  /** What a tree shows at a path of keys. */
  function Probe(t: Json, p: seq<string>): Shape
    decreases |p|
  {
    if p == [] then (if t.Obj? then Branch else Holds(t.value))
    else if t.Obj? && p[0] in t.fields then Probe(t.fields[p[0]], p[1..])
    else Missing
  }

  /** No key on the way, the last one included, is excluded. */
  predicate Visible(excluded: seq<string>, path: string, p: seq<string>)
    decreases |p|
  {
    p == [] || (!Excluded(excluded, path, p[0]) && Visible(excluded, Join(path, p[0]), p[1..]))
  }

  /** The two trees show the same at every path that is not excluded. */
  ghost predicate Indistinguishable(a: Fields, b: Fields, excluded: seq<string>, path: string) {
    forall p | Visible(excluded, path, p) :: Probe(Obj(a), p) == Probe(Obj(b), p)
  }

  ghost predicate AgreeAt(a: Fields, b: Fields, excluded: seq<string>, path: string, k: string)
    decreases Obj(a), 0
  {
    (k in a || k in b) && !Excluded(excluded, path, k) ==>
      && k in a && k in b
      && if a[k].Obj? && b[k].Obj? then Agree(a[k].fields, b[k].fields, excluded, Join(path, k)) else a[k] == b[k]
  }

  /** The same said key by key. */
  ghost predicate Agree(a: Fields, b: Fields, excluded: seq<string>, path: string)
    decreases Obj(a), 1
  {
    forall k :: AgreeAt(a, b, excluded, path, k)
  }

  lemma {:induction false} AgreeShowsSame(a: Fields, b: Fields, excluded: seq<string>, path: string, p: seq<string>)
    requires Agree(a, b, excluded, path) && Visible(excluded, path, p)
    ensures Probe(Obj(a), p) == Probe(Obj(b), p)
    decreases |p|
  {
    if p != [] {
      var k := p[0];
      assert AgreeAt(a, b, excluded, path, k);
      if k in a && a[k].Obj? && b[k].Obj? {
        AgreeShowsSame(a[k].fields, b[k].fields, excluded, Join(path, k), p[1..]);
      }
    }
  }

  lemma {:induction false} SameShowsAgree(a: Fields, b: Fields, excluded: seq<string>, path: string)
    requires Indistinguishable(a, b, excluded, path)
    ensures Agree(a, b, excluded, path)
    decreases Obj(a)
  {
    forall k | (k in a || k in b) && !Excluded(excluded, path, k)
      ensures AgreeAt(a, b, excluded, path, k)
    {
      assert Visible(excluded, path, [k]);
      assert Probe(Obj(a), [k]) == Probe(Obj(b), [k]);
      assert k in a ==> Probe(Obj(a), [k]) == Probe(a[k], []);
      assert k in b ==> Probe(Obj(b), [k]) == Probe(b[k], []);
      if a[k].Obj? && b[k].Obj? {
        var x, y := a[k].fields, b[k].fields;
        forall q | Visible(excluded, Join(path, k), q)
          ensures Probe(Obj(x), q) == Probe(Obj(y), q)
        {
          var p := [k] + q;
          assert p[1..] == q;
          assert Visible(excluded, path, p);
          assert Probe(Obj(a), p) == Probe(Obj(b), p);
        }
        assert Obj(x) == a[k];
        SameShowsAgree(x, y, excluded, Join(path, k));
      }
    }
  }

  lemma AgreeIffIndistinguishable(a: Fields, b: Fields, excluded: seq<string>, path: string)
    ensures Agree(a, b, excluded, path) <==> Indistinguishable(a, b, excluded, path)
  {
    if Agree(a, b, excluded, path) {
      forall p | Visible(excluded, path, p)
        ensures Probe(Obj(a), p) == Probe(Obj(b), p)
      {
        AgreeShowsSame(a, b, excluded, path, p);
      }
    } else if Indistinguishable(a, b, excluded, path) {
      SameShowsAgree(a, b, excluded, path);
    }
  }

  // ---- An empty diff ----

  lemma {:induction false} EmptyIffAgree(a: Fields, b: Fields, excluded: seq<string>, path: string)
    ensures Diff(a, b, excluded, path) == map[] <==> Agree(a, b, excluded, path)
    decreases Obj(a)
  {
    forall k
      ensures Entry(a, b, excluded, path, k).None? <==> AgreeAt(a, b, excluded, path, k)
    {
      if k in a && k in b && a[k].Obj? && b[k].Obj? {
        assert Obj(a[k].fields) == a[k];
        EmptyIffAgree(a[k].fields, b[k].fields, excluded, Join(path, k));
      }
    }
    var d := Diff(a, b, excluded, path);
    if d == map[] {
      forall k
        ensures AgreeAt(a, b, excluded, path, k)
      {
        assert k !in d;
      }
    } else {
      var k :| k in d;
      assert !AgreeAt(a, b, excluded, path, k);
    }
  }

  /** The diff is empty exactly when the trees show the same at every path that is not excluded. */
  lemma EmptyDiffMeansSame(a: Fields, b: Fields, excluded: seq<string>, path: string)
    ensures Diff(a, b, excluded, path) == map[] <==> Indistinguishable(a, b, excluded, path)
  {
    EmptyIffAgree(a, b, excluded, path);
    AgreeIffIndistinguishable(a, b, excluded, path);
  }

  // ---- What is reported where ----

  /** The entry of a diff at a path of keys. */
  function DeltaAt(d: map<string, Delta>, p: seq<string>): Option<Delta>
    requires p != []
    decreases |p|
  {
    if p[0] !in d then None
    else if |p| == 1 then Some(d[p[0]])
    else match d[p[0]]
      case Nested(entries) => DeltaAt(entries, p[1..])
      case Change(_, _) => None
  }

  /** The dotted path of a list of keys. */
  function Dotted(path: string, p: seq<string>): string
    decreases |p|
  {
    if p == [] then path else Dotted(Join(path, p[0]), p[1..])
  }

  predicate BothObjects(x: Option<Json>, y: Option<Json>) {
    x.Some? && y.Some? && x.value.Obj? && y.value.Obj?
  }

  /**
    Exactly what is reported at a path: nothing at an excluded path or below a difference; the two sides
    where they differ and are not both objects; a nested diff where both are objects that differ somewhere
    visible below; and nothing where they agree.
   */
  lemma {:induction false} ReportsExactly(a: Fields, b: Fields, excluded: seq<string>, path: string, p: seq<string>)
    requires p != []
    ensures var d, x, y := DeltaAt(Diff(a, b, excluded, path), p), At(a, p), At(b, p);
      if !Visible(excluded, path, p) || !Descends(a, b, p) then d == None
      else if BothObjects(x, y) then
        var inner := Diff(x.value.fields, y.value.fields, excluded, Dotted(path, p));
        d == if inner == map[] then None else Some(Nested(inner))
      else d == if x == y then None else Some(Change(x, y))
    decreases |p|
  {
    var d, k := Diff(a, b, excluded, path), p[0];
    assert Found(d, k) == Entry(a, b, excluded, path, k);
    if |p| == 1 {
      assert Dotted(path, p) == Join(path, k) by { assert p[1..] == []; }
      assert Visible(excluded, path, p) <==> !Excluded(excluded, path, k);
    } else if k in a && k in b && a[k].Obj? && b[k].Obj? {
      ReportsExactly(a[k].fields, b[k].fields, excluded, Join(path, k), p[1..]);
    }
  }

  // ---- Swapping the arguments ----

  function Flip(d: Delta): Delta
    decreases d, 1
  {
    match d
    case Change(push, pull) => Change(pull, push)
    case Nested(entries) => Nested(FlipAll(entries))
  }

  function FlipAll(m: map<string, Delta>): map<string, Delta>
    decreases Nested(m), 0
  {
    map k | k in m :: Flip(m[k])
  }

  function FlipFound(d: Option<Delta>): Option<Delta> {
    if d.Some? then Some(Flip(d.value)) else None
  }

  lemma SwapEntry(a: Fields, b: Fields, excluded: seq<string>, path: string, k: string)
    requires k in a && k in b && a[k].Obj? && b[k].Obj? ==>
      Diff(b[k].fields, a[k].fields, excluded, Join(path, k)) ==
      FlipAll(Diff(a[k].fields, b[k].fields, excluded, Join(path, k)))
    ensures Entry(b, a, excluded, path, k) == FlipFound(Entry(a, b, excluded, path, k))
  {
    if k in a && k in b && a[k].Obj? && b[k].Obj? {
      var inner := Diff(a[k].fields, b[k].fields, excluded, Join(path, k));
      if inner != map[] {
        var j :| j in inner;
        assert j in FlipAll(inner);
      }
    }
  }

  /** Comparing remote with local reports the same paths with push and pull exchanged. */
  lemma {:induction false} SwapExchangesPushAndPull(a: Fields, b: Fields, excluded: seq<string>, path: string)
    ensures Diff(b, a, excluded, path) == FlipAll(Diff(a, b, excluded, path))
    decreases Obj(a)
  {
    var there, back := Diff(a, b, excluded, path), Diff(b, a, excluded, path);
    forall k
      ensures Found(back, k) == Found(FlipAll(there), k)
    {
      if k in a && k in b && a[k].Obj? && b[k].Obj? {
        assert Obj(a[k].fields) == a[k];
        SwapExchangesPushAndPull(a[k].fields, b[k].fields, excluded, Join(path, k));
      }
      SwapEntry(a, b, excluded, path, k);
      assert Found(there, k) == Entry(a, b, excluded, path, k);
      assert Found(back, k) == Entry(b, a, excluded, path, k);
    }
    SameMap(back, FlipAll(there));
  }

  // ---- Applying the diff ----

  /** One field after pulling: replaced, removed, or descended into. */
  function PullField(local: Option<Json>, d: Delta): Option<Json>
    decreases d, 3
  {
    match d
    case Change(_, pull) => pull
    case Nested(entries) =>
      if local.Some? && local.value.Obj? then Some(Obj(Pull(local.value.fields, entries))) else local
  }

  function PulledAt(local: Fields, d: map<string, Delta>, k: string): Option<Json>
    decreases Nested(d), 1
  {
    if k in d then PullField(Lookup(local, k), d[k]) else Lookup(local, k)
  }

  /** The local tree with every pull side of the diff applied to it. */
  function Pull(local: Fields, d: map<string, Delta>): Fields
    decreases Nested(d), 2
  {
    map k | k in local.Keys + d.Keys && PulledAt(local, d, k).Some? :: PulledAt(local, d, k).value
  }

  lemma FieldsAfterPull(local: Fields, d: map<string, Delta>, k: string)
    ensures Lookup(Pull(local, d), k) == PulledAt(local, d, k)
  {
  }

  lemma SelfAgree(a: Fields, excluded: seq<string>, path: string)
    ensures Agree(a, a, excluded, path)
  {
    AgreeIffIndistinguishable(a, a, excluded, path);
  }

  lemma {:induction false} PullAgrees(local: Fields, remote: Fields, excluded: seq<string>, path: string)
    ensures Agree(Pull(local, Diff(local, remote, excluded, path)), remote, excluded, path)
    decreases Obj(local)
  {
    var d := Diff(local, remote, excluded, path);
    var pulled := Pull(local, d);
    forall k
      ensures AgreeAt(pulled, remote, excluded, path, k)
    {
      FieldsAfterPull(local, d, k);
      assert Found(d, k) == Entry(local, remote, excluded, path, k);
      if k in remote && remote[k].Obj? {
        SelfAgree(remote[k].fields, excluded, Join(path, k));
        if k in local && local[k].Obj? {
          assert Obj(local[k].fields) == local[k];
          PullAgrees(local[k].fields, remote[k].fields, excluded, Join(path, k));
          EmptyIffAgree(local[k].fields, remote[k].fields, excluded, Join(path, k));
        }
      }
    }
  }

  /** Applying the pull sides to the local tree gives the remote one at every path that is not excluded. */
  lemma PullGivesRemote(local: Fields, remote: Fields, excluded: seq<string>, path: string)
    ensures Indistinguishable(Pull(local, Diff(local, remote, excluded, path)), remote, excluded, path)
  {
    PullAgrees(local, remote, excluded, path);
    AgreeIffIndistinguishable(Pull(local, Diff(local, remote, excluded, path)), remote, excluded, path);
  }

  /** Applying the push sides to the remote tree gives the local one at every path that is not excluded. */
  lemma PushGivesLocal(local: Fields, remote: Fields, excluded: seq<string>, path: string)
    ensures Indistinguishable(Pull(remote, FlipAll(Diff(local, remote, excluded, path))), local, excluded, path)
  {
    SwapExchangesPushAndPull(local, remote, excluded, path);
    PullGivesRemote(remote, local, excluded, path);
  }

  // ---- What pulling does under an excluded key ----

  /** `p` leads to an excluded key through keys that are not excluded. */
  predicate EndsExcluded(excluded: seq<string>, path: string, p: seq<string>)
    decreases |p|
  {
    && p != []
    && if |p| == 1 then Excluded(excluded, path, p[0])
       else !Excluded(excluded, path, p[0]) && EndsExcluded(excluded, Join(path, p[0]), p[1..])
  }

  /** Both trees are objects all the way down to the last key of `p`. */
  predicate Descends(a: Fields, b: Fields, p: seq<string>)
    decreases |p|
  {
    |p| <= 1 ||
    (p[0] in a && p[0] in b && a[p[0]].Obj? && b[p[0]].Obj? && Descends(a[p[0]].fields, b[p[0]].fields, p[1..]))
  }

  /** The whole subtree at a path. */
  function At(a: Fields, p: seq<string>): Option<Json>
    requires p != []
    decreases |p|
  {
    if p[0] !in a then None
    else if |p| == 1 then Some(a[p[0]])
    else if a[p[0]].Obj? then At(a[p[0]].fields, p[1..])
    else None
  }

  lemma AtBySides(a: Fields, b: Fields, p: seq<string>)
    requires p != [] && Lookup(a, p[0]) == Lookup(b, p[0])
    ensures At(a, p) == At(b, p)
  {
  }

  /**
    Under an excluded key pulling keeps the local subtree where both trees are objects down to the key;
    elsewhere a key above it is replaced as a whole, and the subtree is the remote one.
   */
  lemma {:induction false} PullUnderExcluded(
    local: Fields, remote: Fields, excluded: seq<string>, path: string, p: seq<string>)
    requires EndsExcluded(excluded, path, p)
    ensures At(Pull(local, Diff(local, remote, excluded, path)), p) ==
      if Descends(local, remote, p) then At(local, p) else At(remote, p)
    decreases |p|
  {
    var d := Diff(local, remote, excluded, path);
    var pulled := Pull(local, d);
    var k := p[0];
    FieldsAfterPull(local, d, k);
    assert Found(d, k) == Entry(local, remote, excluded, path, k);
    if |p| > 1 {
      if k in local && k in remote && local[k].Obj? && remote[k].Obj? {
        PullUnderExcluded(local[k].fields, remote[k].fields, excluded, Join(path, k), p[1..]);
        PullNothing(local[k].fields);
      } else {
        AtBySides(pulled, remote, p);
      }
    }
  }

  lemma PullNothing(local: Fields)
    ensures Pull(local, map[]) == local
  {
    forall k
      ensures Lookup(Pull(local, map[]), k) == Lookup(local, k)
    {
      FieldsAfterPull(local, map[], k);
    }
    assert forall k :: k in Pull(local, map[]) <==> Lookup(Pull(local, map[]), k).Some?;
    assert forall k :: k in local <==> Lookup(local, k).Some?;
  }

  /**
    Exactly when pulling keeps the local subtree under an excluded key: both trees are objects down to
    the key, or they hold the same there anyway.
   */
  lemma PullKeepsExcludedIff(local: Fields, remote: Fields, excluded: seq<string>, path: string, p: seq<string>)
    requires EndsExcluded(excluded, path, p)
    ensures At(Pull(local, Diff(local, remote, excluded, path)), p) == At(local, p) <==>
      Descends(local, remote, p) || At(local, p) == At(remote, p)
  {
    PullUnderExcluded(local, remote, excluded, path, p);
  }

  /** A lost exclusion: local {a: {b: 1}}, remote {a: 2}, with "a.b" excluded. */
  lemma PullMayDropExcluded()
    ensures var local, remote, p := map["a" := Obj(map["b" := Leaf(Number(1))])], map["a" := Leaf(Number(2))], ["a", "b"];
      && EndsExcluded(["a.b"], "", p) && At(local, p) == Some(Leaf(Number(1)))
      && At(Pull(local, Diff(local, remote, ["a.b"], "")), p) == None
  {
    var local: Fields := map["a" := Obj(map["b" := Leaf(Number(1))])];
    var remote: Fields := map["a" := Leaf(Number(2))];
    var p := ["a", "b"];
    assert p[1..] == ["b"] && Join("", "a") == "a" && Join("a", "b") == "a.b";
    assert EndsExcluded(["a.b"], "a", ["b"]);
    PullUnderExcluded(local, remote, ["a.b"], "", p);
  }
}
