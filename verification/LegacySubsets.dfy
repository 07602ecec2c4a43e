/** The amount-indexed exact matcher for two and three terms. */
module LegacySubsets {
  import opened Sequences
  import opened SubsetSearch

  function WithValue(pool: seq<Item>, v: int): seq<Item> {
    Filter(pool, (x: Item) => x.value == v)
  }

  /** Pool items of net `v` whose id follows that of `y`. */
  function After(pool: seq<Item>, y: Item, v: int): seq<Item> {
    Filter(WithValue(pool, v), (x: Item) => x.id > y.id)
  }

  function Extensions(prefix: seq<Item>, zs: seq<Item>): (r: seq<seq<Item>>)
    ensures |r| == |zs| && forall i :: 0 <= i < |zs| ==> r[i] == prefix + [zs[i]]
  {
    seq(|zs|, i requires 0 <= i < |zs| => prefix + [zs[i]])
  }

  /** The tuples the two-term phase visits, for first items `rest`. */
  function PairsFrom(pool: seq<Item>, rest: seq<Item>, target: int): seq<seq<Item>> {
    if rest == [] then []
    else Extensions([rest[0]], After(pool, rest[0], target - rest[0].value)) + PairsFrom(pool, rest[1..], target)
  }

  /** The tuples the three-term phase visits for a first and a second item. */
  function ThirdsOf(pool: seq<Item>, first: Item, second: Item, target: int): seq<seq<Item>> {
    var remainder := target - first.value - second.value;
    if remainder <= 0 then [] else Extensions([first, second], After(pool, second, remainder))
  }

  function ThirdsFrom(pool: seq<Item>, first: Item, rest: seq<Item>, target: int): seq<seq<Item>> {
    if rest == [] then []
    else ThirdsOf(pool, first, rest[0], target) + ThirdsFrom(pool, first, rest[1..], target)
  }

  function TriplesFrom(pool: seq<Item>, rest: seq<Item>, target: int): seq<seq<Item>> {
    if rest == [] then []
    else ThirdsFrom(pool, rest[0], rest[1..], target) + TriplesFrom(pool, rest[1..], target)
  }

  /** Every tuple visited, before repeated id sets are dropped. */
  function Visits(pool: seq<Item>, target: int): seq<seq<Item>> {
    PairsFrom(pool, pool, target) + TriplesFrom(pool, pool, target)
  }

  function IdSet(c: seq<Item>): set<int> {
    set x | x in c :: x.id
  }

  function IdSets(cs: seq<seq<Item>>): set<set<int>> {
    set c | c in cs :: IdSet(c)
  }

  /** Keeps the first tuple of every id set not in `seen`. */
  function Fresh(cs: seq<seq<Item>>, seen: set<set<int>>): (r: seq<seq<Item>>)
    ensures forall c :: c in r ==> c in cs
  {
    if cs == [] then []
    else if IdSet(cs[0]) in seen then Fresh(cs[1..], seen)
    else [cs[0]] + Fresh(cs[1..], seen + {IdSet(cs[0])})
  }

  lemma {:induction false} FreshConcat(a: seq<seq<Item>>, b: seq<seq<Item>>, seen: set<set<int>>)
    ensures Fresh(a + b, seen) == Fresh(a, seen) + Fresh(b, seen + IdSets(a))
  {
    if a == [] {
      assert a + b == b && IdSets(a) == {} && seen + {} == seen;
    } else {
      assert (a + b)[1..] == a[1..] + b;
      IdSetsStep(a);
      if IdSet(a[0]) in seen {
        FreshConcat(a[1..], b, seen);
        assert seen + IdSets(a[1..]) == seen + IdSets(a);
      } else {
        FreshConcat(a[1..], b, seen + {IdSet(a[0])});
        assert seen + {IdSet(a[0])} + IdSets(a[1..]) == seen + IdSets(a);
      }
    }
  }

  lemma IdSetsStep(a: seq<seq<Item>>)
    requires a != []
    ensures IdSets(a) == {IdSet(a[0])} + IdSets(a[1..])
  {
    assert a == [a[0]] + a[1..];
  }

  lemma FreshAppend(v: seq<seq<Item>>, c: seq<Item>)
    ensures Fresh(v + [c], {}) == Fresh(v, {}) + (if IdSet(c) in IdSets(v) then [] else [c])
    ensures IdSets(v + [c]) == IdSets(v) + {IdSet(c)}
  {
    hide IdSet;
    FreshConcat(v, [c], {});
    assert {} + IdSets(v) == IdSets(v);
    assert Fresh([c], IdSets(v)) == if IdSet(c) in IdSets(v) then [] else [c];
    assert forall x :: x in v + [c] <==> x in v || x == c;
  }

  /** Every id set visited keeps one tuple. */
  lemma {:induction false} FreshKeepsOne(cs: seq<seq<Item>>, seen: set<set<int>>, c: seq<Item>)
    requires c in cs && IdSet(c) !in seen
    ensures exists d :: d in Fresh(cs, seen) && IdSet(d) == IdSet(c)
  {
    if IdSet(cs[0]) == IdSet(c) {
      assert cs[0] in Fresh(cs, seen);
    } else {
      assert c in cs[1..];
      if IdSet(cs[0]) in seen {
        FreshKeepsOne(cs[1..], seen, c);
      } else {
        FreshKeepsOne(cs[1..], seen + {IdSet(cs[0])}, c);
        var d :| d in Fresh(cs[1..], seen + {IdSet(cs[0])}) && IdSet(d) == IdSet(c);
        assert d in Fresh(cs, seen);
      }
    }
  }

  /** The matcher's result, before any call is rejected. */
  function Matched(pool: seq<Item>, target: int, maxResults: nat): seq<seq<Item>> {
    Take(Fresh(Visits(pool, target), {}), maxResults)
  }

  // ----- The matcher

  function Lookup(index: map<int, seq<Item>>, v: int): seq<Item> {
    if v in index then index[v] else []
  }

  lemma WithValueStep(pool: seq<Item>, i: nat, v: int)
    requires i < |pool|
    ensures WithValue(pool[..i + 1], v) == WithValue(pool[..i], v) + (if pool[i].value == v then [pool[i]] else [])
  {
    FilterStep(pool, i, (x: Item) => x.value == v);
  }

  lemma WithValueNone()
    ensures forall v :: WithValue([], v) == []
  {
  }

  /** `value_to_ids`: the pool's items under their nets, in pool order. */
  method BuildIndex(pool: seq<Item>) returns (index: map<int, seq<Item>>)
    ensures forall v :: Lookup(index, v) == WithValue(pool, v)
  {
    hide WithValue;
    index := map[];
    WithValueNone();
    for i := 0 to |pool|
      invariant forall v :: Lookup(index, v) == WithValue(pool[..i], v)
    {
      ghost var before := index;
      index := index[pool[i].value := Lookup(index, pool[i].value) + [pool[i]]];
      forall v
        ensures Lookup(index, v) == WithValue(pool[..i + 1], v)
      {
        WithValueStep(pool, i, v);
        assert Lookup(before, v) == WithValue(pool[..i], v);
      }
    }
    assert pool[..|pool|] == pool;
  }

  /** The bookkeeping after visiting `v`. */
  ghost predicate Kept(v: seq<seq<Item>>, seen: set<set<int>>, matches: seq<seq<int>>, maxResults: nat) {
    seen == IdSets(v) && matches == AllIds(Fresh(v, {})) && |matches| < maxResults
  }

  /** `maxResults` tuples were kept after some first part of `all`. */
  ghost predicate Filled(all: seq<seq<Item>>, matches: seq<seq<int>>, maxResults: nat) {
    matches == AllIds(Take(Fresh(all, {}), maxResults))
  }

  lemma KeepNext(v: seq<seq<Item>>, seen: set<set<int>>, matches: seq<seq<int>>, maxResults: nat, c: seq<Item>,
                 later: seq<seq<Item>>)
    requires Kept(v, seen, matches, maxResults)
    ensures IdSet(c) in seen ==> Kept(v + [c], seen, matches, maxResults)
    ensures IdSet(c) !in seen && |matches| + 1 < maxResults ==>
              Kept(v + [c], seen + {IdSet(c)}, matches + [Ids(c)], maxResults)
    ensures IdSet(c) !in seen && |matches| + 1 >= maxResults ==> Filled(v + [c] + later, matches + [Ids(c)], maxResults)
  {
    hide IdSet, IdSets, Ids, AllIds, Fresh;
    FreshAppend(v, c);
    assert seen + {IdSet(c)} == IdSets(v + [c]);
    if IdSet(c) !in seen {
      AllIdsAppend(Fresh(v, {}), c);
      FreshConcat(v + [c], later, {});
      if |matches| + 1 >= maxResults {
        assert Take(Fresh(v + [c] + later, {}), maxResults) == Fresh(v + [c], {});
      }
    }
  }

  /** One inner loop: every third (or second) term `z` for a fixed prefix ending in `y`. */
  method Extend(pool: seq<Item>, index: map<int, seq<Item>>, prefix: seq<Item>, y: Item, remainder: int,
                ghost v: seq<seq<Item>>, ghost later: seq<seq<Item>>,
                seen0: set<set<int>>, matches0: seq<seq<int>>, maxResults: nat)
      returns (seen: set<set<int>>, matches: seq<seq<int>>, full: bool)
    requires forall w :: Lookup(index, w) == WithValue(pool, w)
    requires Kept(v, seen0, matches0, maxResults)
    ensures full ==> Filled(v + Extensions(prefix, After(pool, y, remainder)) + later, matches, maxResults)
    ensures !full ==> Kept(v + Extensions(prefix, After(pool, y, remainder)), seen, matches, maxResults)
  {
    hide IdSet, IdSets, Ids, AllIds, Fresh, Kept, Filled, Extensions, WithValue;
    seen, matches, full := seen0, matches0, false;
    var zs := Lookup(index, remainder);
    ghost var all := Extensions(prefix, After(pool, y, remainder));
    ghost var done: seq<Item> := [];
    assert v + Extensions(prefix, done) == v;
    for i := 0 to |zs|
      invariant done == Filter(zs[..i], (x: Item) => x.id > y.id)
      invariant Kept(v + Extensions(prefix, done), seen, matches, maxResults)
    {
      var z := zs[i];
      FilterStep(zs, i, (x: Item) => x.id > y.id);
      if z.id > y.id {
        var c := prefix + [z];
        ghost var rest := Filter(zs[i + 1..], (x: Item) => x.id > y.id);
        ExtensionsStep(v, prefix, done, z, rest, later);
        KeepNext(v + Extensions(prefix, done), seen, matches, maxResults, c, Extensions(prefix, rest) + later);
        done := done + [z];
        if IdSet(c) !in seen {
          seen := seen + {IdSet(c)};
          matches := matches + [Ids(c)];
          if |matches| >= maxResults {
            full := true;
            return;
          }
        }
      }
    }
    assert zs[..|zs|] == zs;
  }

  lemma ExtensionsStep(v: seq<seq<Item>>, prefix: seq<Item>, done: seq<Item>, z: Item, rest: seq<Item>,
                       later: seq<seq<Item>>)
    ensures v + Extensions(prefix, done + [z]) == v + Extensions(prefix, done) + [prefix + [z]]
    ensures v + Extensions(prefix, done + [z] + rest) + later
            == v + Extensions(prefix, done) + [prefix + [z]] + (Extensions(prefix, rest) + later)
  {
    assert Extensions(prefix, done + [z]) == Extensions(prefix, done) + [prefix + [z]];
    assert Extensions(prefix, done + [z] + rest) == Extensions(prefix, done + [z]) + Extensions(prefix, rest);
  }

  function LegacySubsetsOf(items: seq<Item>, target: int, maxResults: int): Outcome {
    if target <= 0 || maxResults < 1 then Rejected(BadBounds)
    else if !DistinctIds(items) then Rejected(DuplicateIds)
    else if !Positive(items) then Rejected(NonPositiveAmount)
    else Found(AllIds(Matched(items, target, maxResults)))
  }

  /** The remaining visits: those of `done` are over. */
  ghost predicate Remaining(all: seq<seq<Item>>, done: seq<seq<Item>>, rest: seq<seq<Item>>) {
    all == done + rest
  }

  lemma RemainingStep(all: seq<seq<Item>>, done: seq<seq<Item>>, a: seq<seq<Item>>, rest: seq<seq<Item>>)
    ensures Remaining(all, done, a + rest) <==> Remaining(all, done + a, rest)
    ensures Remaining(all, done, a + rest) ==> all == done + a + rest
  {
    assert done + (a + rest) == done + a + rest;
  }

  lemma PairsNext(pool: seq<Item>, i: nat, target: int, all: seq<seq<Item>>, done: seq<seq<Item>>,
                  triples: seq<seq<Item>>)
    requires i < |pool| && Remaining(all, done, PairsFrom(pool, pool[i..], target) + triples)
    ensures var a, rest := Extensions([pool[i]], After(pool, pool[i], target - pool[i].value)),
                           PairsFrom(pool, pool[i + 1..], target) + triples;
            Remaining(all, done + a, rest) && all == done + a + rest
  {
    var a := Extensions([pool[i]], After(pool, pool[i], target - pool[i].value));
    assert pool[i..][1..] == pool[i + 1..];
    assert PairsFrom(pool, pool[i..], target) + triples == a + (PairsFrom(pool, pool[i + 1..], target) + triples);
    RemainingStep(all, done, a, PairsFrom(pool, pool[i + 1..], target) + triples);
  }

  lemma ThirdsUnfold(pool: seq<Item>, first: Item, j: nat, target: int)
    requires j < |pool|
    ensures ThirdsFrom(pool, first, pool[j..], target)
            == ThirdsOf(pool, first, pool[j], target) + ThirdsFrom(pool, first, pool[j + 1..], target)
  {
    hide ThirdsOf;
    assert pool[j..][1..] == pool[j + 1..];
  }

  lemma ThirdsNext(pool: seq<Item>, first: Item, j: nat, target: int, all: seq<seq<Item>>, done: seq<seq<Item>>,
                   later: seq<seq<Item>>)
    requires j < |pool| && Remaining(all, done, ThirdsFrom(pool, first, pool[j..], target) + later)
    ensures var a, rest := ThirdsOf(pool, first, pool[j], target),
                           ThirdsFrom(pool, first, pool[j + 1..], target) + later;
            Remaining(all, done + a, rest) && all == done + a + rest
  {
    hide ThirdsFrom, ThirdsOf, Remaining;
    var a, rest := ThirdsOf(pool, first, pool[j], target), ThirdsFrom(pool, first, pool[j + 1..], target);
    ThirdsUnfold(pool, first, j, target);
    assert a + rest + later == a + (rest + later);
    RemainingStep(all, done, a, rest + later);
  }

  lemma TriplesNext(pool: seq<Item>, i: nat, target: int)
    requires i < |pool|
    ensures TriplesFrom(pool, pool[i..], target)
            == ThirdsFrom(pool, pool[i], pool[i + 1..], target) + TriplesFrom(pool, pool[i + 1..], target)
  {
    assert pool[i..][1..] == pool[i + 1..];
  }

  lemma PhasesEnd(pool: seq<Item>, target: int)
    ensures PairsFrom(pool, pool[|pool|..], target) + TriplesFrom(pool, pool, target)
              == TriplesFrom(pool, pool[0..], target)
    ensures TriplesFrom(pool, pool[|pool|..], target) == []
  {
    assert pool[0..] == pool;
  }

  lemma ThirdsEnd(pool: seq<Item>, target: int, first: Item, later: seq<seq<Item>>)
    ensures ThirdsFrom(pool, first, pool[|pool|..], target) + later == later
  {
  }

  /** The indexed two- and three-term matcher. */
  method FindLegacySubsets(items: seq<Item>, target: int, maxResults: int) returns (r: Outcome)
    ensures r == LegacySubsetsOf(items, target, maxResults)
  {
    if target <= 0 || maxResults < 1 {
      return Rejected(BadBounds);
    }
    if !DistinctIds(items) {
      return Rejected(DuplicateIds);
    }
    if !Positive(items) {
      return Rejected(NonPositiveAmount);
    }
    var matches := MatchIndexed(items, target, maxResults);
    r := Found(matches);
  }

  method MatchIndexed(pool: seq<Item>, target: int, maxResults: nat) returns (matches: seq<seq<int>>)
    requires maxResults >= 1
    ensures matches == AllIds(Matched(pool, target, maxResults))
  {
    hide PairsFrom, ThirdsFrom, TriplesFrom, Extensions, After, WithValue, Fresh, IdSets, AllIds, Kept, Filled,
         Remaining, Matched, Visits;
    var index := BuildIndex(pool);
    ghost var all := Visits(pool, target);
    ghost var triples := TriplesFrom(pool, pool, target);
    ghost var v: seq<seq<Item>> := [];
    var seen: set<set<int>>, full := {}, false;
    matches := [];
    NothingKept(pool, target, maxResults);
    for i := 0 to |pool|
      invariant Remaining(all, v, PairsFrom(pool, pool[i..], target) + triples)
      invariant Kept(v, seen, matches, maxResults)
    {
      var x := pool[i];
      PairsNext(pool, i, target, all, v, triples);
      ghost var later := PairsFrom(pool, pool[i + 1..], target) + triples;
      seen, matches, full := Extend(pool, index, [x], x, target - x.value, v, later, seen, matches, maxResults);
      if full {
        FilledIsMatched(pool, target, matches, maxResults);
        return;
      }
      v := v + Extensions([x], After(pool, x, target - x.value));
    }
    PhasesEnd(pool, target);
    for i := 0 to |pool|
      invariant Remaining(all, v, TriplesFrom(pool, pool[i..], target))
      invariant Kept(v, seen, matches, maxResults)
    {
      var first := pool[i];
      TriplesNext(pool, i, target);
      ghost var rest := TriplesFrom(pool, pool[i + 1..], target);
      for j := i + 1 to |pool|
        invariant Remaining(all, v, ThirdsFrom(pool, first, pool[j..], target) + rest)
        invariant Kept(v, seen, matches, maxResults)
      {
        var second := pool[j];
        var remainder := target - first.value - second.value;
        ThirdsNext(pool, first, j, target, all, v, rest);
        ghost var later := ThirdsFrom(pool, first, pool[j + 1..], target) + rest;
        if remainder <= 0 {
          assert v + [] == v;
          continue;
        }
        seen, matches, full := Extend(pool, index, [first, second], second, remainder, v, later, seen, matches,
                                      maxResults);
        if full {
          FilledIsMatched(pool, target, matches, maxResults);
          return;
        }
        v := v + Extensions([first, second], After(pool, second, remainder));
      }
      ThirdsEnd(pool, target, first, rest);
    }
    KeptIsMatched(pool, target, v, seen, matches, maxResults);
  }

  lemma NothingKept(pool: seq<Item>, target: int, maxResults: nat)
    requires maxResults >= 1
    ensures Remaining(Visits(pool, target), [], PairsFrom(pool, pool[0..], target) + TriplesFrom(pool, pool, target))
    ensures Kept([], {}, [], maxResults)
  {
    assert pool[0..] == pool;
  }

  lemma FilledIsMatched(pool: seq<Item>, target: int, matches: seq<seq<int>>, maxResults: nat)
    requires Filled(Visits(pool, target), matches, maxResults)
    ensures matches == AllIds(Matched(pool, target, maxResults))
  {
  }

  lemma KeptIsMatched(pool: seq<Item>, target: int, v: seq<seq<Item>>, seen: set<set<int>>, matches: seq<seq<int>>,
                      maxResults: nat)
    requires Kept(v, seen, matches, maxResults)
    requires Remaining(Visits(pool, target), v, TriplesFrom(pool, pool[|pool|..], target))
    ensures matches == AllIds(Matched(pool, target, maxResults))
  {
    hide Visits, Fresh, AllIds;
    PhasesEnd(pool, target);
    assert v + [] == v;
  }
}
