/** Bounded subset-sum search over settlement nets: plain enumeration and its indexed fast form. */
module SubsetSearch {
  import opened Sequences

  /** A settlement id (any totally ordered value) with its net in paise. */
  datatype Item = Item(id: int, value: int)

  function Total(c: seq<Item>): int {
    if c == [] then 0 else c[0].value + Total(c[1..])
  }

  function Ids(c: seq<Item>): (r: seq<int>)
    ensures |r| == |c| && forall i :: 0 <= i < |c| ==> r[i] == c[i].id
  {
    seq(|c|, i requires 0 <= i < |c| => c[i].id)
  }

  function AllIds(cs: seq<seq<Item>>): (r: seq<seq<int>>)
    ensures |r| == |cs| && forall i :: 0 <= i < |cs| ==> r[i] == Ids(cs[i])
  {
    seq(|cs|, i requires 0 <= i < |cs| => Ids(cs[i]))
  }

  predicate DistinctIds(s: seq<Item>) {
    forall i, j :: 0 <= i < j < |s| ==> s[i].id != s[j].id
  }

  /** Puts `x` in front of every member. */
  function Prepend<T>(x: T, cs: seq<seq<T>>): (r: seq<seq<T>>)
    ensures |r| == |cs| && forall i :: 0 <= i < |cs| ==> r[i] == [x] + cs[i]
  {
    seq(|cs|, i requires 0 <= i < |cs| => [x] + cs[i])
  }

  /** `itertools.combinations(s, k)`: positions in lexicographic order. */
  function Combinations<T>(s: seq<T>, k: nat): (cs: seq<seq<T>>)
    ensures forall c :: c in cs ==> |c| == k
  {
    if k == 0 then [[]]
    else if s == [] then []
    else Prepend(s[0], Combinations(s[1..], k - 1)) + Combinations(s[1..], k)
  }

  lemma CombinationsUnfold<T>(s: seq<T>, k: nat)
    ensures k == 0 ==> Combinations(s, k) == [[]]
    ensures k > 0 && s == [] ==> Combinations(s, k) == []
    ensures k > 0 && s != [] ==>
              Combinations(s, k) == Prepend(s[0], Combinations(s[1..], k - 1)) + Combinations(s[1..], k)
  {
  }

  lemma PrependMember<T>(x: T, cs: seq<seq<T>>, c: seq<T>)
    ensures c in Prepend(x, cs) <==> c != [] && c[0] == x && c[1..] in cs
  {
    if c in Prepend(x, cs) {
      var i :| 0 <= i < |cs| && c == Prepend(x, cs)[i];
      assert c[1..] == cs[i];
    }
    if c != [] && c[0] == x && c[1..] in cs {
      var i :| 0 <= i < |cs| && cs[i] == c[1..];
      assert Prepend(x, cs)[i] == c;
    }
  }

  lemma CombinationsCases<T>(s: seq<T>, k: nat, c: seq<T>)
    requires k > 0 && s != []
    ensures c in Combinations(s, k) <==>
              c in Combinations(s[1..], k) || (c != [] && c[0] == s[0] && c[1..] in Combinations(s[1..], k - 1))
  {
    PrependMember(s[0], Combinations(s[1..], k - 1), c);
  }

  /** Combinations draw their members from the pool, each position once. */
  lemma {:induction false} CombinationsSound(s: seq<Item>, k: nat, c: seq<Item>)
    requires c in Combinations(s, k)
    ensures forall x :: x in c ==> x in s
    ensures DistinctIds(s) ==> DistinctIds(c)
    decreases s
  {
    hide Combinations;
    if k == 0 || s == [] {
      CombinationsEdge(s, k, c);
    } else {
      CombinationsCases(s, k, c);
      if c in Combinations(s[1..], k) {
        CombinationsSound(s[1..], k, c);
      } else {
        CombinationsSound(s[1..], k - 1, c[1..]);
        assert c == [c[0]] + c[1..];
        if DistinctIds(s) {
          DistinctPrepend(s, c[1..]);
        }
      }
    }
  }

  lemma CombinationsEdge<T>(s: seq<T>, k: nat, c: seq<T>)
    requires (k == 0 || s == []) && c in Combinations(s, k)
    ensures c == []
  {
  }

  lemma DistinctPrepend(s: seq<Item>, c: seq<Item>)
    requires s != [] && DistinctIds(s) && DistinctIds(c) && forall x :: x in c ==> x in s[1..]
    ensures DistinctIds([s[0]] + c)
  {
    forall i | 0 <= i < |c|
      ensures c[i].id != s[0].id
    {
      assert c[i] in s[1..];
    }
  }

  lemma DistinctDrop(t: seq<Item>, i: nat)
    requires i < |t| && DistinctIds(t)
    ensures DistinctIds(Drop(t, i)) && t[i] !in Drop(t, i)
  {
  }

  /** No selection is missed: any members of the pool, in any order, without repetition, are the
      members of the combination found. */
  lemma {:induction false} CombinationsComplete(s: seq<Item>, t: seq<Item>) returns (c: seq<Item>)
    requires DistinctIds(t) && forall x :: x in t ==> x in s
    ensures c in Combinations(s, |t|) && multiset(c) == multiset(t)
    decreases s
  {
    hide Combinations;
    if t == [] {
      c := [];
      CombinationsNone(s);
    } else {
      assert t[0] in s;
      TailMembers(s, t);
      if s[0] in t {
        var i :| 0 <= i < |t| && t[i] == s[0];
        DropMembers(t, i);
        DistinctDrop(t, i);
        TailMembers(s, Drop(t, i));
        var rest := CombinationsComplete(s[1..], Drop(t, i));
        c := [s[0]] + rest;
        assert c[1..] == rest;
      } else {
        c := CombinationsComplete(s[1..], t);
      }
      CombinationsCases(s, |t|, c);
    }
  }

  lemma TailMembers<T>(s: seq<T>, t: seq<T>)
    requires s != [] && forall x :: x in t ==> x in s
    ensures s[0] !in t ==> forall x :: x in t ==> x in s[1..]
  {
    assert s == [s[0]] + s[1..];
  }

  lemma CombinationsNone<T>(s: seq<T>)
    ensures Combinations(s, 0) == [[]]
  {
  }

  lemma {:induction false} TotalConcat(a: seq<Item>, b: seq<Item>)
    ensures Total(a + b) == Total(a) + Total(b)
  {
    if a == [] {
      assert a + b == b;
    } else {
      TotalConcat(a[1..], b);
      assert (a + b)[1..] == a[1..] + b;
    }
  }

  /** The sum depends on the members only. */
  lemma {:induction false} TotalOfMembers(a: seq<Item>, b: seq<Item>)
    requires multiset(a) == multiset(b)
    ensures Total(a) == Total(b)
    decreases a
  {
    hide Total;
    if a == [] {
      assert |multiset(b)| == 0;
    } else {
      assert a[0] in multiset(b);
      var i :| 0 <= i < |b| && b[i] == a[0];
      TotalDrop(b, i);
      TotalDrop(a, 0);
      DropMembers(b, i);
      DropMembers(a, 0);
      CancelMember(a[0], multiset(Drop(a, 0)), multiset(Drop(b, i)));
      TotalOfMembers(Drop(a, 0), Drop(b, i));
    }
  }

  lemma TotalDrop(b: seq<Item>, i: nat)
    requires i < |b|
    ensures Total(b) == b[i].value + Total(Drop(b, i))
  {
    SplitAt(b, i);
    TotalConcat(b[..i], [b[i]] + b[i + 1..]);
    TotalConcat(b[..i], b[i + 1..]);
    TotalConcat([b[i]], b[i + 1..]);
    assert Total([b[i]]) == b[i].value;
  }

  // ----- The budgeted enumeration

  datatype Reject = BadBounds | BadBudgets | DuplicateIds | NonPositiveAmount

  /** A completed search, an exhausted budget, or a rejected call. */
  datatype Outcome = Found(subsets: seq<seq<int>>) | Exhausted | Rejected(why: Reject)

  /** Every combination of `lo` to `hi` terms, in the order the search visits them. */
  function AllCombinations(s: seq<Item>, lo: nat, hi: int): seq<seq<Item>>
    decreases hi + 1 - lo
  {
    if lo > hi then [] else Combinations(s, lo) + AllCombinations(s, lo + 1, hi)
  }

  predicate Hits(c: seq<Item>, target: int, tolerance: int) {
    -tolerance <= Total(c) - target <= tolerance
  }

  function Hitting(cs: seq<seq<Item>>, target: int, tolerance: int): seq<seq<Item>> {
    Filter(cs, (c: seq<Item>) => Hits(c, target, tolerance))
  }

  /** The first `maxResults` hits, unless the budget ends before they are found. */
  function Searched(cs: seq<seq<Item>>, target: int, tolerance: int, budget: nat, maxResults: nat): Outcome {
    if |cs| > budget && |Hitting(cs[..budget], target, tolerance)| < maxResults then Exhausted
    else Found(AllIds(Take(Hitting(cs, target, tolerance), maxResults)))
  }

  predicate ById(x: Item, y: Item) {
    x.id <= y.id
  }

  predicate Positive(s: seq<Item>) {
    forall x :: x in s ==> x.value > 0
  }

  lemma HittingPrefix(cs: seq<seq<Item>>, e: nat, target: int, tolerance: int)
    requires e <= |cs|
    ensures Hitting(cs, target, tolerance) == Hitting(cs[..e], target, tolerance) + Hitting(cs[e..], target, tolerance)
  {
    assert cs == cs[..e] + cs[e..];
    FilterConcat(cs[..e], cs[e..], (c: seq<Item>) => Hits(c, target, tolerance));
  }

  lemma HittingNext(cs: seq<seq<Item>>, e: nat, target: int, tolerance: int)
    requires e < |cs|
    ensures Hitting(cs[..e + 1], target, tolerance)
            == Hitting(cs[..e], target, tolerance) + (if Hits(cs[e], target, tolerance) then [cs[e]] else [])
  {
    assert cs[..e + 1] == cs[..e] + [cs[e]];
    FilterConcat(cs[..e], [cs[e]], (c: seq<Item>) => Hits(c, target, tolerance));
  }

  /** Stopping at the last wanted hit gives what the whole enumeration gives. */
  lemma StoppedEarly(cs: seq<seq<Item>>, e: nat, target: int, tolerance: int, budget: nat, maxResults: nat)
    requires e <= |cs| && e <= budget && |Hitting(cs[..e], target, tolerance)| == maxResults
    ensures Searched(cs, target, tolerance, budget, maxResults) == Found(AllIds(Hitting(cs[..e], target, tolerance)))
  {
    hide Hitting;
    HittingPrefix(cs, e, target, tolerance);
    assert Take(Hitting(cs, target, tolerance), maxResults) == Hitting(cs[..e], target, tolerance);
    if |cs| > budget {
      HittingPrefix(cs[..budget], e, target, tolerance);
      assert cs[..budget][..e] == cs[..e];
    }
  }

  lemma AllIdsAppend(cs: seq<seq<Item>>, c: seq<Item>)
    ensures AllIds(cs + [c]) == AllIds(cs) + [Ids(c)]
  {
  }

  /** After `e` combinations, `combos[i..]` and then `later` are still to come. */
  ghost predicate Upcoming(cs: seq<seq<Item>>, e: nat, combos: seq<seq<Item>>, i: nat, later: seq<seq<Item>>) {
    e <= |cs| && i <= |combos| && cs[e..] == combos[i..] + later
  }

  lemma UpcomingNext(cs: seq<seq<Item>>, e: nat, combos: seq<seq<Item>>, i: nat, later: seq<seq<Item>>)
    requires Upcoming(cs, e, combos, i, later) && i < |combos|
    ensures e < |cs| && cs[e] == combos[i] && Upcoming(cs, e + 1, combos, i + 1, later)
  {
    assert |combos[i..]| > 0;
    assert cs[e] == cs[e..][0];
    assert cs[e + 1..] == cs[e..][1..] && combos[i + 1..] == combos[i..][1..];
  }

  lemma UpcomingTerms(cs: seq<seq<Item>>, e: nat, s: seq<Item>, terms: nat, maxTerms: int)
    requires terms <= maxTerms && Upcoming(cs, e, [], 0, AllCombinations(s, terms, maxTerms))
    ensures Upcoming(cs, e, Combinations(s, terms), 0, AllCombinations(s, terms + 1, maxTerms))
  {
    assert [] + AllCombinations(s, terms, maxTerms) == AllCombinations(s, terms, maxTerms);
  }

  lemma UpcomingEnd(cs: seq<seq<Item>>, e: nat, combos: seq<seq<Item>>, later: seq<seq<Item>>)
    requires Upcoming(cs, e, combos, |combos|, later)
    ensures Upcoming(cs, e, [], 0, later) && (later == [] ==> cs[..e] == cs)
  {
  }

  /** What the enumeration keeps: the hits among the combinations visited so far. */
  ghost predicate Visited(cs: seq<seq<Item>>, e: nat, target: int, tolerance: int, budget: nat, maxResults: nat,
                          matches: seq<seq<int>>) {
    e <= |cs| && e <= budget && matches == AllIds(Hitting(cs[..e], target, tolerance)) && |matches| < maxResults
  }

  /** The bounded enumeration over items already checked. */
  method Enumerate(ordered: seq<Item>, target: int, tolerance: int, minTerms: nat, maxTerms: int, budget: nat,
                   maxResults: nat)
      returns (r: Outcome)
    requires minTerms <= maxTerms && maxResults >= 1
    ensures r == Searched(AllCombinations(ordered, minTerms, maxTerms), target, tolerance, budget, maxResults)
  {
    hide Hitting, Combinations, AllCombinations, Searched, Hits, Upcoming, Visited, Ids, AllIds;
    ghost var cs := AllCombinations(ordered, minTerms, maxTerms);
    var matches: seq<seq<int>> := [];
    var examined := 0;
    NothingVisited(cs, target, tolerance, budget, maxResults);
    for terms := minTerms to maxTerms + 1
      invariant 0 <= examined && Upcoming(cs, examined, [], 0, AllCombinations(ordered, terms, maxTerms))
      invariant Visited(cs, examined, target, tolerance, budget, maxResults, matches)
    {
      var combos := Combinations(ordered, terms);
      UpcomingTerms(cs, examined, ordered, terms, maxTerms);
      var i := 0;
      while i < |combos|
        invariant 0 <= i <= |combos| && 0 <= examined
        invariant Upcoming(cs, examined, combos, i, AllCombinations(ordered, terms + 1, maxTerms))
        invariant Visited(cs, examined, target, tolerance, budget, maxResults, matches)
      {
        UpcomingNext(cs, examined, combos, i, AllCombinations(ordered, terms + 1, maxTerms));
        var combo := combos[i];
        if examined + 1 > budget {
          RanOut(cs, examined, target, tolerance, budget, maxResults, matches);
          return Exhausted;
        }
        VisitNext(cs, examined, target, tolerance, budget, maxResults, matches);
        examined, i := examined + 1, i + 1;
        if Hits(combo, target, tolerance) {
          matches := matches + [Ids(combo)];
          if |matches| >= maxResults {
            return Found(matches);
          }
        }
      }
      UpcomingEnd(cs, examined, combos, AllCombinations(ordered, terms + 1, maxTerms));
    }
    NoMoreTerms(ordered, maxTerms);
    UpcomingEnd(cs, examined, [], AllCombinations(ordered, maxTerms + 1, maxTerms));
    Finished(cs, examined, target, tolerance, budget, maxResults, matches);
    return Found(matches);
  }

  lemma NoMoreTerms(s: seq<Item>, hi: nat)
    ensures AllCombinations(s, hi + 1, hi) == []
  {
  }

  lemma NothingVisited(cs: seq<seq<Item>>, target: int, tolerance: int, budget: nat, maxResults: nat)
    requires maxResults >= 1
    ensures Upcoming(cs, 0, [], 0, cs) && Visited(cs, 0, target, tolerance, budget, maxResults, [])
  {
    assert [] + cs == cs;
  }

  lemma VisitNext(cs: seq<seq<Item>>, e: nat, target: int, tolerance: int, budget: nat, maxResults: nat,
                  matches: seq<seq<int>>)
    requires Visited(cs, e, target, tolerance, budget, maxResults, matches) && e < |cs| && e < budget
    ensures !Hits(cs[e], target, tolerance) ==> Visited(cs, e + 1, target, tolerance, budget, maxResults, matches)
    ensures Hits(cs[e], target, tolerance) && |matches| + 1 < maxResults ==>
              Visited(cs, e + 1, target, tolerance, budget, maxResults, matches + [Ids(cs[e])])
    ensures Hits(cs[e], target, tolerance) && |matches| + 1 >= maxResults ==>
              Searched(cs, target, tolerance, budget, maxResults) == Found(matches + [Ids(cs[e])])
  {
    hide Hitting, Searched, Hits, Ids, AllIds;
    HittingNext(cs, e, target, tolerance);
    if Hits(cs[e], target, tolerance) {
      AllIdsAppend(Hitting(cs[..e], target, tolerance), cs[e]);
      if |matches| + 1 >= maxResults {
        StoppedEarly(cs, e + 1, target, tolerance, budget, maxResults);
      }
    }
  }

  lemma RanOut(cs: seq<seq<Item>>, e: nat, target: int, tolerance: int, budget: nat, maxResults: nat,
               matches: seq<seq<int>>)
    requires Visited(cs, e, target, tolerance, budget, maxResults, matches) && e < |cs| && e + 1 > budget
    ensures Searched(cs, target, tolerance, budget, maxResults) == Exhausted
  {
    hide Hitting;
  }

  lemma Finished(cs: seq<seq<Item>>, e: nat, target: int, tolerance: int, budget: nat, maxResults: nat,
                 matches: seq<seq<int>>)
    requires Visited(cs, e, target, tolerance, budget, maxResults, matches) && cs[..e] == cs
    ensures Searched(cs, target, tolerance, budget, maxResults) == Found(matches)
  {
    hide Hitting;
  }

  /** The public entry: rejects bad calls, then searches. */
  method FindBoundedSubsets(items: seq<Item>, target: int, tolerance: int, minTerms: int, maxTerms: int, maxItems: int,
                            maxCombinations: int, maxResults: int, sortItems: bool) returns (r: Outcome)
    ensures r == BoundedSubsets(items, target, tolerance, minTerms, maxTerms, maxItems, maxCombinations, maxResults,
                                sortItems)
  {
    hide Searched, AllCombinations, Sort;
    if target <= 0 || tolerance < 0 || minTerms < 0 || maxTerms < minTerms {
      return Rejected(BadBounds);
    }
    if maxItems < 1 || maxCombinations < 1 || maxResults < 1 {
      return Rejected(BadBudgets);
    }
    var ordered := if sortItems then Sort(items, ById) else items;
    if |ordered| > maxItems {
      return Exhausted;
    }
    if !DistinctIds(ordered) {
      return Rejected(DuplicateIds);
    }
    if !Positive(ordered) {
      return Rejected(NonPositiveAmount);
    }
    r := Enumerate(ordered, target, tolerance, minTerms, maxTerms, maxCombinations, maxResults);
  }

  function BoundedSubsets(items: seq<Item>, target: int, tolerance: int, minTerms: int, maxTerms: int, maxItems: int,
                          maxCombinations: int, maxResults: int, sortItems: bool): Outcome {
    if target <= 0 || tolerance < 0 || minTerms < 0 || maxTerms < minTerms then Rejected(BadBounds)
    else if maxItems < 1 || maxCombinations < 1 || maxResults < 1 then Rejected(BadBudgets)
    else
      var ordered := if sortItems then Sort(items, ById) else items;
      if |ordered| > maxItems then Exhausted
      else if !DistinctIds(ordered) then Rejected(DuplicateIds)
      else if !Positive(ordered) then Rejected(NonPositiveAmount)
      else Searched(AllCombinations(ordered, minTerms, maxTerms), target, tolerance, maxCombinations, maxResults)
  }

  // ----- What a completed enumeration means

  lemma {:induction false} AllCombinationsMember(s: seq<Item>, lo: nat, hi: int, c: seq<Item>)
    ensures c in AllCombinations(s, lo, hi) <==> lo <= |c| <= hi && c in Combinations(s, |c|)
    decreases hi + 1 - lo
  {
    hide Combinations;
    if lo <= hi {
      AllCombinationsMember(s, lo + 1, hi, c);
    }
  }

  /** A matching selection of the pool: pool members without repetition, of a permitted size,
      whose nets sum to the target within the tolerance. */
  predicate IsSelection(pool: seq<Item>, target: int, tolerance: int, minTerms: int, maxTerms: int, t: seq<Item>) {
    DistinctIds(t) && (forall x :: x in t ==> x in pool) && minTerms <= |t| <= maxTerms && Hits(t, target, tolerance)
  }

  /** Both directions of "exactly all": a completed search below its result limit returns every
      matching selection and nothing else. */
  lemma CompletedSearchIsExact(pool: seq<Item>, target: int, tolerance: int, minTerms: nat, maxTerms: int, budget: nat,
                               maxResults: nat,
                               r: Outcome)
    requires DistinctIds(pool)
    requires r == Searched(AllCombinations(pool, minTerms, maxTerms), target, tolerance, budget, maxResults)
    requires r.Found? && |r.subsets| < maxResults
    ensures forall ids :: ids in r.subsets ==>
              exists t :: IsSelection(pool, target, tolerance, minTerms, maxTerms, t) && ids == Ids(t)
    ensures forall t :: IsSelection(pool, target, tolerance, minTerms, maxTerms, t)
                        ==> exists ids :: ids in r.subsets && multiset(ids) == multiset(Ids(t))
  {
    hide AllCombinations, Hitting, IsSelection;
    var hits := Hitting(AllCombinations(pool, minTerms, maxTerms), target, tolerance);
    forall ids | ids in r.subsets
      ensures exists t :: IsSelection(pool, target, tolerance, minTerms, maxTerms, t) && ids == Ids(t)
    {
      var i :| 0 <= i < |hits| && ids == Ids(hits[i]);
      assert hits[i] in hits;
      VisitedIsSelection(pool, target, tolerance, minTerms, maxTerms, hits[i]);
    }
    forall t | IsSelection(pool, target, tolerance, minTerms, maxTerms, t)
      ensures exists ids :: ids in r.subsets && multiset(ids) == multiset(Ids(t))
    {
      var c := SelectionIsVisited(pool, target, tolerance, minTerms, maxTerms, t);
      var i :| 0 <= i < |hits| && hits[i] == c;
      IdsOfMembers(c, t);
      assert r.subsets[i] == Ids(c) && r.subsets[i] in r.subsets;
    }
  }

  lemma VisitedIsSelection(pool: seq<Item>, target: int, tolerance: int, minTerms: nat, maxTerms: int, t: seq<Item>)
    requires DistinctIds(pool) && t in Hitting(AllCombinations(pool, minTerms, maxTerms), target, tolerance)
    ensures IsSelection(pool, target, tolerance, minTerms, maxTerms, t)
  {
    hide AllCombinations, Combinations, Hits;
    AllCombinationsMember(pool, minTerms, maxTerms, t);
    CombinationsSound(pool, |t|, t);
  }

  lemma SelectionIsVisited(pool: seq<Item>, target: int, tolerance: int, minTerms: nat, maxTerms: int, t: seq<Item>)
    returns (c: seq<Item>)
    requires IsSelection(pool, target, tolerance, minTerms, maxTerms, t)
    ensures c in Hitting(AllCombinations(pool, minTerms, maxTerms), target, tolerance) && multiset(c) == multiset(t)
  {
    hide AllCombinations, Combinations;
    c := CombinationsComplete(pool, t);
    TotalOfMembers(c, t);
    assert |multiset(c)| == |multiset(t)|;
    AllCombinationsMember(pool, minTerms, maxTerms, c);
  }

  lemma {:induction false} IdsOfMembers(a: seq<Item>, b: seq<Item>)
    requires multiset(a) == multiset(b)
    ensures multiset(Ids(a)) == multiset(Ids(b))
    decreases a
  {
    hide Ids;
    if a == [] {
      assert |multiset(b)| == 0;
      assert Ids(a) == Ids(b);
    } else {
      assert a[0] in multiset(b);
      var i :| 0 <= i < |b| && b[i] == a[0];
      DropMembers(b, i);
      DropMembers(a, 0);
      CancelMember(a[0], multiset(Drop(a, 0)), multiset(Drop(b, i)));
      IdsOfMembers(Drop(a, 0), Drop(b, i));
      IdsDrop(a, 0);
      IdsDrop(b, i);
    }
  }

  lemma IdsDrop(a: seq<Item>, i: nat)
    requires i < |a|
    ensures multiset(Ids(a)) == multiset{a[i].id} + multiset(Ids(Drop(a, i)))
  {
    assert Ids(Drop(a, i)) == Drop(Ids(a), i);
    DropMembers(Ids(a), i);
  }

  /** No selection is returned twice. */
  lemma {:induction false} CombinationsNeverRepeat(s: seq<Item>, k: nat)
    requires DistinctIds(s)
    ensures Pairwise(Combinations(s, k), (c, d) => multiset(c) != multiset(d))
  {
    hide Combinations;
    CombinationsUnfold(s, k);
    var differ := (c: seq<Item>, d: seq<Item>) => multiset(c) != multiset(d);
    if k > 0 && s != [] {
      var firsts, rest := Combinations(s[1..], k - 1), Combinations(s[1..], k);
      var with := Prepend(s[0], firsts);
      CombinationsNeverRepeat(s[1..], k - 1);
      CombinationsNeverRepeat(s[1..], k);
      forall i, j | 0 <= i < j < |with|
        ensures differ(with[i], with[j])
      {
        assert differ(firsts[i], firsts[j]);
        PrependDiffers(s[0], firsts[i], firsts[j]);
      }
      forall i, j | 0 <= i < |with| && 0 <= j < |rest|
        ensures differ(with[i], rest[j])
      {
        assert rest[j] in rest;
        CombinationsSound(s[1..], k, rest[j]);
        assert s[0] in multiset(with[i]) && s[0] !in s[1..];
      }
      PairwiseConcat(with, rest, differ);
    }
  }

  lemma PrependDiffers<T>(x: T, a: seq<T>, b: seq<T>)
    requires multiset(a) != multiset(b)
    ensures multiset([x] + a) != multiset([x] + b)
  {
    if multiset{x} + multiset(a) == multiset{x} + multiset(b) {
      CancelMember(x, multiset(a), multiset(b));
    }
  }

  lemma PairwiseConcat<T>(a: seq<T>, b: seq<T>, rel: (T, T) -> bool)
    requires Pairwise(a, rel) && Pairwise(b, rel)
    requires forall i, j :: 0 <= i < |a| && 0 <= j < |b| ==> rel(a[i], b[j])
    ensures Pairwise(a + b, rel)
  {
  }

  // ----- The budget is never reached at the engine's sizes

  function Binomial(n: nat, k: nat): nat {
    if k == 0 then 1 else if n == 0 then 0 else Binomial(n - 1, k - 1) + Binomial(n - 1, k)
  }

  lemma {:induction false} CombinationsCount<T>(s: seq<T>, k: nat)
    ensures |Combinations(s, k)| == Binomial(|s|, k)
  {
    hide Combinations;
    CombinationsUnfold(s, k);
    if k > 0 && s != [] {
      CombinationsCount(s[1..], k - 1);
      CombinationsCount(s[1..], k);
    }
  }

  lemma {:induction false} BinomialMonotone(n: nat, m: nat, k: nat)
    requires n <= m
    ensures Binomial(n, k) <= Binomial(m, k)
    decreases m, k
  {
    if k > 0 && n > 0 {
      BinomialMonotone(n - 1, m - 1, k - 1);
      BinomialMonotone(n - 1, m - 1, k);
    }
  }

  function BinomialSum(n: nat, lo: nat, hi: int): nat
    decreases hi + 1 - lo
  {
    if lo > hi then 0 else Binomial(n, lo) + BinomialSum(n, lo + 1, hi)
  }

  lemma {:induction false} AllCombinationsCount(s: seq<Item>, lo: nat, hi: int)
    ensures |AllCombinations(s, lo, hi)| == BinomialSum(|s|, lo, hi)
    decreases hi + 1 - lo
  {
    if lo <= hi {
      CombinationsCount(s, lo);
      AllCombinationsCount(s, lo + 1, hi);
    }
  }

  lemma {:induction false} BinomialSumMonotone(n: nat, m: nat, lo: nat, hi: int, lo': nat, hi': int)
    requires n <= m && lo' <= lo && hi <= hi'
    ensures BinomialSum(n, lo, hi) <= BinomialSum(m, lo', hi')
    decreases hi' + 1 - lo'
  {
    if lo' <= hi' {
      if lo == lo' {
        if lo <= hi {
          BinomialMonotone(n, m, lo);
          BinomialSumMonotone(n, m, lo + 1, hi, lo' + 1, hi');
        }
      } else {
        BinomialSumMonotone(n, m, lo, hi, lo' + 1, hi');
      }
    }
  }

  function Pow2(n: nat): nat {
    if n == 0 then 1 else 2 * Pow2(n - 1)
  }

  lemma {:induction false} NoItems(lo: nat, hi: int)
    requires lo > 0
    ensures BinomialSum(0, lo, hi) == 0
    decreases hi + 1 - lo
  {
    if lo <= hi {
      NoItems(lo + 1, hi);
    }
  }

  lemma {:induction false} PascalSum(n: nat, lo: nat, hi: int)
    requires n > 0 && lo > 0
    ensures BinomialSum(n, lo, hi) == BinomialSum(n - 1, lo - 1, hi - 1) + BinomialSum(n - 1, lo, hi)
    decreases hi + 1 - lo
  {
    if lo <= hi {
      PascalSum(n, lo + 1, hi);
    }
  }

  /** All subsets together are 2 to the number of items. */
  lemma {:induction false} BinomialSumBound(n: nat, hi: int)
    ensures BinomialSum(n, 0, hi) <= Pow2(n)
  {
    if hi >= 0 {
      if n == 0 {
        NoItems(1, hi);
      } else {
        PascalSum(n, 1, hi);
        BinomialSumBound(n - 1, hi - 1);
        BinomialSumBound(n - 1, hi);
      }
    }
  }

  lemma Pow2Of16()
    ensures Pow2(16) == 65536
  {
    assert Pow2(4) == 16 && Pow2(8) == 16 * Pow2(4) && Pow2(12) == 16 * Pow2(8) && Pow2(16) == 16 * Pow2(12);
  }

  /** Up to 16 items there are at most 65536 combinations of any sizes, so a budget of 100000 holds. */
  lemma NeverExhaustsAtEngineSizes(pool: seq<Item>, target: int, tolerance: int, minTerms: nat, maxTerms: int,
                                   budget: nat, maxResults: nat)
    requires |pool| <= 16 && budget >= 100000
    ensures Searched(AllCombinations(pool, minTerms, maxTerms), target, tolerance, budget, maxResults).Found?
  {
    hide AllCombinations, Hitting, BinomialSum;
    AllCombinationsCount(pool, minTerms, maxTerms);
    BinomialSumMonotone(|pool|, 16, minTerms, maxTerms, 0, maxTerms);
    BinomialSumBound(16, maxTerms);
    Pow2Of16();
  }
}
