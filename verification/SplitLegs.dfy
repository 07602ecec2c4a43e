/** Reconstruction of settlements paid out across two or three bank credits. */
module SplitLegs {
  import opened Options
  import opened Sequences
  import opened SubsetSearch
  import opened LegacySubsets
  import opened KeySets

  const SPLIT_DRIFT_PAISE := 100
  const SPLIT_DATE_WINDOW := 5
  const SPLIT_MAX_CANDIDATES := 60
  const SPLIT_MAX_LEGS := 3

  /** The candidate credits: line key and amount in paise, their value dates (in days), and the
      keys that carry a strong Razorpay-origin signal. */
  datatype Pool = Pool(legs: seq<Item>, date: map<int, int>, strong: set<int>)

  datatype Payout = Payout(sid: int, net: int, date: Option<int>)

  predicate ValidPool(p: Pool) {
    DistinctIds(p.legs) && Positive(p.legs) && forall x :: x in p.legs ==> x.id in p.date
  }

  predicate InWindow(p: Pool, s: Payout, x: Item)
    requires x.id in p.date
  {
    s.date.Some? && -SPLIT_DATE_WINDOW <= p.date[x.id] - s.date.value <= SPLIT_DATE_WINDOW
  }

  /** A leg the settlement's pool takes in: dated near it and below its net. */
  predicate Eligible(p: Pool, s: Payout, x: Item) {
    s.net > 0 && x.value < s.net && x.id in p.date && InWindow(p, s, x)
  }

  function PoolOf(p: Pool, s: Payout): seq<Item> {
    Filter(p.legs, (x: Item) => Eligible(p, s, x))
  }

  predicate Oversized(p: Pool, s: Payout) {
    |PoolOf(p, s)| > SPLIT_MAX_CANDIDATES
  }

  /** The reference: two or three distinct eligible legs that sum to the net within the drift. */
  predicate IsGroup(p: Pool, s: Payout, t: seq<Item>) {
    && DistinctIds(t) && 2 <= |t| <= SPLIT_MAX_LEGS
    && (forall x :: x in t ==> x in p.legs && Eligible(p, s, x))
    && -SPLIT_DRIFT_PAISE <= Total(t) - s.net <= SPLIT_DRIFT_PAISE
  }

  datatype Match = Match(payout: Payout, legs: seq<Item>)

  // ----- Every matching subset of one pool

  /** What the enumeration keeps: the hits so far, with their key sets. */
  ghost predicate Collected(cs: seq<seq<Item>>, e: nat, target: int, tol: int, seen: set<set<int>>,
                            out: seq<seq<Item>>) {
    e <= |cs| && out == Hitting(cs[..e], target, tol) && seen == IdSets(out)
  }

  lemma CollectNext(cs: seq<seq<Item>>, e: nat, target: int, tol: int, seen: set<set<int>>, out: seq<seq<Item>>)
    requires Pairwise(cs, KeysDiffer) && Collected(cs, e, target, tol, seen, out) && e < |cs|
    ensures Hits(cs[e], target, tol) ==>
              IdSet(cs[e]) !in seen && Collected(cs, e + 1, target, tol, seen + {IdSet(cs[e])}, out + [cs[e]])
    ensures !Hits(cs[e], target, tol) ==> Collected(cs, e + 1, target, tol, seen, out)
  {
    hide Hits, IdSet;
    HittingNext(cs, e, target, tol);
    assert forall c :: c in cs[..e] ==> KeysDiffer(c, cs[e]);
    assert forall c :: c in out + [cs[e]] <==> c in out || c == cs[e];
  }

  /** Every distinct subset of two to `maxLegs` credits whose amounts sum to the target. */
  method AllSumSubsets(items: seq<Item>, target: int, tol: int, maxLegs: nat) returns (out: seq<seq<Item>>)
    requires DistinctIds(items)
    ensures out == Hitting(AllCombinations(items, 2, maxLegs), target, tol)
  {
    hide Combinations, AllCombinations, Hitting, Hits, IdSet, IdSets, Upcoming, Collected;
    ghost var cs := AllCombinations(items, 2, maxLegs);
    ghost var e := 0;
    AllKeysDiffer(items, 2, maxLegs);
    NothingCollected(cs, target, tol);
    out := [];
    var seen: set<set<int>> := {};
    var k := 2;
    while k <= maxLegs
      invariant Upcoming(cs, e, [], 0, AllCombinations(items, k, maxLegs)) && 2 <= k
      invariant Collected(cs, e, target, tol, seen, out)
    {
      var combos := Combinations(items, k);
      UpcomingTerms(cs, e, items, k, maxLegs);
      for i := 0 to |combos|
        invariant Upcoming(cs, e, combos, i, AllCombinations(items, k + 1, maxLegs))
        invariant Collected(cs, e, target, tol, seen, out)
      {
        var combo := combos[i];
        UpcomingNext(cs, e, combos, i, AllCombinations(items, k + 1, maxLegs));
        CollectNext(cs, e, target, tol, seen, out);
        if Hits(combo, target, tol) {
          var keys := IdSet(combo);
          if keys !in seen {
            seen := seen + {keys};
            out := out + [combo];
          }
        }
        e := e + 1;
      }
      UpcomingEnd(cs, e, combos, AllCombinations(items, k + 1, maxLegs));
      k := k + 1;
    }
    NoTermsLeft(items, k, maxLegs);
    UpcomingEnd(cs, e, [], AllCombinations(items, k, maxLegs));
    AllCollected(cs, e, target, tol, seen, out);
  }

  lemma NoTermsLeft(items: seq<Item>, k: nat, hi: int)
    requires k > hi
    ensures AllCombinations(items, k, hi) == []
  {
  }

  lemma NothingCollected(cs: seq<seq<Item>>, target: int, tol: int)
    ensures Upcoming(cs, 0, [], 0, cs) && Collected(cs, 0, target, tol, {}, [])
  {
    assert [] + cs == cs;
  }

  lemma AllCollected(cs: seq<seq<Item>>, e: nat, target: int, tol: int, seen: set<set<int>>, out: seq<seq<Item>>)
    requires Collected(cs, e, target, tol, seen, out) && cs[..e] == cs
    ensures out == Hitting(cs, target, tol)
  {
  }

  // ----- Phase 1: all matches over the full pool

  function Matching(p: Pool, s: Payout): seq<seq<Item>> {
    Hitting(AllCombinations(PoolOf(p, s), 2, SPLIT_MAX_LEGS), s.net, SPLIT_DRIFT_PAISE)
  }

  /** A settlement's matches are exactly its groups, each once. */
  lemma MatchingIsGroup(p: Pool, s: Payout, c: seq<Item>)
    requires ValidPool(p) && c in Matching(p, s)
    ensures IsGroup(p, s, c)
  {
    hide AllCombinations, PoolOf, Eligible;
    PoolMembers(p, s);
    VisitedIsSelection(PoolOf(p, s), s.net, SPLIT_DRIFT_PAISE, 2, SPLIT_MAX_LEGS, c);
  }

  lemma GroupIsMatching(p: Pool, s: Payout, t: seq<Item>) returns (c: seq<Item>)
    requires ValidPool(p) && IsGroup(p, s, t)
    ensures c in Matching(p, s) && IdSet(c) == IdSet(t)
  {
    hide AllCombinations, PoolOf, Eligible, Hitting;
    PoolMembers(p, s);
    c := SelectionIsVisited(PoolOf(p, s), s.net, SPLIT_DRIFT_PAISE, 2, SPLIT_MAX_LEGS, t);
    SameMembersSameKeys(c, t);
  }

  lemma PoolMembers(p: Pool, s: Payout)
    requires ValidPool(p)
    ensures DistinctIds(PoolOf(p, s))
    ensures forall x :: x in PoolOf(p, s) <==> x in p.legs && Eligible(p, s, x)
  {
    var notSame := (x: Item, y: Item) => x.id != y.id;
    assert Pairwise(p.legs, notSame);
    FilterPairwise(p.legs, (x: Item) => Eligible(p, s, x), notSame);
    assert Pairwise(PoolOf(p, s), notSame);
  }

  /** A settlement that is skipped or has fewer than two eligible legs has no groups. */
  lemma TooFewLegs(p: Pool, s: Payout)
    requires ValidPool(p) && |PoolOf(p, s)| < 2
    ensures Matching(p, s) == []
  {
    var pool := PoolOf(p, s);
    AllCombinationsCount(pool, 2, 3);
    assert BinomialSum(|pool|, 2, 3) == 0 by {
      assert Binomial(0, 2) == 0 && Binomial(0, 3) == 0 && Binomial(1, 2) == 0 && Binomial(1, 3) == 0;
    }
  }

  function Tag(s: Payout, cs: seq<seq<Item>>): (r: seq<Match>)
    ensures |r| == |cs| && forall i :: 0 <= i < |cs| ==> r[i] == Match(s, cs[i])
  {
    seq(|cs|, i requires 0 <= i < |cs| => Match(s, cs[i]))
  }

  function MatchesOfOne(p: Pool, s: Payout): seq<Match> {
    if Oversized(p, s) then [] else Tag(s, Matching(p, s))
  }

  function MatchesOf(p: Pool, ss: seq<Payout>): seq<Match> {
    if ss == [] then [] else MatchesOf(p, ss[..|ss| - 1]) + MatchesOfOne(p, ss[|ss| - 1])
  }

  /** Keys that some pool too large to enumerate takes in. */
  function PoisonedBy(p: Pool, ss: seq<Payout>): set<int> {
    if ss == [] then {}
    else
      var s := ss[|ss| - 1];
      PoisonedBy(p, ss[..|ss| - 1]) + if Oversized(p, s) then IdSet(PoolOf(p, s)) else {}
  }

  /** Phase 1 over the settlements in ascending id order. */
  method CollectMatches(p: Pool, ss: seq<Payout>) returns (matches: seq<Match>, poisoned: set<int>)
    requires ValidPool(p)
    ensures matches == MatchesOf(p, ss) && poisoned == PoisonedBy(p, ss)
  {
    hide ValidPool, Matching, PoolOf, IdSet, Eligible;
    matches, poisoned := [], {};
    for i := 0 to |ss|
      invariant matches == MatchesOf(p, ss[..i]) && poisoned == PoisonedBy(p, ss[..i])
    {
      var s := ss[i];
      assert ss[..i + 1][..i] == ss[..i];
      if s.net <= 0 || s.date == None {
        SkippedHasNoLegs(p, s);
        continue;
      }
      var elig := PoolOf(p, s);
      if |elig| < 2 {
        TooFewLegs(p, s);
        continue;
      }
      if |elig| > SPLIT_MAX_CANDIDATES {
        poisoned := poisoned + IdSet(elig);
        continue;
      }
      PoolMembers(p, s);
      var subs := AllSumSubsets(elig, s.net, SPLIT_DRIFT_PAISE, SPLIT_MAX_LEGS);
      MatchingOfPool(p, s, subs);
      matches := matches + Tag(s, subs);
    }
    assert ss[..|ss|] == ss;
  }

  lemma MatchingOfPool(p: Pool, s: Payout, subs: seq<seq<Item>>)
    requires subs == Hitting(AllCombinations(PoolOf(p, s), 2, SPLIT_MAX_LEGS), s.net, SPLIT_DRIFT_PAISE)
    ensures subs == Matching(p, s)
  {
  }

  lemma SkippedHasNoLegs(p: Pool, s: Payout)
    requires ValidPool(p) && (s.net <= 0 || s.date == None)
    ensures |PoolOf(p, s)| == 0 && Matching(p, s) == []
  {
    FilterNone(p.legs, (x: Item) => Eligible(p, s, x));
    TooFewLegs(p, s);
  }

  lemma {:induction false} MatchesMember(p: Pool, ss: seq<Payout>, m: Match)
    ensures m in MatchesOf(p, ss) <==> m.payout in ss && !Oversized(p, m.payout) && m.legs in Matching(p, m.payout)
  {
    hide Matching, Oversized;
    if ss != [] {
      var front, s := ss[..|ss| - 1], ss[|ss| - 1];
      assert ss == front + [s];
      MatchesMember(p, front, m);
      TagMember(s, Matching(p, s), m);
    }
  }

  lemma TagMember(s: Payout, cs: seq<seq<Item>>, m: Match)
    ensures m in Tag(s, cs) <==> m.payout == s && m.legs in cs
  {
    if m.payout == s && m.legs in cs {
      var i :| 0 <= i < |cs| && cs[i] == m.legs;
      assert Tag(s, cs)[i] == m;
    }
  }

  lemma {:induction false} PoisonedMember(p: Pool, ss: seq<Payout>, k: int)
    requires ValidPool(p)
    ensures k in PoisonedBy(p, ss) <==>
              exists s, x :: s in ss && x in p.legs && Oversized(p, s) && Eligible(p, s, x) && x.id == k
  {
    hide ValidPool, Oversized, Eligible, PoolOf;
    if ss != [] {
      var front, s := ss[..|ss| - 1], ss[|ss| - 1];
      assert ss == front + [s];
      PoisonedMember(p, front, k);
      PoolMembers(p, s);
    }
  }

  predicate MatchDiffers(a: Match, b: Match) {
    a.payout.sid != b.payout.sid || IdSet(a.legs) != IdSet(b.legs)
  }

  predicate DistinctSids(ss: seq<Payout>) {
    forall i, j :: 0 <= i < j < |ss| ==> ss[i].sid != ss[j].sid
  }

  lemma MatchingKeysDiffer(p: Pool, s: Payout)
    requires ValidPool(p)
    ensures Pairwise(Matching(p, s), KeysDiffer)
  {
    hide AllCombinations, PoolOf;
    PoolMembers(p, s);
    AllKeysDiffer(PoolOf(p, s), 2, SPLIT_MAX_LEGS);
    FilterPairwise(AllCombinations(PoolOf(p, s), 2, SPLIT_MAX_LEGS),
                   (c: seq<Item>) => Hits(c, s.net, SPLIT_DRIFT_PAISE), KeysDiffer);
  }

  lemma {:induction false} MatchesDiffer(p: Pool, ss: seq<Payout>)
    requires ValidPool(p) && DistinctSids(ss)
    ensures Pairwise(MatchesOf(p, ss), MatchDiffers)
  {
    hide Matching, Oversized, ValidPool, IdSet;
    if ss != [] {
      var front, s := ss[..|ss| - 1], ss[|ss| - 1];
      var a, b := MatchesOf(p, front), MatchesOfOne(p, s);
      MatchesDiffer(p, front);
      MatchingKeysDiffer(p, s);
      forall i, j | 0 <= i < j < |b|
        ensures MatchDiffers(b[i], b[j])
      {
        assert KeysDiffer(Matching(p, s)[i], Matching(p, s)[j]);
      }
      forall i, j | 0 <= i < |a| && 0 <= j < |b|
        ensures MatchDiffers(a[i], b[j])
      {
        assert a[i] in a;
        MatchesMember(p, front, a[i]);
      }
      PairwiseConcat(a, b, MatchDiffers);
    }
  }

  // ----- Phase 2: global conflict analysis

  datatype Lift = Lift(sid: int, legs: nat, residual: int)

  function PerSettlement(ms: seq<Match>, sid: int): nat {
    |Filter(ms, (m: Match) => m.payout.sid == sid)|
  }

  function PerKey(ms: seq<Match>, k: int): nat {
    |Filter(ms, (m: Match) => k in IdSet(m.legs))|
  }

  /** The match is its settlement's only one, shares no leg with another, has no poisoned leg and
      has a strong one. */
  predicate Assignable(ms: seq<Match>, poisoned: set<int>, strong: set<int>, m: Match) {
    && PerSettlement(ms, m.payout.sid) == 1
    && (forall x :: x in m.legs ==> PerKey(ms, x.id) == 1 && x.id !in poisoned)
    && exists x :: x in m.legs && x.id in strong
  }

  function LiftOf(m: Match): Lift {
    Lift(m.payout.sid, |m.legs|, Total(m.legs) - m.payout.net)
  }

  /** Phase 2: the credits lifted, each with its settlement, leg count and group residual. */
  method AssignGroups(ms: seq<Match>, poisoned: set<int>, strong: set<int>) returns (lifted: map<int, Lift>)
    ensures forall k :: k in lifted <==>
              exists m :: m in ms && Assignable(ms, poisoned, strong, m) && k in IdSet(m.legs)
    ensures forall m, k :: m in ms && Assignable(ms, poisoned, strong, m) && k in IdSet(m.legs) ==>
              lifted[k] == LiftOf(m)
  {
    hide Assignable, LiftOf, IdSet;
    lifted := map[];
    for i := 0 to |ms|
      invariant forall k :: k in lifted <==>
                  exists m :: m in ms[..i] && Assignable(ms, poisoned, strong, m) && k in IdSet(m.legs)
      invariant forall m, k :: m in ms[..i] && Assignable(ms, poisoned, strong, m) && k in IdSet(m.legs) ==>
                  lifted[k] == LiftOf(m)
    {
      var m := ms[i];
      ghost var before := lifted;
      TakeNext(ms, i);
      assert m in ms;
      if Assignable(ms, poisoned, strong, m) {
        lifted := lifted + map k | k in IdSet(m.legs) :: LiftOf(m);
        forall m', k | m' in ms[..i] && Assignable(ms, poisoned, strong, m') && k in IdSet(m'.legs)
          ensures k in IdSet(m.legs) ==> m' == m
        {
          if k in IdSet(m.legs) {
            SharedKey(ms, poisoned, strong, m, m', k);
          }
        }
      }
      AssignedStep(ms, poisoned, strong, i, before, lifted);
    }
    assert ms[..|ms|] == ms;
  }

  lemma SharedKey(ms: seq<Match>, poisoned: set<int>, strong: set<int>, m: Match, m': Match, k: int)
    requires m in ms && m' in ms && Assignable(ms, poisoned, strong, m) && k in IdSet(m.legs) && k in IdSet(m'.legs)
    ensures m == m'
  {
    var x :| x in m.legs && x.id == k;
    FilterSingle(ms, (n: Match) => k in IdSet(n.legs), m, m');
  }

  lemma AssignedStep(ms: seq<Match>, poisoned: set<int>, strong: set<int>, i: nat, before: map<int, Lift>,
                     after: map<int, Lift>)
    requires i < |ms|
    requires forall k :: k in before <==>
               exists m :: m in ms[..i] && Assignable(ms, poisoned, strong, m) && k in IdSet(m.legs)
    requires after == if Assignable(ms, poisoned, strong, ms[i])
                      then before + map k | k in IdSet(ms[i].legs) :: LiftOf(ms[i]) else before
    ensures forall k :: k in after <==>
              exists m :: m in ms[..i + 1] && Assignable(ms, poisoned, strong, m) && k in IdSet(m.legs)
  {
    hide Assignable, LiftOf, IdSet;
    TakeNext(ms, i);
    assert ms[i] in ms[..i + 1];
    forall k
      ensures k in after <==> exists m :: m in ms[..i + 1] && Assignable(ms, poisoned, strong, m) && k in IdSet(m.legs)
    {
      if m :| m in ms[..i + 1] && Assignable(ms, poisoned, strong, m) && k in IdSet(m.legs) {
        assert m in ms[..i] || m == ms[i];
      }
    }
  }

  // ----- Lifted exactly when nothing rivals the group

  /** Any group of any settlement, enumerable or not, that shares a leg with `t` is `t` itself. */
  ghost predicate OnlyGroupOfItsLegs(p: Pool, ss: seq<Payout>, s: Payout, t: seq<Item>) {
    forall s', t' :: s' in ss && IsGroup(p, s', t') && !(IdSet(t') !! IdSet(t)) ==> s' == s && IdSet(t') == IdSet(t)
  }

  ghost predicate OnlyGroupOfItsSettlement(p: Pool, s: Payout, t: seq<Item>) {
    forall t' :: IsGroup(p, s, t') ==> IdSet(t') == IdSet(t)
  }

  /** No leg is taken in by a pool too large to enumerate. */
  ghost predicate Untainted(p: Pool, ss: seq<Payout>, t: seq<Item>) {
    forall s, x :: s in ss && x in t && Oversized(p, s) ==> !Eligible(p, s, x)
  }

  ghost predicate Unrivalled(p: Pool, ss: seq<Payout>, s: Payout, t: seq<Item>) {
    && s in ss && IsGroup(p, s, t) && !Oversized(p, s)
    && OnlyGroupOfItsLegs(p, ss, s, t) && OnlyGroupOfItsSettlement(p, s, t) && Untainted(p, ss, t)
    && exists x :: x in t && x.id in p.strong
  }

  lemma GroupIsMatch(p: Pool, ss: seq<Payout>, s: Payout, t: seq<Item>) returns (m: Match)
    requires ValidPool(p) && s in ss && IsGroup(p, s, t) && !Oversized(p, s)
    ensures m in MatchesOf(p, ss) && m.payout == s && IdSet(m.legs) == IdSet(t)
  {
    hide Matching, Oversized, IsGroup, IdSet, MatchesOf;
    var c := GroupIsMatching(p, s, t);
    m := Match(s, c);
    MatchesMember(p, ss, m);
  }

  lemma AssignableIsUntainted(p: Pool, ss: seq<Payout>, m: Match)
    requires ValidPool(p) && Assignable(MatchesOf(p, ss), PoisonedBy(p, ss), p.strong, m)
             && forall x :: x in m.legs ==> x in p.legs
    ensures Untainted(p, ss, m.legs)
  {
    hide Oversized, Eligible, MatchesOf, PoisonedBy, PerKey, PerSettlement;
    forall s, x | s in ss && x in m.legs && Oversized(p, s)
      ensures !Eligible(p, s, x)
    {
      PoisonedMember(p, ss, x.id);
    }
  }

  lemma SharedLegs(t: seq<Item>, t': seq<Item>) returns (x: Item)
    requires !(IdSet(t') !! IdSet(t))
    ensures x in t && x.id in IdSet(t')
  {
    var k := AnyCommon(IdSet(t'), IdSet(t));
    x :| x in t && x.id == k;
  }

  lemma AssignableIsUnrivalled(p: Pool, ss: seq<Payout>, m: Match)
    requires ValidPool(p) && DistinctSids(ss)
    requires m in MatchesOf(p, ss) && Assignable(MatchesOf(p, ss), PoisonedBy(p, ss), p.strong, m)
    ensures Unrivalled(p, ss, m.payout, m.legs)
  {
    hide Oversized, MatchesOf, PoisonedBy, Matching, IdSet, IsGroup, Eligible;
    var ms, s, t := MatchesOf(p, ss), m.payout, m.legs;
    MatchesMember(p, ss, m);
    MatchingIsGroup(p, s, t);
    GroupLegs(p, s, t);
    AssignableIsUntainted(p, ss, m);
    forall s', t' | s' in ss && IsGroup(p, s', t') && !(IdSet(t') !! IdSet(t))
      ensures s' == s && IdSet(t') == IdSet(t)
    {
      var x := SharedLegs(t, t');
      GroupNotOversized(p, ss, s', t', t, x);
      var m' := GroupIsMatch(p, ss, s', t');
      LegKey(t, x);
      SharedKey(ms, PoisonedBy(p, ss), p.strong, m, m', x.id);
    }
    forall t' | IsGroup(p, s, t')
      ensures IdSet(t') == IdSet(t)
    {
      var m' := GroupIsMatch(p, ss, s, t');
      FilterSingle(ms, (n: Match) => n.payout.sid == s.sid, m, m');
    }
  }

  lemma LegKey(t: seq<Item>, x: Item)
    requires x in t
    ensures x.id in IdSet(t)
  {
  }

  lemma GroupLegs(p: Pool, s: Payout, t: seq<Item>)
    requires IsGroup(p, s, t)
    ensures forall x :: x in t ==> x in p.legs
  {
  }

  /** A group that shares an untainted leg belongs to an enumerable settlement. */
  lemma GroupNotOversized(p: Pool, ss: seq<Payout>, s': Payout, t': seq<Item>, t: seq<Item>, x: Item)
    requires ValidPool(p) && s' in ss && IsGroup(p, s', t') && Untainted(p, ss, t) && x in t && x in p.legs
    requires x.id in IdSet(t')
    ensures !Oversized(p, s')
  {
    hide Oversized, Eligible;
    var y :| y in t' && y.id == x.id;
    assert y in p.legs;
    SameLeg(p, x, y);
  }

  lemma SameLeg(p: Pool, x: Item, y: Item)
    requires ValidPool(p) && x in p.legs && y in p.legs
    ensures x.id == y.id ==> x == y
  {
    var i :| 0 <= i < |p.legs| && p.legs[i] == x;
    var j :| 0 <= j < |p.legs| && p.legs[j] == y;
    assert i < j || j < i || i == j;
  }

  lemma UnrivalledIsAssignable(p: Pool, ss: seq<Payout>, s: Payout, t: seq<Item>) returns (m: Match)
    requires ValidPool(p) && DistinctSids(ss) && Unrivalled(p, ss, s, t)
    ensures m in MatchesOf(p, ss) && m.payout == s && IdSet(m.legs) == IdSet(t)
    ensures Assignable(MatchesOf(p, ss), PoisonedBy(p, ss), p.strong, m)
  {
    hide Oversized, MatchesOf, PoisonedBy, Matching, IdSet, IsGroup, Eligible, Untainted, MatchDiffers;
    var ms := MatchesOf(p, ss);
    m := GroupIsMatch(p, ss, s, t);
    MatchesDiffer(p, ss);
    forall n | n in ms
      ensures n.payout.sid == s.sid || !(IdSet(n.legs) !! IdSet(t)) ==> IdSet(n.legs) == IdSet(t) && n.payout == s
    {
      MatchesMember(p, ss, n);
      MatchingIsGroup(p, n.payout, n.legs);
      SameSid(ss, n.payout, s);
    }
    OneOfSettlement(ms, m, s, t);
    forall x | x in m.legs
      ensures PerKey(ms, x.id) == 1 && x.id !in PoisonedBy(p, ss)
    {
      LegKey(m.legs, x);
      OneOfKey(ms, m, s, t, x.id);
      UntaintedKey(p, ss, s, t, x.id);
    }
    var y :| y in t && y.id in p.strong;
    LegKey(t, y);
    var z := LegOf(m.legs, y.id);
  }

  lemma LegOf(t: seq<Item>, k: int) returns (x: Item)
    requires k in IdSet(t)
    ensures x in t && x.id == k
  {
    x :| x in t && x.id == k;
  }

  lemma SameSid(ss: seq<Payout>, a: Payout, b: Payout)
    requires DistinctSids(ss) && a in ss && b in ss
    ensures a.sid == b.sid ==> a == b
  {
  }

  lemma OneOfSettlement(ms: seq<Match>, m: Match, s: Payout, t: seq<Item>)
    requires Pairwise(ms, MatchDiffers) && m in ms && m.payout == s && IdSet(m.legs) == IdSet(t)
    requires forall n :: n in ms && n.payout.sid == s.sid ==> IdSet(n.legs) == IdSet(t)
    ensures PerSettlement(ms, s.sid) == 1
  {
    hide Filter, IdSet;
    FilterExactlyOne(ms, (n: Match) => n.payout.sid == s.sid, MatchDiffers, m);
  }

  lemma OneOfKey(ms: seq<Match>, m: Match, s: Payout, t: seq<Item>, k: int)
    requires Pairwise(ms, MatchDiffers) && m in ms && m.payout == s && IdSet(m.legs) == IdSet(t) && k in IdSet(t)
    requires forall n :: n in ms && !(IdSet(n.legs) !! IdSet(t)) ==> IdSet(n.legs) == IdSet(t) && n.payout == s
    ensures PerKey(ms, k) == 1
  {
    hide Filter, IdSet;
    FilterExactlyOne(ms, (n: Match) => k in IdSet(n.legs), MatchDiffers, m);
  }

  lemma UntaintedKey(p: Pool, ss: seq<Payout>, s: Payout, t: seq<Item>, k: int)
    requires ValidPool(p) && IsGroup(p, s, t) && Untainted(p, ss, t) && k in IdSet(t)
    ensures k !in PoisonedBy(p, ss)
  {
    hide Oversized, Eligible;
    PoisonedMember(p, ss, k);
    var y := LegOf(t, k);
    assert y in p.legs;
    forall x | x in p.legs && x.id == k
      ensures x == y
    {
      SameLeg(p, x, y);
    }
  }

  /** Both phases: a credit is lifted if and only if it is a leg of an unrivalled group, and its
      record names that group's settlement, size and residual. */
  method ReconstructGroups(p: Pool, ss: seq<Payout>) returns (lifted: map<int, Lift>)
    requires ValidPool(p) && DistinctSids(ss)
    ensures forall k :: k in lifted <==> exists s, t :: Unrivalled(p, ss, s, t) && k in IdSet(t)
    ensures forall s, t, k :: Unrivalled(p, ss, s, t) && k in IdSet(t) ==>
              lifted[k] == Lift(s.sid, |t|, Total(t) - s.net)
  {
    hide Unrivalled, MatchesOf, PoisonedBy, Assignable, IdSet, Total;
    var matches, poisoned := CollectMatches(p, ss);
    lifted := AssignGroups(matches, poisoned, p.strong);
    forall k | k in lifted
      ensures exists s, t :: Unrivalled(p, ss, s, t) && k in IdSet(t)
    {
      var m :| m in matches && Assignable(matches, poisoned, p.strong, m) && k in IdSet(m.legs);
      AssignableIsUnrivalled(p, ss, m);
    }
    forall s, t, k | Unrivalled(p, ss, s, t) && k in IdSet(t)
      ensures k in lifted && lifted[k] == Lift(s.sid, |t|, Total(t) - s.net)
    {
      var m := UnrivalledIsAssignable(p, ss, s, t);
      SameGroupSameLift(p, ss, m, s, t);
    }
  }

  lemma SameGroupSameLift(p: Pool, ss: seq<Payout>, m: Match, s: Payout, t: seq<Item>)
    requires ValidPool(p) && Unrivalled(p, ss, s, t) && m in MatchesOf(p, ss) && m.payout == s
    requires IdSet(m.legs) == IdSet(t)
    ensures LiftOf(m) == Lift(s.sid, |t|, Total(t) - s.net)
  {
    hide Oversized, Eligible, MatchesOf, Matching, IdSet, Untainted, OnlyGroupOfItsLegs, OnlyGroupOfItsSettlement;
    MatchesMember(p, ss, m);
    MatchingIsGroup(p, s, m.legs);
    SameKeysSameMembers(p.legs, m.legs, t);
    TotalOfMembers(m.legs, t);
    assert |multiset(m.legs)| == |multiset(t)|;
  }

  /** Two lifted groups share no credit and no settlement unless they are the same group. */
  lemma LiftedGroupsAreDisjoint(p: Pool, ss: seq<Payout>, s: Payout, t: seq<Item>, s': Payout, t': seq<Item>)
    requires Unrivalled(p, ss, s, t) && Unrivalled(p, ss, s', t')
    ensures s != s' ==> IdSet(t) !! IdSet(t')
    ensures s == s' ==> IdSet(t) == IdSet(t')
  {
    hide IsGroup, Oversized, Untainted, IdSet;
    assert OnlyGroupOfItsLegs(p, ss, s, t) && OnlyGroupOfItsSettlement(p, s, t);
  }

  // ----- The eligibility bound: legs at or above the net are not considered

  /** A group without the bound that every leg is below the net. */
  predicate IsWideGroup(p: Pool, s: Payout, t: seq<Item>) {
    && DistinctIds(t) && 2 <= |t| <= SPLIT_MAX_LEGS && s.net > 0
    && (forall x :: x in t ==> x in p.legs && x.id in p.date && InWindow(p, s, x))
    && -SPLIT_DRIFT_PAISE <= Total(t) - s.net <= SPLIT_DRIFT_PAISE
  }

  /** A dated pair in the window that makes the net within the drift although one leg alone reaches it. */
  ghost predicate HasOverlargePair(p: Pool, s: Payout) {
    exists x, y :: x in p.legs && y in p.legs && OverlargePair(p, s, x, y)
  }

  predicate OverlargePair(p: Pool, s: Payout, x: Item, y: Item) {
    && s.net > 0 && x.id != y.id && x.id in p.date && y.id in p.date && InWindow(p, s, x) && InWindow(p, s, y)
    && x.value >= s.net && x.value + y.value <= s.net + SPLIT_DRIFT_PAISE
  }

  /** The search sees every in-window group of a settlement if and only if no such pair exists. */
  lemma SeesEveryGroupExactlyWhen(p: Pool, s: Payout)
    requires ValidPool(p)
    ensures (forall t :: IsWideGroup(p, s, t) ==> IsGroup(p, s, t)) <==> !HasOverlargePair(p, s)
  {
    hide InWindow;
    if HasOverlargePair(p, s) {
      var x, y :| x in p.legs && y in p.legs && OverlargePair(p, s, x, y);
      var t := [x, y];
      TotalOfTwo(x, y);
      assert IsWideGroup(p, s, t);
      assert x in t && !Eligible(p, s, x);
    } else {
      forall t | IsWideGroup(p, s, t)
        ensures IsGroup(p, s, t)
      {
        forall x: Item | x in t
          ensures x.value < s.net
        {
          OverlargeLeg(p, s, t, x);
        }
      }
    }
  }

  lemma TotalOfTwo(x: Item, y: Item)
    ensures Total([x, y]) == x.value + y.value
  {
    assert [x, y][1..] == [y] && Total([y]) == y.value;
  }

  /** A leg that reaches the net alone pairs up with any other leg of its group. */
  lemma PairsUp(p: Pool, s: Payout, t: seq<Item>, x: Item, y: Item)
    requires ValidPool(p) && IsWideGroup(p, s, t) && x in t && y in t && x.id != y.id && x.value >= s.net
    ensures OverlargePair(p, s, x, y)
  {
    hide InWindow;
    var i :| 0 <= i < |t| && t[i] == x;
    var j :| 0 <= j < |t| && t[j] == y;
    TotalDrop(t, i);
    var rest := Drop(t, i);
    var l := if j < i then j else j - 1;
    assert rest[l] == y;
    TotalDrop(rest, l);
    RestIsPositive(p, Drop(rest, l));
  }

  lemma OtherLeg(t: seq<Item>, x: Item) returns (y: Item)
    requires DistinctIds(t) && |t| >= 2 && x in t
    ensures y in t && y.id != x.id
  {
    y := if t[0] == x then t[1] else t[0];
  }

  lemma OverlargeLeg(p: Pool, s: Payout, t: seq<Item>, x: Item)
    requires ValidPool(p) && IsWideGroup(p, s, t) && x in t && !HasOverlargePair(p, s)
    ensures x.value < s.net
  {
    hide InWindow;
    if x.value >= s.net {
      var y := OtherLeg(t, x);
      PairsUp(p, s, t, x, y);
    }
  }

  /** An overlarge pair of some settlement that takes a leg of `t`. */
  ghost predicate TakenByOverlargePair(p: Pool, ss: seq<Payout>, t: seq<Item>) {
    exists s', x, y :: s' in ss && x in p.legs && y in p.legs && OverlargePair(p, s', x, y)
                       && (x.id in IdSet(t) || y.id in IdSet(t))
  }

  /** Any in-window group of any settlement, leg sizes unbounded, that shares a leg with `t` is `t`. */
  ghost predicate OnlyWideGroupOfItsLegs(p: Pool, ss: seq<Payout>, s: Payout, t: seq<Item>) {
    forall s', t' :: s' in ss && IsWideGroup(p, s', t') && !(IdSet(t') !! IdSet(t)) ==> s' == s && IdSet(t') == IdSet(t)
  }

  /** A lifted credit's group is the only in-window group of its legs if and only if no overlarge pair
      of any settlement takes one of them. */
  lemma LiftedIsUniqueExactlyWhen(p: Pool, ss: seq<Payout>, s: Payout, t: seq<Item>)
    requires ValidPool(p) && Unrivalled(p, ss, s, t)
    ensures OnlyWideGroupOfItsLegs(p, ss, s, t) <==> !TakenByOverlargePair(p, ss, t)
  {
    hide InWindow, Oversized, Untainted, IdSet, IsWideGroup, OverlargePair, IsGroup;
    if TakenByOverlargePair(p, ss, t) {
      var s', x, y :| s' in ss && x in p.legs && y in p.legs && OverlargePair(p, s', x, y)
                      && (x.id in IdSet(t) || y.id in IdSet(t));
      OverlargePairRivals(p, s', x, y, s, t);
      assert !OnlyWideGroupOfItsLegs(p, ss, s, t);
    } else {
      forall s', t' | s' in ss && IsWideGroup(p, s', t') && !(IdSet(t') !! IdSet(t))
        ensures s' == s && IdSet(t') == IdSet(t)
      {
        if !IsGroup(p, s', t') {
          var x, y := WideRivalHasPair(p, s', t', t);
        }
      }
    }
  }

  /** Such a pair is a second group of the leg it takes. */
  lemma OverlargePairRivals(p: Pool, s': Payout, x: Item, y: Item, s: Payout, t: seq<Item>)
    requires ValidPool(p) && x in p.legs && y in p.legs && OverlargePair(p, s', x, y) && IsGroup(p, s, t)
    requires x.id in IdSet(t) || y.id in IdSet(t)
    ensures IsWideGroup(p, s', [x, y]) && !(IdSet([x, y]) !! IdSet(t))
    ensures s' != s || IdSet([x, y]) != IdSet(t)
  {
    hide InWindow;
    TotalOfTwo(x, y);
    var t' := [x, y];
    assert x in t' && y in t';
    LegKey(t', x);
    LegKey(t', y);
    if s' == s && IdSet(t') == IdSet(t) {
      var z := LegOf(t, x.id);
      SameLeg(p, x, z);
    }
  }

  /** A rival the search does not see holds such a pair with a leg of `t`. */
  lemma WideRivalHasPair(p: Pool, s': Payout, t': seq<Item>, t: seq<Item>) returns (x: Item, y: Item)
    requires ValidPool(p) && IsWideGroup(p, s', t') && !IsGroup(p, s', t') && !(IdSet(t') !! IdSet(t))
    ensures x in p.legs && y in p.legs && OverlargePair(p, s', x, y) && (x.id in IdSet(t) || y.id in IdSet(t))
  {
    hide InWindow, IdSet, OverlargePair;
    var k := AnyCommon(IdSet(t'), IdSet(t));
    var z := LegOf(t', k);
    x :| x in t' && !Eligible(p, s', x);
    y := z;
    if x.id == k {
      y := OtherLeg(t', x);
    }
    PairsUp(p, s', t', x, y);
  }

  lemma {:induction false} RestIsPositive(p: Pool, t: seq<Item>)
    requires Positive(p.legs) && forall x :: x in t ==> x in p.legs
    ensures Total(t) >= 0
  {
    if t != [] {
      assert t[0] in t;
      RestIsPositive(p, t[1..]);
    }
  }

  /** The concrete failure of the wider claim: credit 1 is lifted to settlement 1 although, counting
      legs at or above the net, it also makes settlement 2 within the drift. */
  lemma LiftedDespiteWideRival()
    ensures var a, b, c := Item(1, 600), Item(2, 400), Item(3, 90);
            var p := Pool([a, b, c], map[1 := 4, 2 := 0, 3 := 9], {1});
            var s1, s2 := Payout(1, 1000, Some(0)), Payout(2, 595, Some(8));
            ValidPool(p) && Unrivalled(p, [s1, s2], s1, [a, b]) && IsWideGroup(p, s2, [a, c])
  {
    hide IdSet, Total, Oversized;
    var a, b, c := Item(1, 600), Item(2, 400), Item(3, 90);
    var p := Pool([a, b, c], map[1 := 4, 2 := 0, 3 := 9], {1});
    var s1, s2 := Payout(1, 1000, Some(0)), Payout(2, 595, Some(8));
    var t := [a, b];
    TotalOfTwo(a, b);
    TotalOfTwo(a, c);
    SmallPool(p, s1);
    SmallPool(p, s2);
    forall t' | IsGroup(p, s1, t')
      ensures IdSet(t') == IdSet(t)
    {
      TwoOfTwo(t', a, b);
    }
    forall t'
      ensures !IsGroup(p, s2, t')
    {
      TwoDifferentLegs(t');
    }
    assert a in t && a.id in p.strong;
  }

  lemma TwoDifferentLegs(t: seq<Item>)
    ensures DistinctIds(t) && |t| >= 2 ==> exists x, y :: x in t && y in t && x.id != y.id
  {
    if DistinctIds(t) && |t| >= 2 {
      assert t[0] in t && t[1] in t && t[0].id != t[1].id;
    }
  }

  lemma SmallPool(p: Pool, s: Payout)
    requires |p.legs| <= SPLIT_MAX_CANDIDATES
    ensures !Oversized(p, s)
  {
  }

  lemma TwoOfTwo(t: seq<Item>, a: Item, b: Item)
    requires DistinctIds(t) && |t| >= 2 && forall x :: x in t ==> x == a || x == b
    ensures IdSet(t) == IdSet([a, b])
  {
    assert t[0] in t && t[1] in t;
    assert IdSet([a, b]) == {a.id, b.id};
    assert t[0].id in IdSet(t) && t[1].id in IdSet(t);
  }
}
