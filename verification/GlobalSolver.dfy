/** The whole-period solver: component optima, competing-world margin and verdicts. */
module GlobalSolver {
  import opened Options
  import opened Sequences
  import opened Assignments
  import opened BranchAndBound
  import opened Components

  /** The whole-period problem: nothing taken, nothing excluded. */
  function Whole(g: Graph): Problem {
    Problem(g, {}, {})
  }

  // ----- Components are independent

  lemma CandidateStaysInside(g: Graph, comp: set<Key>, c: Candidate, d: Candidate)
    requires WellFormed(g) && Closed(g, comp) && c in g.candidates && d in g.candidates && !(c.keys !! comp)
    ensures c.keys <= comp
    ensures Compete(c, d) ==> d.keys <= comp
  {
    assert WellFormedCandidate(g, c) && WellFormedCandidate(g, d);
    var k := AnyCommon(c.keys, comp);
    if !c.target.Settlement? {
      SingletonKey(c.keys, k);
    } else {
      assert Compete(c, c);
      forall b | b in c.keys
        ensures b in comp
      {
        assert b == k || Linked(g, k, b);
      }
    }
    if Compete(c, d) {
      forall b | b in d.keys
        ensures b in comp
      {
        assert b == k || Linked(g, k, b);
      }
    }
  }

  function Inside(a: seq<Candidate>, comp: set<Key>): seq<Candidate> {
    Filter(a, (c: Candidate) => c.keys <= comp)
  }

  function Outside(a: seq<Candidate>, comp: set<Key>): seq<Candidate> {
    Filter(a, (c: Candidate) => !(c.keys <= comp))
  }

  lemma SplitStep(a: seq<Candidate>, comp: set<Key>)
    requires a != []
    ensures a == [a[0]] + a[1..]
    ensures a[0].keys <= comp ==>
              Inside(a, comp) == [a[0]] + Inside(a[1..], comp) && Outside(a, comp) == Outside(a[1..], comp)
    ensures !(a[0].keys <= comp) ==>
              Inside(a, comp) == Inside(a[1..], comp) && Outside(a, comp) == [a[0]] + Outside(a[1..], comp)
  {
  }

  lemma CostSplitsEmpty(comp: set<Key>)
    ensures TotalCost([]) == Add(TotalCost(Inside([], comp)), TotalCost(Outside([], comp)))
  {
  }

  lemma {:induction false} CostSplits(a: seq<Candidate>, comp: set<Key>)
    ensures TotalCost(a) == Add(TotalCost(Inside(a, comp)), TotalCost(Outside(a, comp)))
  {
    hide Inside, Outside, TotalCost, Add;
    if a == [] {
      CostSplitsEmpty(comp);
    } else {
      var c, i, o := a[0], Inside(a[1..], comp), Outside(a[1..], comp);
      AddSwap(TotalCost(i), c.cost, TotalCost(o));
      CostSplits(a[1..], comp);
      SplitStep(a, comp);
      TotalCostPrepend(c, a[1..]);
      if c.keys <= comp {
        TotalCostPrepend(c, i);
      } else {
        TotalCostPrepend(c, o);
      }
    }
  }

  lemma AssignmentSplits(g: Graph, credits: set<Key>, comp: set<Key>, a: seq<Candidate>)
    requires WellFormed(g) && Closed(g, comp) && comp <= credits && IsAssignment(Whole(g), credits, a)
    ensures IsAssignment(Whole(g), comp, Inside(a, comp))
    ensures IsAssignment(Whole(g), credits - comp, Outside(a, comp))
  {
    hide WellFormed, Closed, Filter;
    SplitsKeepApart(a, comp);
    forall c | c in a && !(c.keys <= comp)
      ensures c.keys <= credits - comp
    {
      if !(c.keys !! comp) {
        CandidateStaysInside(g, comp, c, c);
      }
    }
    forall k | k in credits
      ensures k in comp ==> exists c :: c in Inside(a, comp) && k in c.keys
      ensures k !in comp ==> exists c :: c in Outside(a, comp) && k in c.keys
    {
      var i := CoveringIndex(credits, a, k);
      assert a[i] in a;
      if k in comp {
        CandidateStaysInside(g, comp, a[i], a[i]);
        assert a[i] in Inside(a, comp);
      } else {
        assert a[i] in Outside(a, comp);
      }
    }
  }

  lemma SplitsKeepApart(a: seq<Candidate>, comp: set<Key>)
    requires NoClash(a)
    ensures NoClash(Inside(a, comp)) && NoClash(Outside(a, comp))
  {
    hide Filter;
    var noClash := (c: Candidate, d: Candidate) =>
      !(!(c.keys !! d.keys) || (c.target.Settlement? && c.target == d.target));
    assert Pairwise(a, noClash);
    FilterPairwise(a, (c: Candidate) => c.keys <= comp, noClash);
    FilterPairwise(a, (c: Candidate) => !(c.keys <= comp), noClash);
    assert Pairwise(Inside(a, comp), noClash) && Pairwise(Outside(a, comp), noClash);
  }

  lemma AssignmentJoins(g: Graph, comp: set<Key>, rest: set<Key>, a: seq<Candidate>, b: seq<Candidate>)
    requires WellFormed(g) && Closed(g, comp) && comp !! rest
    requires IsAssignment(Whole(g), comp, a) && IsAssignment(Whole(g), rest, b)
    ensures IsAssignment(Whole(g), comp + rest, a + b)
  {
    hide WellFormed, Closed;
    var s := a + b;
    forall c, d | c in a && d in b
      ensures !Clash(c, d)
    {
      NoCrossClash(g, comp, rest, c, d);
    }
    forall i, j | 0 <= i < j < |s|
      ensures !Clash(s[i], s[j])
    {
      if j < |a| {
        assert s[i] == a[i] && s[j] == a[j];
      } else if i >= |a| {
        assert s[i] == b[i - |a|] && s[j] == b[j - |a|];
      } else {
        assert s[i] in a && s[j] in b;
      }
    }
    forall k | k in comp + rest
      ensures exists c :: c in s && k in c.keys
    {
      if k in comp {
        var i := CoveringIndex(comp, a, k);
        assert a[i] in s;
      } else {
        var i := CoveringIndex(rest, b, k);
        assert b[i] in s;
      }
    }
  }

  lemma NoCrossClash(g: Graph, comp: set<Key>, rest: set<Key>, c: Candidate, d: Candidate)
    requires WellFormed(g) && Closed(g, comp) && comp !! rest
    requires c in g.candidates && d in g.candidates && c.keys <= comp && d.keys <= rest
    ensures !Clash(c, d)
  {
    assert WellFormedCandidate(g, c) && WellFormedCandidate(g, d);
    var k, l := AnyOf(c.keys), AnyOf(d.keys);
    CandidateStaysInside(g, comp, c, d);
  }

  function Flatten(sols: seq<seq<Candidate>>): seq<Candidate> {
    if sols == [] then [] else sols[0] + Flatten(sols[1..])
  }

  function Union(comps: seq<set<Key>>): (u: set<Key>)
    ensures forall c :: c in comps ==> c <= u
    ensures forall k :: k in u ==> exists c :: c in comps && k in c
  {
    if comps == [] then {} else
      assert forall c :: c in comps ==> c == comps[0] || c in comps[1..];
      assert forall c :: c in comps[1..] ==> c in comps;
      comps[0] + Union(comps[1..])
  }

  ghost predicate AllClosed(g: Graph, comps: seq<set<Key>>) {
    Pairwise(comps, Disjoint) && forall c :: c in comps ==> Closed(g, c)
  }

  ghost predicate SolvedEach(g: Graph, comps: seq<set<Key>>, sols: seq<seq<Candidate>>) {
    |sols| == |comps| && forall i :: 0 <= i < |comps| ==> IsAssignment(Whole(g), comps[i], sols[i])
  }

  ghost predicate OptimalEach(g: Graph, comps: seq<set<Key>>, sols: seq<seq<Candidate>>) {
    |sols| == |comps| && forall i :: 0 <= i < |comps| ==> IsOptimal(Whole(g), comps[i], sols[i])
  }

  lemma UnionDisjoint(comps: seq<set<Key>>)
    requires comps != [] && Pairwise(comps, Disjoint)
    ensures comps[0] !! Union(comps[1..])
  {
    assert forall i :: 1 <= i < |comps| ==> Disjoint(comps[0], comps[i]);
    assert forall c :: c in comps[1..] ==> comps[0] !! c;
  }

  /** Valid component assignments together are a valid assignment of all their credits. */
  lemma {:induction false} ComponentsCompose(g: Graph, comps: seq<set<Key>>, sols: seq<seq<Candidate>>)
    requires WellFormed(g) && AllClosed(g, comps) && SolvedEach(g, comps, sols)
    ensures IsAssignment(Whole(g), Union(comps), Flatten(sols))
  {
    hide WellFormed, Closed, IsAssignment;
    if comps == [] {
      EmptyAssignment(g);
    } else {
      assert SolvedEach(g, comps[1..], sols[1..]);
      assert AllClosed(g, comps[1..]);
      ComponentsCompose(g, comps[1..], sols[1..]);
      UnionDisjoint(comps);
      assert comps[0] in comps;
      AssignmentJoins(g, comps[0], Union(comps[1..]), sols[0], Flatten(sols[1..]));
    }
  }

  lemma EmptyAssignment(g: Graph)
    ensures IsAssignment(Whole(g), {}, [])
  {
  }

  lemma AddNotLess(a: Cost, a': Cost, b: Cost, b': Cost)
    requires !Less(a', a) && !Less(b', b)
    ensures !Less(Add(a', b'), Add(a, b))
  {
  }

  /** Optimal component assignments together cost no more than any whole-period assignment. */
  lemma {:induction false} ComponentsOptimal(g: Graph, comps: seq<set<Key>>, sols: seq<seq<Candidate>>,
                                             b: seq<Candidate>)
    requires WellFormed(g) && AllClosed(g, comps) && OptimalEach(g, comps, sols)
    requires IsAssignment(Whole(g), Union(comps), b)
    ensures !Less(TotalCost(b), TotalCost(Flatten(sols)))
  {
    hide WellFormed, Closed, IsAssignment, TotalCost, Add, Less, Inside, Outside;
    if comps == [] {
      EmptyIsOnly(g, b);
    } else {
      var comp, rest := comps[0], Union(comps[1..]);
      assert comp in comps;
      UnionDisjoint(comps);
      assert Union(comps) - comp == rest;
      AssignmentSplits(g, Union(comps), comp, b);
      CostSplits(b, comp);
      assert OptimalEach(g, comps[1..], sols[1..]);
      assert AllClosed(g, comps[1..]);
      ComponentsOptimal(g, comps[1..], sols[1..], Outside(b, comp));
      TotalCostConcat(sols[0], Flatten(sols[1..]));
      AddNotLess(TotalCost(sols[0]), TotalCost(Inside(b, comp)), TotalCost(Flatten(sols[1..])),
                 TotalCost(Outside(b, comp)));
    }
  }

  lemma EmptyIsOnly(g: Graph, b: seq<Candidate>)
    requires WellFormed(g) && IsAssignment(Whole(g), {}, b)
    ensures b == [] && !Less(TotalCost([]), TotalCost([]))
  {
    assert b == [] || (b[0] in b && WellFormedCandidate(g, b[0]));
  }

  // ----- One component inside the whole-period run

  /** No candidate that touches the component targets a blocked settlement. */
  ghost predicate Unblocked(g: Graph, comp: set<Key>, blocked: set<Sid>) {
    forall c :: c in g.candidates && !(c.keys !! comp) && c.target.Settlement? ==> c.target.sid !in blocked
  }

  /** Settlements taken by earlier components never block a later one. */
  lemma BlockedIsIrrelevant(g: Graph, comp: set<Key>, blocked: set<Sid>, excluded: set<string>, a: seq<Candidate>)
    requires WellFormed(g) && Unblocked(g, comp, blocked)
    ensures IsAssignment(Problem(g, blocked, excluded), comp, a) <==> IsAssignment(Problem(g, {}, excluded), comp, a)
  {
    forall c | c in a && c in g.candidates && c.keys <= comp
      ensures !(c.keys !! comp)
    {
      assert WellFormedCandidate(g, c);
      var k := AnyOf(c.keys);
    }
  }

  /** `alt` is clearly worse than `best`: on the first three parts, or by more than the margin
      (in ten-thousandths) on the evidence part. */
  predicate Trails(alt: Cost, best: Cost, margin: real) {
    Less3(best, alt) || (Equal3(alt, best) && (alt.evidence - best.evidence) as real > margin)
  }

  /** A valid assignment of the component without edge `c` that does not trail clearly. */
  ghost predicate IsRival(g: Graph, comp: set<Key>, a: seq<Candidate>, c: Candidate, margin: real, b: seq<Candidate>) {
    IsAssignment(Problem(g, {}, {c.id}), comp, b) && !Trails(TotalCost(b), TotalCost(a), margin)
  }

  ghost predicate HasRival(g: Graph, comp: set<Key>, a: seq<Candidate>, c: Candidate, margin: real) {
    exists b :: IsRival(g, comp, a, c, margin, b)
  }

  lemma TrailsIsMonotone(best: Cost, alt: Cost, b: Cost, margin: real)
    requires !Less(b, alt) && Trails(alt, best, margin)
    ensures Trails(b, best, margin)
  {
  }

  lemma ExclusionOnlyRemoves(g: Graph, comp: set<Key>, c: Candidate, b: seq<Candidate>)
    requires IsAssignment(Problem(g, {}, {c.id}), comp, b)
    ensures IsAssignment(Whole(g), comp, b)
  {
  }

  lemma DefaultIsAssignment(g: Graph, comp: set<Key>, blocked: set<Sid>, excluded: set<string>)
    requires WellFormed(g) && comp <= g.credits
    requires forall c :: c in g.candidates && c.target == Abstain ==> c.id !in excluded
    ensures |DefaultChosen(Problem(g, blocked, excluded), comp)| == |comp|
    ensures IsAssignment(Problem(g, blocked, excluded), comp, DefaultChosen(Problem(g, blocked, excluded), comp))
  {
    var p := Problem(g, blocked, excluded);
    hide WellFormed, IsAssignment, Canonical, DefaultChosen;
    DefaultIsComplete(p, comp);
    DefaultIsCanonical(p, comp, {});
    CanonicalIsAssignment(p, comp, {}, DefaultChosen(p, comp));
  }

  lemma OnlyAbstainsExcludedNot(g: Graph, c: Candidate)
    requires WellFormed(g) && c in g.candidates && c.target != Abstain
    ensures forall d :: d in g.candidates && d.target == Abstain ==> d.id !in {c.id}
  {
    forall d | d in g.candidates && d.target == Abstain
      ensures d.id != c.id
    {
      var i :| 0 <= i < |g.candidates| && g.candidates[i] == c;
      var j :| 0 <= j < |g.candidates| && g.candidates[j] == d;
      assert i < j || j < i;
    }
  }

  /** Searches for the best alternative without edge `c`. A result is a rival; no result after a
      completed search means that there is none. */
  method FindRival(g: Graph, comp: set<Key>, blocked: set<Sid>, ghost a: seq<Candidate>, best: Cost, c: Candidate,
                   margin: real, maxSteps: int) returns (rival: Option<seq<Candidate>>, gap: int, timedOut: bool)
    requires WellFormed(g) && comp != {} && comp <= g.credits && Unblocked(g, comp, blocked)
    requires IsOptimal(Whole(g), comp, a) && best == TotalCost(a)
    requires c in g.candidates && c.target != Abstain
    ensures rival.Some? ==> IsRival(g, comp, a, c, margin, rival.value)
                            && gap == TotalCost(rival.value).evidence - best.evidence
    ensures rival == None && !timedOut ==> !HasRival(g, comp, a, c, margin)
    ensures timedOut ==> Nodes(Problem(g, {}, {c.id}), comp, {}) > maxSteps
  {
    hide WellFormed, IsAssignment, TotalCost, DefaultChosen, Unblocked, Less, Nodes;
    var p := Problem(g, blocked, {c.id});
    var alt, altCost;
    OnlyAbstainsExcludedNot(g, c);
    DefaultIsAssignment(g, comp, blocked, {c.id});
    alt, altCost, timedOut := SolveComponent(p, comp, maxSteps);
    NodesFewer(p, Problem(g, {}, {c.id}), comp, {});
    assert IsAssignment(p, comp, alt) && altCost == TotalCost(alt);
    BlockedIsIrrelevant(g, comp, blocked, {c.id}, alt);
    ExclusionOnlyRemoves(g, comp, c, alt);
    NonEmptyAssignment(p, comp, alt);
    gap := altCost.evidence - best.evidence;
    TrailsByCases(altCost, best, margin);
    if alt != [] && Equal3(altCost, best) && gap as real <= margin {
      return Some(alt), gap, timedOut;
    }
    rival := None;
    if !timedOut {
      forall b | IsAssignment(Problem(g, {}, {c.id}), comp, b)
        ensures Trails(TotalCost(b), TotalCost(a), margin)
      {
        BlockedIsIrrelevant(g, comp, blocked, {c.id}, b);
        TrailsIsMonotone(best, altCost, TotalCost(b), margin);
      }
    }
  }

  lemma NonEmptyAssignment(p: Problem, comp: set<Key>, a: seq<Candidate>)
    requires comp != {} && IsAssignment(p, comp, a)
    ensures a != []
  {
    var i := CoveringIndex(comp, a, MinKey(comp));
  }

  lemma TrailsByCases(alt: Cost, best: Cost, margin: real)
    requires !Less(alt, best)
    ensures Trails(alt, best, margin) <==> !(Equal3(alt, best) && (alt.evidence - best.evidence) as real <= margin)
  {
  }

  /** The edge recorded for credit `k`: the last one in `a` that names it. */
  function EdgeOf(a: seq<Candidate>, k: Key): (e: Option<Candidate>)
    ensures e.Some? ==> e.value in a && k in e.value.keys
    ensures e == None ==> forall c :: c in a ==> k !in c.keys
  {
    if a == [] then None
    else if k in a[|a| - 1].keys then Some(a[|a| - 1])
    else
      assert forall c :: c in a ==> c == a[|a| - 1] || c in a[..|a| - 1];
      EdgeOf(a[..|a| - 1], k)
  }

  datatype Contest = Contest(chosen: Candidate, competing: Candidate, gap: int)

  /** The margin test's verdict on one chosen edge: contested whole or not at all, never when it
      abstains, only with a rival, and with no rival left over unless its search timed out. */
  ghost predicate Judged(g: Graph, comp: set<Key>, a: seq<Candidate>, margin: real, contested: set<Key>,
                         unproved: set<string>, c: Candidate) {
    && (c.keys <= contested || c.keys !! contested)
    && (c.target == Abstain ==> c.keys !! contested)
    && (!(c.keys !! contested) ==> HasRival(g, comp, a, c, margin))
    && (c.keys !! contested && c.target != Abstain && c.id !in unproved ==> !HasRival(g, comp, a, c, margin))
  }

  lemma JudgedKeeps(g: Graph, comp: set<Key>, a: seq<Candidate>, margin: real, contested: set<Key>,
                    unproved: set<string>,
                    more: set<Key>, more': set<string>, c: Candidate)
    requires Judged(g, comp, a, margin, contested, unproved, c) && c.keys !! more
    ensures Judged(g, comp, a, margin, contested + more, unproved + more', c)
  {
    hide HasRival;
  }

  /** The edges whose alternative search was cut short: chosen edges, each with a tree above the budget. */
  ghost predicate OverBudget(g: Graph, comp: set<Key>, a: seq<Candidate>, maxSteps: int, unproved: set<string>) {
    forall id :: id in unproved ==> exists c :: c in a && c.id == id && Nodes(Problem(g, {}, {id}), comp, {}) > maxSteps
  }

  /** The margin test over every edge of a component's optimum. */
  method ContestEdges(g: Graph, comp: set<Key>, blocked: set<Sid>, a: seq<Candidate>, cost: Cost, margin: real,
                      maxSteps: int)
      returns (contested: map<Key, Contest>, unproved: set<string>)
    requires WellFormed(g) && comp != {} && comp <= g.credits && Unblocked(g, comp, blocked)
    requires IsOptimal(Whole(g), comp, a) && cost == TotalCost(a)
    ensures contested.Keys <= comp
    ensures forall c :: c in a ==> Judged(g, comp, a, margin, contested.Keys, unproved, c)
    ensures forall k :: k in contested ==> Names(g, comp, a, margin, contested[k], k)
    ensures OverBudget(g, comp, a, maxSteps, unproved)
  {
    hide WellFormed, HasRival, IsRival, TotalCost, Unblocked, IsOptimal, Judged, Trails, EdgeOf, Nodes, Tested,
         IsAssignment, Names;
    contested, unproved := map[], {};
    OptimalFacts(g, comp, a);
    TestedStart(g, comp, a, margin, maxSteps);
    for i := 0 to |a|
      invariant Tested(g, comp, a, margin, maxSteps, contested, unproved, i)
    {
      var c := a[i];
      TestedNext(g, comp, a, margin, maxSteps, contested, unproved, i);
      ghost var contested0, unproved0 := contested, unproved;
      ghost var more: set<Key> := {};
      if c.target != Abstain && c.rail != Unknown {
        var rival, gap, timedOut := FindRival(g, comp, blocked, a, cost, c, margin, maxSteps);
        if timedOut {
          unproved := unproved + {c.id};
        }
        if rival.Some? {
          RivalCovers(g, comp, a, c, margin, rival.value);
          more := c.keys;
          contested := contested + map k | k in c.keys ::
            Contest(c, if EdgeOf(rival.value, k).Some? then EdgeOf(rival.value, k).value else c, gap);
          forall k | k in c.keys
            ensures Names(g, comp, a, margin, contested[k], k)
          {
            NamesRival(g, comp, a, margin, contested[k], k, rival.value);
          }
        }
        JudgeOne(g, comp, a, margin, contested0.Keys, unproved, c, rival, timedOut);
      } else {
        JudgeAbstain(g, comp, a, margin, contested0.Keys, unproved, c);
      }
      assert contested.Keys == contested0.Keys + more;
      TestedStep(g, comp, a, margin, maxSteps, contested0, unproved0, contested, unproved, i, more);
    }
    TestedEnd(g, comp, a, margin, maxSteps, contested, unproved);
  }

  /** A contest names the chosen edge of its credit, and from a rival of that edge the credit's other edge
      and the evidence gap. */
  ghost predicate Names(g: Graph, comp: set<Key>, a: seq<Candidate>, margin: real, x: Contest, k: Key) {
    && x.chosen in a && k in x.chosen.keys && k in x.competing.keys
    && exists b :: IsRival(g, comp, a, x.chosen, margin, b) && FromRival(a, b, x)
  }

  predicate FromRival(a: seq<Candidate>, b: seq<Candidate>, x: Contest) {
    x.competing in b && x.gap == TotalCost(b).evidence - TotalCost(a).evidence
  }

  lemma NamesRival(g: Graph, comp: set<Key>, a: seq<Candidate>, margin: real, x: Contest, k: Key, b: seq<Candidate>)
    requires x.chosen in a && k in x.chosen.keys && k in x.competing.keys && x.competing in b
    requires IsRival(g, comp, a, x.chosen, margin, b) && x.gap == TotalCost(b).evidence - TotalCost(a).evidence
    ensures Names(g, comp, a, margin, x, k)
  {
    hide IsRival, TotalCost;
    assert FromRival(a, b, x);
  }

  /** What the margin test keeps after the first `i` edges. */
  ghost predicate Tested(g: Graph, comp: set<Key>, a: seq<Candidate>, margin: real, maxSteps: int,
                         contested: map<Key, Contest>, unproved: set<string>, i: nat) {
    && i <= |a| && contested.Keys <= comp && OverBudget(g, comp, a, maxSteps, unproved)
    && (forall j :: 0 <= j < i ==> Judged(g, comp, a, margin, contested.Keys, unproved, a[j]))
    && (forall j :: i <= j < |a| ==> a[j].keys !! contested.Keys)
    && (forall k :: k in contested ==> Names(g, comp, a, margin, contested[k], k))
  }

  lemma TestedStart(g: Graph, comp: set<Key>, a: seq<Candidate>, margin: real, maxSteps: int)
    ensures Tested(g, comp, a, margin, maxSteps, map[], {}, 0)
  {
  }

  lemma TestedNext(g: Graph, comp: set<Key>, a: seq<Candidate>, margin: real, maxSteps: int,
                   contested: map<Key, Contest>, unproved: set<string>, i: nat)
    requires Tested(g, comp, a, margin, maxSteps, contested, unproved, i) && i < |a|
    ensures a[i] in a && a[i].keys !! contested.Keys && OverBudget(g, comp, a, maxSteps, unproved)
  {
    hide Judged, OverBudget;
  }

  lemma TestedStep(g: Graph, comp: set<Key>, a: seq<Candidate>, margin: real, maxSteps: int,
                   contested0: map<Key, Contest>,
                   unproved0: set<string>, contested: map<Key, Contest>, unproved: set<string>, i: nat, more: set<Key>)
    requires NoClash(a) && i < |a| && a[i].keys <= comp && (more == {} || more == a[i].keys)
    requires Tested(g, comp, a, margin, maxSteps, contested0, unproved0, i)
    requires contested.Keys == contested0.Keys + more && unproved0 <= unproved
    requires OverBudget(g, comp, a, maxSteps, unproved)
    requires forall k :: k in contested ==>
               (k in contested0 && contested[k] == contested0[k]) || Names(g, comp, a, margin, contested[k], k)
    requires Judged(g, comp, a, margin, contested.Keys, unproved, a[i])
    ensures Tested(g, comp, a, margin, maxSteps, contested, unproved, i + 1)
  {
    hide Judged, OverBudget, Names;
    forall j | 0 <= j < i
      ensures Judged(g, comp, a, margin, contested.Keys, unproved, a[j])
    {
      assert !Clash(a[j], a[i]);
      JudgedKeeps(g, comp, a, margin, contested0.Keys, unproved0, more, unproved, a[j]);
      assert unproved0 + unproved == unproved;
    }
    forall j | i < j < |a|
      ensures a[j].keys !! contested.Keys
    {
      assert !Clash(a[i], a[j]);
    }
  }

  lemma TestedEnd(g: Graph, comp: set<Key>, a: seq<Candidate>, margin: real, maxSteps: int,
                  contested: map<Key, Contest>, unproved: set<string>)
    requires Tested(g, comp, a, margin, maxSteps, contested, unproved, |a|)
    ensures contested.Keys <= comp && OverBudget(g, comp, a, maxSteps, unproved)
    ensures forall c :: c in a ==> Judged(g, comp, a, margin, contested.Keys, unproved, c)
    ensures forall k :: k in contested ==> Names(g, comp, a, margin, contested[k], k)
  {
    hide Judged, OverBudget;
  }

  lemma OptimalFacts(g: Graph, comp: set<Key>, a: seq<Candidate>)
    requires WellFormed(g) && IsOptimal(Whole(g), comp, a)
    ensures IsAssignment(Whole(g), comp, a) && NoClash(a)
    ensures forall c :: c in a ==>
              c in g.candidates && c.keys <= comp && c.keys != {} && (c.rail == Unknown <==> c.target == Abstain)
  {
    forall c | c in a
      ensures c in g.candidates && c.keys <= comp && c.keys != {} && (c.rail == Unknown <==> c.target == Abstain)
    {
      assert WellFormedCandidate(g, c);
    }
  }

  lemma RivalCovers(g: Graph, comp: set<Key>, a: seq<Candidate>, c: Candidate, margin: real, b: seq<Candidate>)
    requires IsRival(g, comp, a, c, margin, b)
    ensures HasRival(g, comp, a, c, margin)
    ensures forall k :: k in comp ==> EdgeOf(b, k).Some? && k in EdgeOf(b, k).value.keys
  {
    forall k | k in comp
      ensures EdgeOf(b, k).Some?
    {
      var i := CoveringIndex(comp, b, k);
      assert b[i] in b;
    }
  }

  lemma JudgeOne(g: Graph, comp: set<Key>, a: seq<Candidate>, margin: real, keys: set<Key>, unproved: set<string>,
                 c: Candidate,
                 rival: Option<seq<Candidate>>, timedOut: bool)
    requires c.target != Abstain && c.keys !! keys && c.keys != {}
    requires rival.Some? ==> IsRival(g, comp, a, c, margin, rival.value)
    requires rival == None && !timedOut ==> !HasRival(g, comp, a, c, margin)
    requires timedOut ==> c.id in unproved
    ensures Judged(g, comp, a, margin, keys + (if rival.Some? then c.keys else {}), unproved, c)
  {
    var k := AnyOf(c.keys);
  }

  lemma JudgeAbstain(g: Graph, comp: set<Key>, a: seq<Candidate>, margin: real, keys: set<Key>, unproved: set<string>,
                     c: Candidate)
    requires c.target == Abstain && c.keys !! keys
    ensures Judged(g, comp, a, margin, keys, unproved, c)
  {
  }

  // ----- Verdicts

  datatype Verdict = Verdict(
    rail: Rail, target: Target, abstained: bool, residual: int, splitKeys: set<Key>, competing: Option<Contest>)

  /** The verdict for credit `k`, given the chosen edge and the contested credits. */
  function VerdictFor(k: Key, edge: Option<Candidate>, contested: map<Key, Contest>): Verdict {
    if k in contested then
      Verdict(Unknown, Abstain, true, 0, {}, Some(contested[k]))
    else if edge == None || edge.value.target == Abstain || edge.value.rail == Unknown then
      Verdict(Unknown, Abstain, true, 0, {}, None)
    else if edge.value.rail == Razorpay then
      Verdict(Razorpay, edge.value.target, false, edge.value.residual,
              if edge.value.isSplit then edge.value.keys else {}, None)
    else
      Verdict(edge.value.rail, edge.value.target, false, 0, {}, None)
  }

  /** What the verdict of credit `k` says of the edge `c` chosen for it. */
  ghost predicate Says(v: Verdict, k: Key, c: Candidate, contested: map<Key, Contest>) {
    && (v.abstained <==> k in contested || c.target == Abstain)
    && (v.abstained ==> v.rail == Unknown && v.target == Abstain && v.residual == 0 && v.splitKeys == {})
    && (!v.abstained ==>
          && v.rail == c.rail && v.target == c.target
          && v.residual == (if c.rail == Razorpay then c.residual else 0)
          && v.splitKeys == (if c.rail == Razorpay && c.isSplit then c.keys else {}))
    && v.competing == if k in contested then Some(contested[k]) else None
  }

  datatype Solution = Solution(
    verdicts: map<Key, Verdict>, consumed: set<Sid>, cost: Cost, timedOut: bool, optimal: bool,
    chosen: seq<seq<Candidate>>, contested: map<Key, Contest>, unproved: set<string>)

  /** Settlements recorded as consumed by the chosen edges. */
  function ConsumedBy(a: seq<Candidate>, contested: set<Key>): set<Sid> {
    set c | c in a && c.target.Settlement? && !(c.keys <= contested) :: c.target.sid
  }

  /** Every chosen edge of every component passed the margin test. */
  ghost predicate JudgedEach(g: Graph, comps: seq<set<Key>>, sols: seq<seq<Candidate>>, margin: real,
                             contested: set<Key>, unproved: set<string>) {
    && |sols| <= |comps|
    && forall i, c :: 0 <= i < |sols| && c in sols[i] ==> Judged(g, comps[i], sols[i], margin, contested, unproved, c)
  }

  /** Every contest records a rival of its component. */
  ghost predicate NamedEach(g: Graph, comps: seq<set<Key>>, sols: seq<seq<Candidate>>, margin: real,
                            contested: map<Key, Contest>) {
    && |sols| <= |comps|
    && forall k :: k in contested ==>
         exists i :: 0 <= i < |sols| && Names(g, comps[i], sols[i], margin, contested[k], k)
  }

  /** The settlements of a solved component: all of its candidates stay inside it. */
  ghost predicate Before(g: Graph, comps: seq<set<Key>>, n: nat, c: Candidate)
    requires n <= |comps|
  {
    c in g.candidates && exists j :: 0 <= j < n && c.keys <= comps[j]
  }

  lemma UnblockedNext(g: Graph, comps: seq<set<Key>>, n: nat, a: seq<Candidate>, contested: set<Key>)
    requires WellFormed(g) && n < |comps| && AllClosed(g, comps)
    requires forall c :: c in a ==> Before(g, comps, n, c)
    ensures Unblocked(g, comps[n], ConsumedBy(a, contested))
  {
    forall c | c in g.candidates && !(c.keys !! comps[n]) && c.target.Settlement?
      ensures c.target.sid !in ConsumedBy(a, contested)
    {
      assert comps[n] in comps;
      CandidateStaysInside(g, comps[n], c, c);
      forall d | d in a
        ensures d.target != c.target
      {
        var j :| 0 <= j < n && d.keys <= comps[j];
        assert Disjoint(comps[j], comps[n]);
        NoCrossClash(g, comps[n], comps[j], c, d);
      }
    }
  }

  lemma {:induction false} FlattenAppend(sols: seq<seq<Candidate>>, a: seq<Candidate>)
    ensures Flatten(sols + [a]) == Flatten(sols) + a
  {
    if sols == [] {
      assert sols + [a] == [a] && Flatten([a]) == a + Flatten([]);
    } else {
      FlattenAppend(sols[1..], a);
      assert (sols + [a])[1..] == sols[1..] + [a];
    }
  }

  /** The component was solved to optimality, or abstains whole because its tree exceeds the budget. */
  ghost predicate SolvedOrAbstained(g: Graph, comp: set<Key>, a: seq<Candidate>, maxSteps: int) {
    IsOptimal(Whole(g), comp, a) || (a == DefaultChosen(Whole(g), comp) && Nodes(Whole(g), comp, {}) > maxSteps)
  }

  /** What the step budget can and cannot have done to the run. */
  ghost predicate Budgeted(g: Graph, comps: seq<set<Key>>, maxSteps: int, sols: seq<seq<Candidate>>, timedOut: bool,
                           unproved: set<string>) {
    && |sols| <= |comps|
    && (forall i :: 0 <= i < |sols| ==> SolvedOrAbstained(g, comps[i], sols[i], maxSteps))
    && (timedOut ==> exists i :: 0 <= i < |sols| && Nodes(Whole(g), comps[i], {}) > maxSteps)
    && (forall id :: id in unproved ==>
          exists i, c :: 0 <= i < |sols| && CutShort(g, comps[i], sols[i], maxSteps, id, c))
  }

  ghost predicate CutShort(g: Graph, comp: set<Key>, a: seq<Candidate>, maxSteps: int, id: string, c: Candidate) {
    c in a && c.id == id && Nodes(Problem(g, {}, {id}), comp, {}) > maxSteps
  }

  /** What the loop over components keeps. */
  ghost predicate RunInvariant(g: Graph, comps: seq<set<Key>>, margin: real, maxSteps: int, sols: seq<seq<Candidate>>,
                               timedOut: bool,
                               consumed: set<Sid>, contested: map<Key, Contest>, unproved: set<string>) {
    && |sols| <= |comps|
    && Budgeted(g, comps, maxSteps, sols, timedOut, unproved)
    && (forall i :: 0 <= i < |sols| ==> IsAssignment(Whole(g), comps[i], sols[i]))
    && (!timedOut ==> forall i :: 0 <= i < |sols| ==> IsOptimal(Whole(g), comps[i], sols[i]))
    && consumed == ConsumedBy(Flatten(sols), contested.Keys)
    && (forall c :: c in Flatten(sols) ==> Before(g, comps, |sols|, c))
    && (forall k :: k in contested ==> exists i :: 0 <= i < |sols| && k in comps[i])
    && (forall c :: c in Flatten(sols) ==> c.keys <= contested.Keys || c.keys !! contested.Keys)
    && NamedEach(g, comps, sols, margin, contested)
    && (if margin > 0.0 then JudgedEach(g, comps, sols, margin, contested.Keys, unproved) else contested == map[])
  }

  /** One component's outcome fits the run. */
  ghost predicate ComponentOutcome(g: Graph, comp: set<Key>, margin: real, maxSteps: int, a: seq<Candidate>,
                                   timedOut: bool,
                                   contested: map<Key, Contest>, unproved: set<string>) {
    && IsAssignment(Whole(g), comp, a)
    && (timedOut ==> a == DefaultChosen(Whole(g), comp) && Nodes(Whole(g), comp, {}) > maxSteps)
    && OverBudget(g, comp, a, maxSteps, unproved)
    && (!timedOut ==> IsOptimal(Whole(g), comp, a))
    && contested.Keys <= comp
    && (forall c :: c in a ==> c.keys <= contested.Keys || c.keys !! contested.Keys)
    && (forall k :: k in contested ==> Names(g, comp, a, margin, contested[k], k))
    && (if margin > 0.0 then forall c :: c in a ==> Judged(g, comp, a, margin, contested.Keys, unproved, c)
        else contested == map[])
  }

  /** Solves and margin-tests one component. */
  method RunComponent(g: Graph, comp: set<Key>, blocked: set<Sid>, margin: real, maxSteps: int)
      returns (a: seq<Candidate>, timedOut: bool, contested: map<Key, Contest>, unproved: set<string>)
    requires WellFormed(g) && comp != {} && comp <= g.credits && Unblocked(g, comp, blocked)
    ensures ComponentOutcome(g, comp, margin, maxSteps, a, timedOut, contested, unproved)
  {
    hide WellFormed, IsAssignment, TotalCost, Unblocked, DefaultChosen, HasRival, Less, Nodes;
    var p := Problem(g, blocked, {});
    contested, unproved := map[], {};
    DefaultIsAssignment(g, comp, blocked, {});
    var cost;
    a, cost, timedOut := SolveComponent(p, comp, maxSteps);
    BlockedIsIrrelevant(g, comp, blocked, {}, a);
    if timedOut {
      // Every edge of the baseline abstains, so the margin test skips them all.
      DefaultAbstains(p, comp);
      DefaultIgnoresBlocked(g, comp, blocked);
      NodesFewer(p, Whole(g), comp, {});
      return;
    }
    forall b | IsAssignment(Whole(g), comp, b)
      ensures IsAssignment(p, comp, b)
    {
      BlockedIsIrrelevant(g, comp, blocked, {}, b);
    }
    assert IsOptimal(Whole(g), comp, a);
    if margin > 0.0 {
      contested, unproved := ContestEdges(g, comp, blocked, a, cost, margin, maxSteps);
    }
  }

  lemma {:induction false} DefaultAbstains(p: Problem, comp: set<Key>)
    requires WellFormed(p.graph)
    ensures forall c :: c in DefaultChosen(p, comp) ==> c.target == Abstain
  {
    if comp != {} {
      AbstainsOfAtMostOne(p, MinKey(comp));
      DefaultAbstains(p, comp - {MinKey(comp)});
    }
  }

  lemma {:induction false} DefaultIgnoresBlocked(g: Graph, comp: set<Key>, blocked: set<Sid>)
    ensures DefaultChosen(Problem(g, blocked, {}), comp) == DefaultChosen(Whole(g), comp)
  {
    hide Filter, DefaultChosen;
    DefaultUnfold(Problem(g, blocked, {}), comp);
    DefaultUnfold(Whole(g), comp);
    if comp != {} {
      DefaultIgnoresBlocked(g, comp - {MinKey(comp)}, blocked);
    }
  }

  lemma BudgetStep(g: Graph, comps: seq<set<Key>>, margin: real, maxSteps: int, sols: seq<seq<Candidate>>,
                   timedOut: bool,
                   unproved: set<string>, a: seq<Candidate>, late: bool, more: map<Key, Contest>, more': set<string>)
    requires |sols| < |comps| && Budgeted(g, comps, maxSteps, sols, timedOut, unproved)
    requires ComponentOutcome(g, comps[|sols|], margin, maxSteps, a, late, more, more')
    ensures Budgeted(g, comps, maxSteps, sols + [a], timedOut || late, unproved + more')
  {
    hide IsAssignment, IsOptimal, Judged, Nodes, DefaultChosen;
    var n, next := |sols|, sols + [a];
    assert SolvedOrAbstained(g, comps[n], a, maxSteps);
    if timedOut {
      var i :| 0 <= i < |sols| && Nodes(Whole(g), comps[i], {}) > maxSteps;
      assert 0 <= i < |next|;
    } else if late {
      assert 0 <= n < |next|;
    }
    forall id | id in unproved + more'
      ensures exists i, c :: 0 <= i < |next| && CutShort(g, comps[i], next[i], maxSteps, id, c)
    {
      if id in unproved {
        var i, c :| 0 <= i < |sols| && CutShort(g, comps[i], sols[i], maxSteps, id, c);
        assert next[i] == sols[i] && CutShort(g, comps[i], next[i], maxSteps, id, c);
      } else {
        var c :| c in a && c.id == id && Nodes(Problem(g, {}, {id}), comps[n], {}) > maxSteps;
        assert CutShort(g, comps[n], next[n], maxSteps, id, c);
      }
    }
  }

  lemma ConsumedGrows(g: Graph, comps: seq<set<Key>>, n: nat, flat: seq<Candidate>, a: seq<Candidate>, keys: set<Key>,
                      more: set<Key>)
    requires WellFormed(g) && n < |comps| && AllClosed(g, comps)
    requires forall c :: c in flat ==> Before(g, comps, n, c)
    requires more <= comps[n] && forall k :: k in keys ==> exists i :: 0 <= i < n && k in comps[i]
    requires forall c :: c in a ==> c.keys <= comps[n]
    ensures ConsumedBy(flat + a, keys + more) == ConsumedBy(flat, keys) + ConsumedBy(a, more)
    ensures forall c :: c in flat ==> (c.keys <= keys + more <==> c.keys <= keys) && c.keys !! more
    ensures forall c :: c in a ==> (c.keys <= keys + more <==> c.keys <= more) && c.keys !! keys
  {
    hide WellFormed, Closed;
    forall i | 0 <= i < n
      ensures comps[i] !! comps[n]
    {
      assert Disjoint(comps[i], comps[n]);
    }
    forall c | c in flat
      ensures c.keys !! more
    {
      var j :| 0 <= j < n && c.keys <= comps[j];
    }
    forall k | k in keys
      ensures k !in comps[n]
    {
      var i :| 0 <= i < n && k in comps[i];
    }
    assert forall c :: c in flat + a <==> c in flat || c in a;
  }

  lemma RunStep(g: Graph, comps: seq<set<Key>>, margin: real, maxSteps: int, sols: seq<seq<Candidate>>, timedOut: bool,
                consumed: set<Sid>,
                contested: map<Key, Contest>, unproved: set<string>,
                a: seq<Candidate>, late: bool, more: map<Key, Contest>, more': set<string>)
    requires WellFormed(g) && AllClosed(g, comps) && |sols| < |comps|
    requires RunInvariant(g, comps, margin, maxSteps, sols, timedOut, consumed, contested, unproved)
    requires ComponentOutcome(g, comps[|sols|], margin, maxSteps, a, late, more, more')
    ensures RunInvariant(g, comps, margin, maxSteps, sols + [a], timedOut || late, consumed + ConsumedBy(a, more.Keys),
                         contested + more, unproved + more')
  {
    hide WellFormed, Closed, IsAssignment, IsOptimal, Judged, ConsumedBy, Budgeted, OverBudget, DefaultChosen, Nodes,
         NamedEach, Names;
    var n, flat := |sols|, Flatten(sols);
    BudgetStep(g, comps, margin, maxSteps, sols, timedOut, unproved, a, late, more, more');
    FlattenAppend(sols, a);
    AssignmentInside(g, comps[n], a);
    ConsumedGrows(g, comps, n, flat, a, contested.Keys, more.Keys);
    assert (contested + more).Keys == contested.Keys + more.Keys;
    BeforeStep(g, comps, n, flat, a);
    NamedStep(g, comps, sols, margin, contested, a, more);
    if margin > 0.0 {
      JudgedStep(g, comps, margin, sols, contested.Keys, unproved, a, more.Keys, more');
    }
  }

  lemma NamedStep(g: Graph, comps: seq<set<Key>>, sols: seq<seq<Candidate>>, margin: real, contested: map<Key, Contest>,
                  a: seq<Candidate>, more: map<Key, Contest>)
    requires |sols| < |comps| && NamedEach(g, comps, sols, margin, contested)
    requires forall k :: k in more ==> Names(g, comps[|sols|], a, margin, more[k], k)
    ensures NamedEach(g, comps, sols + [a], margin, contested + more)
  {
    hide Names;
    var n, next, all := |sols|, sols + [a], contested + more;
    forall k | k in all
      ensures exists i :: 0 <= i < |next| && Names(g, comps[i], next[i], margin, all[k], k)
    {
      if k in more {
        assert next[n] == a && Names(g, comps[n], next[n], margin, all[k], k);
      } else {
        var i :| 0 <= i < n && Names(g, comps[i], sols[i], margin, contested[k], k);
        assert next[i] == sols[i] && Names(g, comps[i], next[i], margin, all[k], k);
      }
    }
  }

  lemma BeforeStep(g: Graph, comps: seq<set<Key>>, n: nat, flat: seq<Candidate>, a: seq<Candidate>)
    requires n < |comps| && (forall c :: c in flat ==> Before(g, comps, n, c))
    requires forall c :: c in a ==> c in g.candidates && c.keys <= comps[n]
    ensures forall c :: c in flat + a ==> Before(g, comps, n + 1, c)
  {
    forall c | c in flat + a
      ensures Before(g, comps, n + 1, c)
    {
      if c in a {
        assert c.keys <= comps[n];
      } else {
        var j :| 0 <= j < n && c.keys <= comps[j];
        assert c.keys <= comps[j];
      }
    }
  }

  lemma JudgedStep(g: Graph, comps: seq<set<Key>>, margin: real, sols: seq<seq<Candidate>>, keys: set<Key>,
                   unproved: set<string>,
                   a: seq<Candidate>, more: set<Key>, more': set<string>)
    requires |sols| < |comps| && JudgedEach(g, comps, sols, margin, keys, unproved)
    requires forall c :: c in a ==> Judged(g, comps[|sols|], a, margin, more, more', c) && c.keys !! keys
    requires forall c :: c in Flatten(sols) ==> c.keys !! more
    ensures JudgedEach(g, comps, sols + [a], margin, keys + more, unproved + more')
  {
    hide Judged, Flatten;
    var n, next := |sols|, sols + [a];
    forall i, c | 0 <= i < n + 1 && c in next[i]
      ensures Judged(g, comps[i], next[i], margin, keys + more, unproved + more', c)
    {
      if i < n {
        InFlatten(sols, i, c);
        JudgedKeeps(g, comps[i], sols[i], margin, keys, unproved, more, more', c);
      } else {
        JudgedKeeps(g, comps[n], a, margin, more, more', keys, unproved, c);
        assert more + keys == keys + more && more' + unproved == unproved + more';
      }
    }
  }

  lemma AssignmentInside(g: Graph, comp: set<Key>, a: seq<Candidate>)
    requires IsAssignment(Whole(g), comp, a)
    ensures forall c :: c in a ==> c in g.candidates && c.keys <= comp
  {
  }

  lemma {:induction false} InFlatten(sols: seq<seq<Candidate>>, i: nat, c: Candidate)
    requires i < |sols| && c in sols[i]
    ensures c in Flatten(sols)
  {
    if i > 0 {
      InFlatten(sols[1..], i - 1, c);
    }
  }

  /** Settlements that some credit's accepted verdict points at. */
  function AcceptedSettlements(verdicts: map<Key, Verdict>): set<Sid> {
    set k | k in verdicts && !verdicts[k].abstained && verdicts[k].rail == Razorpay
            && verdicts[k].target.Settlement? :: verdicts[k].target.sid
  }

  lemma RunStart(g: Graph, comps: seq<set<Key>>, margin: real, maxSteps: int)
    ensures RunInvariant(g, comps, margin, maxSteps, [], false, {}, map[], {})
  {
    assert ConsumedBy([], {}) == {};
  }

  lemma ComponentFacts(g: Graph, comp: set<Key>)
    requires IsComponent(g, comp)
    ensures comp != {} && comp <= g.credits && Closed(g, comp)
  {
  }

  lemma UnionOfPartition(credits: set<Key>, comps: seq<set<Key>>)
    requires forall c :: c in comps ==> c <= credits
    requires forall k :: k in credits ==> exists c :: c in comps && k in c
    ensures Union(comps) == credits
  {
    hide Union;
    forall k | k in credits
      ensures k in Union(comps)
    {
      var c :| c in comps && k in c;
      assert c <= Union(comps);
    }
  }

  lemma PartitionFacts(g: Graph, comps: seq<set<Key>>)
    requires ArePartition(g, comps)
    ensures AllClosed(g, comps) && Union(comps) == g.credits
    ensures forall c :: c in comps ==> c != {} && c <= g.credits
  {
    hide Closed, Pairwise, Union, IsComponent;
    forall c | c in comps
      ensures c != {} && c <= g.credits && Closed(g, c)
    {
      ComponentFacts(g, c);
    }
    UnionOfPartition(g.credits, comps);
  }

  lemma RunUnblocked(g: Graph, comps: seq<set<Key>>, margin: real, maxSteps: int, sols: seq<seq<Candidate>>,
                     timedOut: bool, consumed: set<Sid>,
                     contested: map<Key, Contest>, unproved: set<string>)
    requires WellFormed(g) && AllClosed(g, comps) && |sols| < |comps|
    requires RunInvariant(g, comps, margin, maxSteps, sols, timedOut, consumed, contested, unproved)
    ensures Unblocked(g, comps[|sols|], consumed)
  {
    hide WellFormed, Closed, IsAssignment, IsOptimal, ConsumedBy, Unblocked, Budgeted;
    UnblockedNext(g, comps, |sols|, Flatten(sols), contested.Keys);
  }

  lemma AcceptedEdge(g: Graph, flat: seq<Candidate>, contested: map<Key, Contest>, k: Key, sid: Sid)
    requires WellFormed(g) && IsAssignment(Whole(g), g.credits, flat) && k in g.credits
    ensures var v := VerdictFor(k, EdgeOf(flat, k), contested);
            !v.abstained && v.rail == Razorpay && v.target == Settlement(sid)
            <==> k !in contested && exists c :: c in flat && k in c.keys && c.target == Settlement(sid)
  {
    hide WellFormed;
    if exists c :: c in flat && k in c.keys {
      var c :| c in flat && k in c.keys;
      OneEdge(flat, c, k);
      RailOfEdge(g, c);
      forall d | d in flat && k in d.keys
        ensures d == c
      {
        OneEdge(flat, d, k);
      }
    }
  }

  /** Each credit has one chosen edge, and its verdict says what that edge says. */
  lemma VerdictsSay(g: Graph, flat: seq<Candidate>, contested: map<Key, Contest>, k: Key)
    requires WellFormed(g) && IsAssignment(Whole(g), g.credits, flat) && k in g.credits
    ensures EdgeOf(flat, k).Some? && EdgeOf(flat, k).value in flat && k in EdgeOf(flat, k).value.keys
    ensures forall c :: c in flat && k in c.keys ==> Says(VerdictFor(k, EdgeOf(flat, k), contested), k, c, contested)
  {
    hide WellFormed;
    var i := CoveringIndex(g.credits, flat, k);
    OneEdge(flat, flat[i], k);
    forall c | c in flat && k in c.keys
      ensures Says(VerdictFor(k, EdgeOf(flat, k), contested), k, c, contested)
    {
      OneEdge(flat, c, k);
      RailOfEdge(g, c);
    }
  }

  lemma RailOfEdge(g: Graph, c: Candidate)
    requires WellFormed(g) && c in g.candidates
    ensures c.keys != {} && c.keys <= g.credits
    ensures (c.rail == Unknown <==> c.target == Abstain) && (c.rail == Razorpay <==> c.target.Settlement?)
  {
    assert WellFormedCandidate(g, c);
  }

  /** A chosen settlement edge is consumed exactly when its credits' verdicts are accepted. */
  lemma ConsumedIsAccepted(g: Graph, flat: seq<Candidate>, contested: map<Key, Contest>, verdicts: map<Key, Verdict>)
    requires WellFormed(g) && IsAssignment(Whole(g), g.credits, flat)
    requires forall c :: c in flat ==> c.keys <= contested.Keys || c.keys !! contested.Keys
    requires verdicts == map k | k in g.credits :: VerdictFor(k, EdgeOf(flat, k), contested)
    ensures ConsumedBy(flat, contested.Keys) == AcceptedSettlements(verdicts)
  {
    hide WellFormed, VerdictFor, EdgeOf, CoversAll, NoClash;
    forall sid | sid in ConsumedBy(flat, contested.Keys)
      ensures sid in AcceptedSettlements(verdicts)
    {
      var c :| c in flat && c.target == Settlement(sid) && !(c.keys <= contested.Keys);
      RailOfEdge(g, c);
      var k := AnyOf(c.keys);
      AcceptedEdge(g, flat, contested, k, sid);
      assert k in verdicts;
    }
    forall sid | sid in AcceptedSettlements(verdicts)
      ensures sid in ConsumedBy(flat, contested.Keys)
    {
      var k :| k in verdicts && !verdicts[k].abstained && verdicts[k].rail == Razorpay
               && verdicts[k].target == Settlement(sid);
      AcceptedEdge(g, flat, contested, k, sid);
      var c :| c in flat && k in c.keys && c.target == Settlement(sid);
      assert !(c.keys <= contested.Keys);
    }
  }

  lemma OneEdge(flat: seq<Candidate>, c: Candidate, k: Key)
    requires NoClash(flat) && c in flat && k in c.keys
    ensures EdgeOf(flat, k) == Some(c)
  {
    var d := EdgeOf(flat, k).value;
    var i :| 0 <= i < |flat| && flat[i] == c;
    var j :| 0 <= j < |flat| && flat[j] == d;
    NoClashAt(flat, i, j);
  }

  lemma NoClashAt(flat: seq<Candidate>, i: nat, j: nat)
    requires NoClash(flat) && i < |flat| && j < |flat|
    ensures i != j ==> !Clash(flat[i], flat[j])
  {
    assert i < j ==> !Clash(flat[i], flat[j]);
    assert j < i ==> !Clash(flat[j], flat[i]);
  }

  lemma RunEnd(g: Graph, comps: seq<set<Key>>, margin: real, maxSteps: int, sols: seq<seq<Candidate>>, timedOut: bool,
               consumed: set<Sid>,
               contested: map<Key, Contest>, unproved: set<string>, verdicts: map<Key, Verdict>)
    requires WellFormed(g) && ArePartition(g, comps) && |sols| == |comps|
    requires RunInvariant(g, comps, margin, maxSteps, sols, timedOut, consumed, contested, unproved)
    requires verdicts == map k | k in g.credits :: VerdictFor(k, EdgeOf(Flatten(sols), k), contested)
    ensures SolvedEach(g, comps, sols) && IsAssignment(Whole(g), g.credits, Flatten(sols))
    ensures !timedOut ==> OptimalEach(g, comps, sols) && IsOptimal(Whole(g), g.credits, Flatten(sols))
    ensures forall c :: c in Flatten(sols) ==> c.keys <= contested.Keys || c.keys !! contested.Keys
    ensures consumed == AcceptedSettlements(verdicts) && NamedEach(g, comps, sols, margin, contested)
    ensures if margin > 0.0 then JudgedEach(g, comps, sols, margin, contested.Keys, unproved) else contested == map[]
    ensures Budgeted(g, comps, maxSteps, sols, timedOut, unproved)
  {
    hide WellFormed, IsAssignment, TotalCost, Closed, ConsumedBy, AcceptedSettlements, Judged, ArePartition, AllClosed,
         Less, EdgeOf, Before, Budgeted, NamedEach;
    PartitionFacts(g, comps);
    ComponentsCompose(g, comps, sols);
    ConsumedIsAccepted(g, Flatten(sols), contested, verdicts);
    if !timedOut {
      forall b | IsAssignment(Whole(g), g.credits, b)
        ensures !Less(TotalCost(b), TotalCost(Flatten(sols)))
      {
        ComponentsOptimal(g, comps, sols, b);
      }
    }
  }

  /** The solver over the whole period. */
  method SolveAssignment(g: Graph, comps: seq<set<Key>>, margin: real, maxSteps: int) returns (s: Solution)
    requires WellFormed(g) && ArePartition(g, comps)
    ensures SolvedEach(g, comps, s.chosen) && IsAssignment(Whole(g), g.credits, Flatten(s.chosen))
    ensures s.cost == TotalCost(Flatten(s.chosen))
    ensures !s.timedOut ==> OptimalEach(g, comps, s.chosen) && IsOptimal(Whole(g), g.credits, Flatten(s.chosen))
    ensures s.optimal <==> !s.timedOut && g.unEnumerable == {}
    ensures s.verdicts == map k | k in g.credits :: VerdictFor(k, EdgeOf(Flatten(s.chosen), k), s.contested)
    ensures s.verdicts.Keys == g.credits
    ensures forall k, c :: k in g.credits && c in Flatten(s.chosen) && k in c.keys ==>
              Says(s.verdicts[k], k, c, s.contested)
    ensures NamedEach(g, comps, s.chosen, margin, s.contested)
    ensures forall c :: c in Flatten(s.chosen) ==> c.keys <= s.contested.Keys || c.keys !! s.contested.Keys
    ensures s.consumed == AcceptedSettlements(s.verdicts)
    ensures if margin > 0.0 then JudgedEach(g, comps, s.chosen, margin, s.contested.Keys, s.unproved)
            else s.contested == map[]
    ensures Budgeted(g, comps, maxSteps, s.chosen, s.timedOut, s.unproved)
  {
    hide WellFormed, IsAssignment, TotalCost, IsOptimal, ConsumedBy, RunInvariant, ComponentOutcome, Unblocked,
         ArePartition, AllClosed,
         Flatten, Union, VerdictFor, EdgeOf, AcceptedSettlements, JudgedEach, SolvedEach, OptimalEach, Budgeted,
         NamedEach, Says;
    var sols, consumed, contested, unproved, timedOut := [], {}, map[], {}, false;
    RunStart(g, comps, margin, maxSteps);
    PartitionFacts(g, comps);
    for i := 0 to |comps|
      invariant |sols| == i && RunInvariant(g, comps, margin, maxSteps, sols, timedOut, consumed, contested, unproved)
    {
      RunUnblocked(g, comps, margin, maxSteps, sols, timedOut, consumed, contested, unproved);
      assert comps[i] in comps;
      var a, late, more, more' := RunComponent(g, comps[i], consumed, margin, maxSteps);
      RunStep(g, comps, margin, maxSteps, sols, timedOut, consumed, contested, unproved, a, late, more, more');
      sols, timedOut := sols + [a], timedOut || late;
      contested, unproved := contested + more, unproved + more';
      consumed := consumed + ConsumedBy(a, more.Keys);
    }
    var flat := Flatten(sols);
    var verdicts := map k | k in g.credits :: VerdictFor(k, EdgeOf(flat, k), contested);
    RunEnd(g, comps, margin, maxSteps, sols, timedOut, consumed, contested, unproved, verdicts);
    forall k | k in g.credits
      ensures forall c :: c in flat && k in c.keys ==> Says(verdicts[k], k, c, contested)
    {
      VerdictsSay(g, flat, contested, k);
    }
    s := Solution(verdicts, consumed, TotalCost(flat), timedOut, !timedOut && g.unEnumerable == {}, sols,
                  contested, unproved);
  }

  // ----- What the verdicts mean

  /** The credit's verdict is accepted rather than abstained. */
  predicate Accepted(flat: seq<Candidate>, contested: map<Key, Contest>, k: Key) {
    !VerdictFor(k, EdgeOf(flat, k), contested).abstained
  }

  /** Two credits accepted for one settlement are legs of one edge. */
  lemma NoSettlementServesTwo(g: Graph, flat: seq<Candidate>, contested: map<Key, Contest>, k: Key, l: Key, sid: Sid)
    requires WellFormed(g) && IsAssignment(Whole(g), g.credits, flat)
    requires Accepted(flat, contested, k) && VerdictFor(k, EdgeOf(flat, k), contested).target == Settlement(sid)
    requires Accepted(flat, contested, l) && VerdictFor(l, EdgeOf(flat, l), contested).target == Settlement(sid)
    ensures EdgeOf(flat, k) == EdgeOf(flat, l)
  {
    hide WellFormed, CoversAll, AllAllowed;
    var c, d := EdgeOf(flat, k).value, EdgeOf(flat, l).value;
    var i :| 0 <= i < |flat| && flat[i] == c;
    var j :| 0 <= j < |flat| && flat[j] == d;
    NoClashAt(flat, i, j);
  }

  /** If one leg of a chosen edge is contested, every leg abstains. */
  lemma ContestedGroupsAbstainWhole(flat: seq<Candidate>, contested: map<Key, Contest>, k: Key, l: Key)
    requires forall c :: c in flat ==> c.keys <= contested.Keys || c.keys !! contested.Keys
    requires EdgeOf(flat, k).Some? && l in EdgeOf(flat, k).value.keys && k in contested
    ensures !Accepted(flat, contested, l)
  {
    assert EdgeOf(flat, k).value in flat;
  }

  lemma RobustUnlessCutShort(g: Graph, comps: seq<set<Key>>, sols: seq<seq<Candidate>>, margin: real,
                             contested: map<Key, Contest>, unproved: set<string>, i: nat, c: Candidate, k: Key,
                             b: seq<Candidate>)
    requires JudgedEach(g, comps, sols, margin, contested.Keys, unproved)
    requires i < |sols| && c in sols[i] && k in c.keys && c.id !in unproved
    requires NoClash(Flatten(sols)) && Accepted(Flatten(sols), contested, k)
    requires IsAssignment(Problem(g, {}, {c.id}), comps[i], b)
    ensures Trails(TotalCost(b), TotalCost(sols[i]), margin)
  {
    hide IsAssignment, TotalCost, Less3, Equal3;
    InFlatten(sols, i, c);
    OneEdge(Flatten(sols), c, k);
    assert Judged(g, comps[i], sols[i], margin, contested.Keys, unproved, c);
    assert !IsRival(g, comps[i], sols[i], c, margin, b);
  }

  /** An edge whose alternative search fits the budget was not cut short. */
  lemma WithinBudgetIsProved(g: Graph, comps: seq<set<Key>>, sols: seq<seq<Candidate>>, maxSteps: int, timedOut: bool,
                             unproved: set<string>, i: nat, c: Candidate)
    requires WellFormed(g) && ArePartition(g, comps) && SolvedEach(g, comps, sols)
    requires Budgeted(g, comps, maxSteps, sols, timedOut, unproved)
    requires i < |sols| && c in sols[i] && Nodes(Problem(g, {}, {c.id}), comps[i], {}) <= maxSteps
    ensures c.id !in unproved
  {
    hide WellFormed, Nodes, IsAssignment, SolvedOrAbstained, IsComponent;
    if c.id in unproved {
      var j, d :| 0 <= j < |sols| && CutShort(g, comps[j], sols[j], maxSteps, c.id, d);
      AssignmentInside(g, comps[i], sols[i]);
      AssignmentInside(g, comps[j], sols[j]);
      SameComponent(comps, i, j, d);
      OneEdgePerId(g, c, d);
    }
  }

  lemma OneEdgePerId(g: Graph, c: Candidate, d: Candidate)
    requires WellFormed(g) && c in g.candidates && d in g.candidates && c.id == d.id
    ensures c == d && c.keys != {}
  {
    assert WellFormedCandidate(g, c);
    var i :| 0 <= i < |g.candidates| && g.candidates[i] == c;
    var j :| 0 <= j < |g.candidates| && g.candidates[j] == d;
    assert !(i < j) && !(j < i);
  }

  lemma SameComponent(comps: seq<set<Key>>, i: nat, j: nat, d: Candidate)
    requires Pairwise(comps, Disjoint) && i < |comps| && j < |comps|
    ensures d.keys != {} && d.keys <= comps[i] && d.keys <= comps[j] ==> i == j
  {
    if d.keys != {} && d.keys <= comps[i] && d.keys <= comps[j] {
      var k := AnyOf(d.keys);
      assert i < j ==> Disjoint(comps[i], comps[j]);
      assert j < i ==> Disjoint(comps[j], comps[i]);
    }
  }

  /** With a positive margin, an accepted edge whose alternative search fits the step budget is robust:
      every valid assignment of its component without it is worse on the first three cost parts, or
      trails by more than the margin on the fourth. */
  lemma AcceptedVerdictIsRobust(g: Graph, comps: seq<set<Key>>, margin: real, maxSteps: int, s: Solution,
                                i: nat, c: Candidate, k: Key, b: seq<Candidate>)
    requires WellFormed(g) && ArePartition(g, comps) && SolvedEach(g, comps, s.chosen) && NoClash(Flatten(s.chosen))
    requires Budgeted(g, comps, maxSteps, s.chosen, s.timedOut, s.unproved)
    requires JudgedEach(g, comps, s.chosen, margin, s.contested.Keys, s.unproved)
    requires i < |s.chosen| && c in s.chosen[i] && k in c.keys && Accepted(Flatten(s.chosen), s.contested, k)
    requires Nodes(Problem(g, {}, {c.id}), comps[i], {}) <= maxSteps
    requires IsAssignment(Problem(g, {}, {c.id}), comps[i], b)
    ensures Less3(TotalCost(s.chosen[i]), TotalCost(b))
            || (Equal3(TotalCost(b), TotalCost(s.chosen[i]))
                && (TotalCost(b).evidence - TotalCost(s.chosen[i]).evidence) as real > margin)
  {
    hide WellFormed, ArePartition, SolvedEach, NoClash, Budgeted, JudgedEach, Accepted, Nodes, IsAssignment, TotalCost,
         Less3, Equal3;
    WithinBudgetIsProved(g, comps, s.chosen, maxSteps, s.timedOut, s.unproved, i, c);
    RobustUnlessCutShort(g, comps, s.chosen, margin, s.contested, s.unproved, i, c, k, b);
  }

  /** Components whose trees fit the budget are all solved to optimality and no alternative search is cut short. */
  lemma SmallComponentsAreSolved(g: Graph, comps: seq<set<Key>>, maxSteps: int, sols: seq<seq<Candidate>>,
                                 timedOut: bool, unproved: set<string>)
    requires Budgeted(g, comps, maxSteps, sols, timedOut, unproved)
    requires forall i :: 0 <= i < |sols| ==> Nodes(Whole(g), comps[i], {}) <= maxSteps
    ensures !timedOut && unproved == {}
    ensures forall i :: 0 <= i < |sols| ==> IsOptimal(Whole(g), comps[i], sols[i])
  {
    hide Nodes, IsOptimal, DefaultChosen;
    assert forall i :: 0 <= i < |sols| ==> SolvedOrAbstained(g, comps[i], sols[i], maxSteps);
    if unproved != {} {
      var id := AnyOf(unproved);
      var i, c :| 0 <= i < |sols| && CutShort(g, comps[i], sols[i], maxSteps, id, c);
      NodesFewer(Problem(g, {}, {id}), Whole(g), comps[i], {});
    }
  }

  // ----- Graph construction

  predicate Kept(unEnumerable: set<Key>, c: Candidate) {
    !(c.isSplit && exists k :: k in c.keys && k in unEnumerable)
  }

  predicate NotSameId(c: Candidate, d: Candidate) {
    c.id != d.id
  }

  /** The order of the sort key: total, and the edge id, its last part, breaks every tie. */
  ghost predicate OrdersEdges(order: (Candidate, Candidate) -> bool) {
    TotalPreorder(order) && forall c, d :: order(c, d) && order(d, c) ==> c.id == d.id
  }

  function GraphOf(credits: set<Key>, raw: seq<Candidate>, unEnumerable: set<Key>,
                   order: (Candidate, Candidate) -> bool): Graph
  {
    Graph(credits, Sort(Filter(raw, (c: Candidate) => Kept(unEnumerable, c)), order), unEnumerable)
  }

  /** The order in which the edges were generated leaves no trace in the graph. */
  lemma GraphIgnoresOrder(credits: set<Key>, raw: seq<Candidate>, raw': seq<Candidate>, unEnumerable: set<Key>,
                          order: (Candidate, Candidate) -> bool)
    requires WellFormed(Graph(credits, raw, unEnumerable)) && OrdersEdges(order) && multiset(raw) == multiset(raw')
    ensures GraphOf(credits, raw, unEnumerable, order) == GraphOf(credits, raw', unEnumerable, order)
  {
    hide WellFormed, Sort, Filter, Kept;
    var keep := (c: Candidate) => Kept(unEnumerable, c);
    FilterReordered(raw, raw', keep);
    var a, b := Filter(raw, keep), Filter(raw', keep);
    SortSorted(a, order);
    SortSorted(b, order);
    SortMembers(a, order);
    SortMembers(b, order);
    forall c, d | c in Sort(a, order) && d in Sort(a, order) && order(c, d) && order(d, c)
      ensures c == d
    {
      SameIdSameEdge(Graph(credits, raw, unEnumerable), c, d);
    }
    SortedIsUnique(Sort(a, order), Sort(b, order), order);
  }

  lemma SameIdSameEdge(g: Graph, c: Candidate, d: Candidate)
    requires WellFormed(g) && c in g.candidates && d in g.candidates
    ensures c.id == d.id ==> c == d
  {
    IdsDiffer(g);
    var i :| 0 <= i < |g.candidates| && g.candidates[i] == c;
    var j :| 0 <= j < |g.candidates| && g.candidates[j] == d;
    hide WellFormed;
    assert i < j ==> NotSameId(g.candidates[i], g.candidates[j]);
    assert j < i ==> NotSameId(g.candidates[j], g.candidates[i]);
  }

  /** Drops every split edge of an un-enumerable credit, sorts the rest and finds the components. */
  method BuildGraph(credits: set<Key>, raw: seq<Candidate>, unEnumerable: set<Key>,
                    order: (Candidate, Candidate) -> bool)
      returns (g: Graph, comps: seq<set<Key>>)
    requires WellFormed(Graph(credits, raw, unEnumerable)) && forall c :: c in raw && c.isSplit ==> c.target.Settlement?
    requires OrdersEdges(order)
    ensures WellFormed(g) && ArePartition(g, comps) && g.credits == credits && g.unEnumerable == unEnumerable
    ensures forall c :: c in g.candidates <==> c in raw && !(c.isSplit && !(c.keys !! unEnumerable))
    ensures SortedBy(g.candidates, order)
    ensures forall raw' :: multiset(raw') == multiset(raw) ==> g == GraphOf(credits, raw', unEnumerable, order)
  {
    hide WellFormed, Sort, Filter, Kept, OrdersEdges;
    var kept := Filter(raw, (c: Candidate) => Kept(unEnumerable, c));
    KeptIsSorted(kept, order);
    forall raw' | multiset(raw') == multiset(raw)
      ensures GraphOf(credits, raw, unEnumerable, order) == GraphOf(credits, raw', unEnumerable, order)
    {
      GraphIgnoresOrder(credits, raw, raw', unEnumerable, order);
    }
    g := Graph(credits, Sort(kept, order), unEnumerable);
    KeptIsWellFormed(Graph(credits, raw, unEnumerable), g, order);
    comps := FindComponents(g);
  }

  lemma KeptIsSorted(kept: seq<Candidate>, order: (Candidate, Candidate) -> bool)
    requires OrdersEdges(order)
    ensures SortedBy(Sort(kept, order), order)
  {
    SortSorted(kept, order);
  }

  lemma KeptIsWellFormed(g: Graph, g': Graph, order: (Candidate, Candidate) -> bool)
    requires WellFormed(g) && forall c :: c in g.candidates && c.isSplit ==> c.target.Settlement?
    requires g' == Graph(g.credits, Sort(Filter(g.candidates, (c: Candidate) => Kept(g.unEnumerable, c)), order),
                         g.unEnumerable)
    ensures WellFormed(g')
    ensures forall c :: c in g'.candidates <==> c in g.candidates && !(c.isSplit && !(c.keys !! g.unEnumerable))
  {
    hide WellFormed, Sort, Filter, Kept;
    SortMembers(Filter(g.candidates, (c: Candidate) => Kept(g.unEnumerable, c)), order);
    forall c
      ensures c in g'.candidates <==> c in g.candidates && !(c.isSplit && !(c.keys !! g.unEnumerable))
    {
      KeptMeans(g.unEnumerable, c);
    }
    KeptIdsDiffer(g, g', order);
    WellFormedFrom(g, g');
  }

  lemma KeptMeans(unEnumerable: set<Key>, c: Candidate)
    ensures Kept(unEnumerable, c) <==> !(c.isSplit && !(c.keys !! unEnumerable))
  {
    if !(c.keys !! unEnumerable) {
      var k := AnyCommon(c.keys, unEnumerable);
    }
  }

  lemma KeptIdsDiffer(g: Graph, g': Graph, order: (Candidate, Candidate) -> bool)
    requires WellFormed(g)
    requires g'.candidates == Sort(Filter(g.candidates, (c: Candidate) => Kept(g.unEnumerable, c)), order)
    ensures Pairwise(g'.candidates, NotSameId)
  {
    hide WellFormed, Sort, Filter, Kept;
    var keep := (c: Candidate) => Kept(g.unEnumerable, c);
    IdsDiffer(g);
    FilterPairwise(g.candidates, keep, NotSameId);
    SortPairwise(Filter(g.candidates, keep), order, NotSameId);
  }

  lemma IdsDiffer(g: Graph)
    requires WellFormed(g)
    ensures Pairwise(g.candidates, NotSameId)
  {
  }

  /** A graph of fewer edges that keeps the abstain edges is well formed. */
  lemma WellFormedFrom(g: Graph, g': Graph)
    requires WellFormed(g) && g'.credits == g.credits && Pairwise(g'.candidates, NotSameId)
    requires forall c :: c in g'.candidates ==> c in g.candidates
    requires forall c :: c in g.candidates && c.target == Abstain ==> c in g'.candidates
    ensures WellFormed(g')
  {
    forall c | c in g'.candidates
      ensures WellFormedCandidate(g', c)
    {
      assert WellFormedCandidate(g, c);
    }
    forall k | k in g'.credits
      ensures exists c :: c in g'.candidates && IsAbstainOf(c, k)
    {
      var c :| c in g.candidates && IsAbstainOf(c, k);
      assert c in g'.candidates;
    }
    hide WellFormedCandidate;
    assert forall i, j :: 0 <= i < j < |g'.candidates| ==> NotSameId(g'.candidates[i], g'.candidates[j]);
  }

  /** An un-enumerable credit is never settled by a split. */
  lemma UnEnumerableNeverSplit(g: Graph, flat: seq<Candidate>, contested: map<Key, Contest>, k: Key)
    requires forall c :: c in g.candidates ==> !(c.isSplit && !(c.keys !! g.unEnumerable))
    requires IsAssignment(Whole(g), g.credits, flat) && k in g.unEnumerable
    ensures VerdictFor(k, EdgeOf(flat, k), contested).splitKeys == {}
  {
    hide CoversAll, NoClash;
    if EdgeOf(flat, k).Some? {
      assert EdgeOf(flat, k).value in flat;
    }
  }
}
