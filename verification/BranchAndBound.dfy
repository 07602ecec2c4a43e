/** The branch-and-bound search over one component. */
module BranchAndBound {
  import opened Options
  import opened Sequences
  import opened Assignments

  function ByCredit(g: Graph, k: Key): seq<Candidate> {
    Filter(g.candidates, (c: Candidate) => k in c.keys)
  }

  predicate CheaperFirst(c: Candidate, d: Candidate) {
    !Less(d.cost, c.cost)
  }

  /** The edges tried for the least open credit, in the order the search tries them. */
  function Branches(p: Problem, un: set<Key>, used: set<Sid>): seq<Candidate>
    requires un != {}
  {
    var valid := Filter(ByCredit(p.graph, MinKey(un)), (c: Candidate) => Fits(p, un, used, c));
    Sort(valid, CheaperFirst)
  }

  lemma BranchesAreExact(p: Problem, un: set<Key>, used: set<Sid>, c: Candidate)
    requires un != {}
    ensures c in Branches(p, un, used) <==> MinKey(un) in c.keys && Fits(p, un, used, c)
  {
    SortMembers(Filter(ByCredit(p.graph, MinKey(un)), (c: Candidate) => Fits(p, un, used, c)), CheaperFirst);
  }

  function AbstainsOf(p: Problem, k: Key): seq<Candidate> {
    Filter(ByCredit(p.graph, k), (c: Candidate) => c.target == Abstain && c.id !in p.excluded)
  }

  /** The baseline: every abstain edge of the component, in credit order. */
  function DefaultChosen(p: Problem, comp: set<Key>): seq<Candidate> {
    if comp == {} then []
    else AbstainsOf(p, MinKey(comp)) + DefaultChosen(p, comp - {MinKey(comp)})
  }

  lemma AbstainsOfAtMostOne(p: Problem, k: Key)
    requires WellFormed(p.graph)
    ensures |AbstainsOf(p, k)| <= 1
    ensures forall c :: c in AbstainsOf(p, k) ==> IsAbstainOf(c, k) && Allowed(p, c)
    ensures k in p.graph.credits && (forall c :: c in p.graph.candidates && c.target == Abstain ==> c.id !in p.excluded)
            ==> AbstainsOf(p, k) != []
  {
    var distinct := (c: Candidate, d: Candidate) => c.id != d.id;
    var abstain := (c: Candidate) => c.target == Abstain && c.id !in p.excluded;
    FilterPairwise(p.graph.candidates, (c: Candidate) => k in c.keys, distinct);
    FilterPairwise(ByCredit(p.graph, k), abstain, distinct);
    forall c | c in AbstainsOf(p, k)
      ensures IsAbstainOf(c, k)
    {
      assert WellFormedCandidate(p.graph, c);
      SingletonKey(c.keys, k);
    }
    PairwiseWitness(AbstainsOf(p, k), distinct);
  }

  lemma SingletonKey(s: set<Key>, k: Key)
    requires |s| == 1 && k in s
    ensures s == {k}
  {
    assert |s - {k}| == 0;
  }

  lemma AbstainPrepend(p: Problem, comp: set<Key>, used: set<Sid>, c: Candidate, rest: seq<Candidate>)
    requires comp != {} && IsAbstainOf(c, MinKey(comp)) && Allowed(p, c)
    requires Canonical(p, comp - {MinKey(comp)}, used, rest)
    ensures Canonical(p, comp, used, [c] + rest)
  {
    CanonicalPrepend(p, comp, used, c, rest);
  }

  lemma {:induction false} DefaultLength(p: Problem, comp: set<Key>)
    requires WellFormed(p.graph)
    ensures |DefaultChosen(p, comp)| <= |comp|
  {
    hide WellFormed, AbstainsOf, DefaultChosen;
    DefaultUnfold(p, comp);
    if comp != {} {
      var k := MinKey(comp);
      AbstainsOfAtMostOne(p, k);
      DefaultLength(p, comp - {k});
      assert |comp - {k}| == |comp| - 1;
    }
  }

  lemma DefaultUnfold(p: Problem, comp: set<Key>)
    ensures comp == {} ==> DefaultChosen(p, comp) == []
    ensures comp != {} ==>
              DefaultChosen(p, comp) == AbstainsOf(p, MinKey(comp)) + DefaultChosen(p, comp - {MinKey(comp)})
  {
    hide AbstainsOf;
  }

  lemma DefaultSplit(p: Problem, comp: set<Key>) returns (c: Candidate)
    requires WellFormed(p.graph) && comp != {} && |DefaultChosen(p, comp)| == |comp|
    ensures IsAbstainOf(c, MinKey(comp)) && Allowed(p, c)
    ensures |DefaultChosen(p, comp - {MinKey(comp)})| == |comp - {MinKey(comp)}|
    ensures DefaultChosen(p, comp) == [c] + DefaultChosen(p, comp - {MinKey(comp)})
  {
    hide WellFormed, AbstainsOf, DefaultChosen;
    DefaultUnfold(p, comp);
    var k := MinKey(comp);
    AbstainsOfAtMostOne(p, k);
    DefaultLength(p, comp - {k});
    assert |comp - {k}| == |comp| - 1;
    c := AbstainsOf(p, k)[0];
    assert AbstainsOf(p, k) == [c];
  }

  /** The baseline is used only when it has one edge per credit; then it is a valid assignment. */
  lemma {:induction false} DefaultIsCanonical(p: Problem, comp: set<Key>, used: set<Sid>)
    requires WellFormed(p.graph) && |DefaultChosen(p, comp)| == |comp|
    ensures Canonical(p, comp, used, DefaultChosen(p, comp))
  {
    hide WellFormed, DefaultChosen;
    DefaultUnfold(p, comp);
    if comp != {} {
      var c := DefaultSplit(p, comp);
      DefaultIsCanonical(p, comp - {MinKey(comp)}, used);
      AbstainPrepend(p, comp, used, c, DefaultChosen(p, comp - {MinKey(comp)}));
    }
  }

  /** Nothing excluded: the all-abstain baseline exists. */
  lemma {:induction false} DefaultIsComplete(p: Problem, comp: set<Key>)
    requires WellFormed(p.graph) && comp <= p.graph.credits
    requires forall c :: c in p.graph.candidates && c.target == Abstain ==> c.id !in p.excluded
    ensures |DefaultChosen(p, comp)| == |comp|
  {
    hide WellFormed, AbstainsOf, DefaultChosen;
    DefaultUnfold(p, comp);
    if comp != {} {
      var k := MinKey(comp);
      AbstainsOfAtMostOne(p, k);
      DefaultIsComplete(p, comp - {k});
      assert |comp - {k}| == |comp| - 1;
    }
  }

  // ----- The size of the search tree

  /** Every edge serves the least open credit. */
  ghost predicate Narrow(un: set<Key>, cs: seq<Candidate>) {
    un != {} && forall c :: c in cs ==> MinKey(un) in c.keys
  }

  lemma BranchesAreNarrow(p: Problem, un: set<Key>, used: set<Sid>)
    requires un != {}
    ensures Narrow(un, Branches(p, un, used))
  {
    hide Branches;
    forall c | c in Branches(p, un, used)
      ensures MinKey(un) in c.keys
    {
      BranchesAreExact(p, un, used, c);
    }
  }

  /** The calls a search without pruning makes below a node, the node included. */
  ghost function Nodes(p: Problem, un: set<Key>, used: set<Sid>): nat
    decreases un, 1, 0
  {
    if un == {} then 1
    else
      BranchesAreNarrow(p, un, used);
      1 + NodesOf(p, un, used, Branches(p, un, used))
  }

  ghost function NodesOf(p: Problem, un: set<Key>, used: set<Sid>, cs: seq<Candidate>): nat
    requires Narrow(un, cs)
    decreases un, 0, |cs|
  {
    if cs == [] then 0
    else
      var c := cs[|cs| - 1];
      assert c in cs && MinKey(un) in un && MinKey(un) !in un - c.keys;
      NodesOf(p, un, used, cs[..|cs| - 1]) + Nodes(p, un - c.keys, Taken(used, c))
  }

  lemma NodesUnfold(p: Problem, un: set<Key>, used: set<Sid>)
    ensures un == {} ==> Nodes(p, un, used) == 1
    ensures un != {} ==> Narrow(un, Branches(p, un, used))
                         && Nodes(p, un, used) == 1 + NodesOf(p, un, used, Branches(p, un, used))
  {
    hide Branches;
    if un != {} {
      BranchesAreNarrow(p, un, used);
    }
  }

  lemma NodesOfUnfold(p: Problem, un: set<Key>, used: set<Sid>, cs: seq<Candidate>, c: Candidate)
    requires Narrow(un, cs + [c])
    ensures Narrow(un, cs)
    ensures NodesOf(p, un, used, cs + [c]) == NodesOf(p, un, used, cs) + Nodes(p, un - c.keys, Taken(used, c))
  {
    hide Nodes;
    assert (cs + [c])[..|cs|] == cs;
    assert forall d :: d in cs ==> d in cs + [c];
  }

  /** The edges tried so far account for part of the tree, and the next for its own subtree. */
  lemma NodesOfPrefix(p: Problem, un: set<Key>, used: set<Sid>, cs: seq<Candidate>, i: nat)
    requires Narrow(un, cs) && i <= |cs|
    ensures Narrow(un, cs[..i]) && NodesOf(p, un, used, cs[..i]) <= NodesOf(p, un, used, cs)
    ensures i == 0 ==> NodesOf(p, un, used, cs[..i]) == 0
    ensures i < |cs| ==> Narrow(un, cs[..i + 1])
    ensures i < |cs| ==>
              NodesOf(p, un, used, cs[..i + 1]) == NodesOf(p, un, used, cs[..i])
                + Nodes(p, un - cs[i].keys, Taken(used, cs[i]))
  {
    hide Nodes, NodesOf;
    assert cs == cs[..i] + cs[i..];
    NodesOfConcat(p, un, used, cs[..i], cs[i..]);
    NodesOfNone(p, un, used);
    if i < |cs| {
      TakeNext(cs, i);
      assert forall d :: d in cs[..i + 1] ==> d in cs;
      NodesOfUnfold(p, un, used, cs[..i], cs[i]);
    }
  }

  lemma NodesOfNone(p: Problem, un: set<Key>, used: set<Sid>)
    requires un != {}
    ensures NodesOf(p, un, used, []) == 0
  {
  }

  lemma {:induction false} NodesOfConcat(p: Problem, un: set<Key>, used: set<Sid>, a: seq<Candidate>, b: seq<Candidate>)
    requires Narrow(un, a + b)
    ensures Narrow(un, a) && Narrow(un, b)
    ensures NodesOf(p, un, used, a + b) == NodesOf(p, un, used, a) + NodesOf(p, un, used, b)
    decreases |b|
  {
    hide Nodes, NodesOf;
    assert forall d :: d in a + b <==> d in a || d in b;
    NodesOfNone(p, un, used);
    if b == [] {
      assert a + b == a;
    } else {
      var front, c := b[..|b| - 1], b[|b| - 1];
      assert b == front + [c] && a + b == (a + front) + [c];
      assert forall d :: d in a + front ==> d in a + b;
      NodesOfConcat(p, un, used, a, front);
      NodesOfUnfold(p, un, used, a + front, c);
      NodesOfUnfold(p, un, used, front, c);
    }
  }

  lemma NodesOfDrop(p: Problem, un: set<Key>, used: set<Sid>, cs: seq<Candidate>, i: nat)
    requires Narrow(un, cs) && i < |cs|
    ensures Narrow(un, Drop(cs, i))
    ensures NodesOf(p, un, used, cs) == Nodes(p, un - cs[i].keys, Taken(used, cs[i]))
              + NodesOf(p, un, used, Drop(cs, i))
  {
    hide Nodes, NodesOf;
    DropMembers(cs, i);
    SplitAt(cs, i);
    NodesOfConcat(p, un, used, cs[..i], [cs[i]] + cs[i + 1..]);
    NodesOfConcat(p, un, used, [cs[i]], cs[i + 1..]);
    NodesOfConcat(p, un, used, cs[..i], cs[i + 1..]);
    NodesOfNone(p, un, used);
    assert [] + [cs[i]] == [cs[i]];
    NodesOfUnfold(p, un, used, [], cs[i]);
  }

  /** What one problem allows the other allows too, over the same graph. */
  ghost predicate Stricter(p': Problem, p: Problem) {
    p'.graph == p.graph && forall c :: Allowed(p', c) ==> Allowed(p, c)
  }

  lemma {:induction false} FilterFewer<T>(s: seq<T>, keep': T -> bool, keep: T -> bool)
    requires forall x :: x in s && keep'(x) ==> keep(x)
    ensures multiset(Filter(s, keep')) <= multiset(Filter(s, keep))
  {
    hide Filter;
    FilterUnfold(s, keep');
    FilterUnfold(s, keep);
    if s != [] {
      assert s[0] in s;
      FilterFewer(s[1..], keep', keep);
    }
  }

  lemma BranchesFewer(p': Problem, p: Problem, un: set<Key>, used: set<Sid>)
    requires un != {} && Stricter(p', p)
    ensures multiset(Branches(p', un, used)) <= multiset(Branches(p, un, used))
  {
    hide Filter, Sort, Allowed;
    FilterFewer(ByCredit(p.graph, MinKey(un)), (c: Candidate) => Fits(p', un, used, c),
                (c: Candidate) => Fits(p, un, used, c));
  }

  /** Blocking settlements or excluding edges only shrinks the search. */
  lemma {:induction false} NodesFewer(p': Problem, p: Problem, un: set<Key>, used: set<Sid>)
    requires Stricter(p', p)
    ensures Nodes(p', un, used) <= Nodes(p, un, used)
    decreases un, 1, 0
  {
    hide Nodes, NodesOf, Branches, Stricter;
    NodesUnfold(p', un, used);
    NodesUnfold(p, un, used);
    if un != {} {
      BranchesFewer(p', p, un, used);
      NodesOfFewer(p', p, un, used, Branches(p', un, used), Branches(p, un, used));
    }
  }

  lemma {:induction false} NodesOfFewer(p': Problem, p: Problem, un: set<Key>, used: set<Sid>, cs': seq<Candidate>,
                                        cs: seq<Candidate>)
    requires Stricter(p', p) && Narrow(un, cs') && Narrow(un, cs) && multiset(cs') <= multiset(cs)
    ensures NodesOf(p', un, used, cs') <= NodesOf(p, un, used, cs)
    decreases un, 0, |cs'|
  {
    hide Nodes, NodesOf, Stricter;
    if cs' == [] {
      NodesOfNone(p', un, used);
    } else {
      var c := cs'[0];
      assert c in multiset(cs) && c in cs';
      var i :| 0 <= i < |cs| && cs[i] == c;
      DropMembers(cs', 0);
      DropMembers(cs, i);
      CancelSubset(c, multiset(Drop(cs', 0)), multiset(Drop(cs, i)));
      NodesOfDrop(p', un, used, cs', 0);
      NodesOfDrop(p, un, used, cs, i);
      assert MinKey(un) in un && MinKey(un) !in un - c.keys;
      NodesFewer(p', p, un - c.keys, Taken(used, c));
      NodesOfFewer(p', p, un, used, Drop(cs', 0), Drop(cs, i));
    }
  }

  function Power(b: nat, n: nat): nat {
    if n == 0 then 1 else b * Power(b, n - 1)
  }

  lemma {:induction false} PowerGrows(b: nat, m: nat, n: nat)
    requires b >= 1 && m <= n
    ensures 1 <= Power(b, m) <= Power(b, n)
    decreases n
  {
    hide Power;
    PowerUnfold(b, n);
    if n > 0 {
      PowerGrows(b, if m < n then m else n - 1, n - 1);
      Times(b, Power(b, n - 1));
    }
  }

  lemma PowerUnfold(b: nat, n: nat)
    ensures Power(b, n) == if n == 0 then 1 else b * Power(b, n - 1)
  {
  }

  lemma Times(b: nat, x: nat)
    requires b >= 1
    ensures b * x >= x
  {
  }

  /** A bound a caller can compute: `d` edges per credit and `n` credits make at most (d + 1)^n calls. */
  lemma {:induction false} NodesAtMost(p: Problem, un: set<Key>, used: set<Sid>, d: nat)
    requires forall k :: k in un ==> |ByCredit(p.graph, k)| <= d
    ensures Nodes(p, un, used) <= Power(d + 1, |un|)
    decreases un, 1, 0
  {
    hide Nodes, NodesOf, Branches, ByCredit, Power;
    NodesUnfold(p, un, used);
    if un == {} {
      PowerGrows(d + 1, 0, |un|);
    } else {
      var cs := Branches(p, un, used);
      BranchesAtMost(p, un, used);
      NodesOfAtMost(p, un, used, cs, d);
      PowerStep(d, |un|, |cs|);
    }
  }

  lemma PowerStep(d: nat, n: nat, m: nat)
    requires n >= 1 && m <= d
    ensures 1 + m * Power(d + 1, n - 1) <= Power(d + 1, n)
  {
    hide Power;
    PowerGrows(d + 1, 0, n - 1);
    PowerUnfold(d + 1, n);
    var x := Power(d + 1, n - 1);
    assert m * x <= d * x;
    assert (d + 1) * x == d * x + x;
  }

  lemma BranchesAtMost(p: Problem, un: set<Key>, used: set<Sid>)
    requires un != {}
    ensures |Branches(p, un, used)| <= |ByCredit(p.graph, MinKey(un))|
  {
    hide Sort, Filter;
  }

  lemma {:induction false} NodesOfAtMost(p: Problem, un: set<Key>, used: set<Sid>, cs: seq<Candidate>, d: nat)
    requires Narrow(un, cs) && forall k :: k in un ==> |ByCredit(p.graph, k)| <= d
    ensures NodesOf(p, un, used, cs) <= |cs| * Power(d + 1, |un| - 1)
    decreases un, 0, |cs|
  {
    hide Nodes, NodesOf, ByCredit, Power;
    var x := Power(d + 1, |un| - 1);
    if cs == [] {
      NodesOfNone(p, un, used);
    } else {
      var front, c := cs[..|cs| - 1], cs[|cs| - 1];
      assert cs == front + [c] && c in cs;
      NodesOfUnfold(p, un, used, front, c);
      NodesOfAtMost(p, un, used, front, d);
      var left := un - c.keys;
      assert MinKey(un) in un && MinKey(un) !in left;
      SmallerSet(left, un, MinKey(un));
      NodesAtMost(p, left, Taken(used, c), d);
      PowerGrows(d + 1, |left|, |un| - 1);
      assert |cs| * x == |front| * x + x;
    }
  }

  lemma SmallerSet(a: set<Key>, b: set<Key>, k: Key)
    requires a <= b && k in b && k !in a
    ensures |a| <= |b| - 1
  {
    assert b == a + (b - a) && k in b - a;
    assert |b - a| >= 1;
  }

  // ----- Pruning and completeness of one search node

  /** The incumbent is at least as good as cost `c`. */
  predicate Beaten(best: Option<Cost>, c: Cost) {
    best.Some? && !Less(c, best.value)
  }

  /** Every completion of the node costs at least the incumbent. */
  ghost predicate AllBeaten(p: Problem, un: set<Key>, used: set<Sid>, cost: Cost, best: Option<Cost>) {
    forall s :: Canonical(p, un, used, s) ==> Beaten(best, Add(cost, TotalCost(s)))
  }

  /** The same, for the completions whose first edge is one of `firsts`. */
  ghost predicate FirstsBeaten(p: Problem, un: set<Key>, used: set<Sid>, cost: Cost, best: Option<Cost>,
                               firsts: seq<Candidate>) {
    forall s :: Canonical(p, un, used, s) && s != [] && s[0] in firsts ==> Beaten(best, Add(cost, TotalCost(s)))
  }

  ghost predicate Improves(old_: Option<Cost>, new_: Option<Cost>) {
    old_.Some? ==> Beaten(new_, old_.value)
  }

  lemma FirstsBeatenImproves(p: Problem, un: set<Key>, used: set<Sid>, cost: Cost, b: Option<Cost>, b': Option<Cost>,
                             firsts: seq<Candidate>)
    requires FirstsBeaten(p, un, used, cost, b, firsts) && Improves(b, b')
    ensures FirstsBeaten(p, un, used, cost, b', firsts)
  {
  }

  lemma FirstsBeatenExtend(p: Problem, un: set<Key>, used: set<Sid>, cost: Cost, b: Option<Cost>,
                           firsts: seq<Candidate>, n: nat)
    requires n < |firsts| && FirstsBeaten(p, un, used, cost, b, firsts[..n])
    requires FirstsBeaten(p, un, used, cost, b, [firsts[n]])
    ensures FirstsBeaten(p, un, used, cost, b, firsts[..n + 1])
  {
    assert forall c :: c in firsts[..n + 1] ==> c in firsts[..n] || c in [firsts[n]];
  }

  lemma CostOfBranch(cost: Cost, s: seq<Candidate>)
    requires s != []
    ensures Add(cost, TotalCost(s)) == Add(Add(cost, s[0].cost), TotalCost(s[1..]))
  {
  }

  /** Pruning on the first two cost parts loses nothing: no completion can win those back. */
  lemma PrunedBranchBeaten(p: Problem, un: set<Key>, used: set<Sid>, cost: Cost, best: Option<Cost>, c: Candidate)
    requires WellFormed(p.graph) && un != {}
    requires best.Some? && Less2(best.value, Add(cost, c.cost))
    ensures FirstsBeaten(p, un, used, cost, best, [c])
  {
    hide WellFormed, Less, Less2, Fits, TotalCost, Add;
    forall s | Canonical(p, un, used, s) && s != [] && s[0] in [c]
      ensures Beaten(best, Add(cost, TotalCost(s)))
    {
      CompletionLow(p, un - c.keys, Taken(used, c), s[1..]);
      CostOfBranch(cost, s);
      PruneArithmetic(best.value, Add(cost, c.cost), TotalCost(s[1..]));
    }
  }

  lemma CompletionLow(p: Problem, un: set<Key>, used: set<Sid>, s: seq<Candidate>)
    requires WellFormed(p.graph) && Canonical(p, un, used, s)
    ensures 0 <= TotalCost(s).invalid && 0 <= TotalCost(s).unexplained
  {
    hide WellFormed, Canonical, CoversAll, NoClash, TotalCost;
    CanonicalIsAssignment(p, un, used, s);
    TotalCostLow(p.graph, s);
  }

  lemma PruneArithmetic(best: Cost, tentative: Cost, rest: Cost)
    requires Less2(best, tentative) && 0 <= rest.invalid && 0 <= rest.unexplained
    ensures !Less(Add(tentative, rest), best)
  {
  }

  lemma SearchedBranchBeaten(p: Problem, un: set<Key>, used: set<Sid>, cost: Cost, best: Option<Cost>, c: Candidate)
    requires un != {}
    requires AllBeaten(p, un - c.keys, Taken(used, c), Add(cost, c.cost), best)
    ensures FirstsBeaten(p, un, used, cost, best, [c])
  {
    forall s | Canonical(p, un, used, s) && s != [] && s[0] in [c]
      ensures Beaten(best, Add(cost, TotalCost(s)))
    {
      assert Canonical(p, un - c.keys, Taken(used, c), s[1..]);
      CostOfBranch(cost, s);
    }
  }

  lemma AllBranchesBeaten(p: Problem, un: set<Key>, used: set<Sid>, cost: Cost, best: Option<Cost>)
    requires un != {} && FirstsBeaten(p, un, used, cost, best, Branches(p, un, used))
    ensures AllBeaten(p, un, used, cost, best)
  {
    forall s | Canonical(p, un, used, s)
      ensures Beaten(best, Add(cost, TotalCost(s)))
    {
      BranchesAreExact(p, un, used, s[0]);
    }
  }

  /** `chosen` followed by any completion of the node is a valid assignment of the component. */
  ghost predicate Leads(p: Problem, comp: set<Key>, chosen: seq<Candidate>, un: set<Key>, used: set<Sid>) {
    forall s :: Canonical(p, un, used, s) ==> IsAssignment(p, comp, chosen + s)
  }

  lemma LeadsOn(p: Problem, comp: set<Key>, chosen: seq<Candidate>, un: set<Key>, used: set<Sid>, c: Candidate)
    requires Leads(p, comp, chosen, un, used) && un != {} && MinKey(un) in c.keys && Fits(p, un, used, c)
    ensures Leads(p, comp, chosen + [c], un - c.keys, Taken(used, c))
  {
    forall s | Canonical(p, un - c.keys, Taken(used, c), s)
      ensures IsAssignment(p, comp, chosen + [c] + s)
    {
      CanonicalPrepend(p, un, used, c, s);
      assert chosen + [c] + s == chosen + ([c] + s);
    }
  }

  lemma LeafLeads(p: Problem, comp: set<Key>, chosen: seq<Candidate>, used: set<Sid>)
    requires Leads(p, comp, chosen, {}, used)
    ensures IsAssignment(p, comp, chosen)
  {
    assert Canonical(p, {}, used, []) && chosen + [] == chosen;
  }

  lemma LeafImproves(p: Problem, used: set<Sid>, b: Option<Cost>, b': Option<Cost>, cost: Cost)
    requires b' == if b == None || Less(cost, b.value) then Some(cost) else b
    ensures Improves(b, b') && AllBeaten(p, {}, used, cost, b')
  {
    forall s | Canonical(p, {}, used, s)
      ensures Beaten(b', Add(cost, TotalCost(s)))
    {
      assert Add(cost, TotalCost([])) == cost;
    }
  }

  lemma NeverLess(c: Cost)
    ensures !Less(c, c)
  {
  }

  lemma ImprovesTransitive(a: Option<Cost>, b: Option<Cost>, c: Option<Cost>)
    requires Improves(a, b) && Improves(b, c)
    ensures Improves(a, c) && (a == c ==> a == b)
  {
  }

  lemma NothingBeatenYet(p: Problem, un: set<Key>, used: set<Sid>, cost: Cost, best: Option<Cost>)
    ensures FirstsBeaten(p, un, used, cost, best, []) && Improves(best, best)
  {
  }

  /** The state the nested `search` function shares across its calls. */
  class Search {
    const problem: Problem
    const comp: set<Key>
    const maxSteps: int
    var best: Option<Cost>
    var bestAssignment: seq<Candidate>
    var steps: int
    var exceeded: bool
    var chosen: seq<Candidate>

    /** The incumbent is a valid assignment at its stated cost. */
    ghost predicate Valid()
      reads this
    {
      && WellFormed(problem.graph)
      && (best.Some? ==> IsAssignment(problem, comp, bestAssignment) && best.value == TotalCost(bestAssignment))
      && (exceeded <==> steps > Budget()) && steps <= Budget() + 1
    }

    function Budget(): nat {
      if maxSteps < 0 then 0 else maxSteps
    }

    constructor (problem: Problem, comp: set<Key>, maxSteps: int)
      requires WellFormed(problem.graph)
      ensures Valid() && this.problem == problem && this.comp == comp && this.maxSteps == maxSteps
      ensures chosen == [] && steps == 0
      ensures |DefaultChosen(problem, comp)| == |comp|
              ==> bestAssignment == DefaultChosen(problem, comp) && best == Some(TotalCost(bestAssignment))
      ensures |DefaultChosen(problem, comp)| != |comp| ==> best == None
    {
      hide WellFormed, IsAssignment, Canonical, DefaultChosen, TotalCost;
      this.problem, this.comp, this.maxSteps := problem, comp, maxSteps;
      steps, exceeded, chosen := 0, false, [];
      var def := DefaultChosen(problem, comp);
      if |def| == |comp| {
        DefaultIsCanonical(problem, comp, {});
        CanonicalIsAssignment(problem, comp, {}, def);
        best, bestAssignment := Some(TotalCost(def)), def;
      } else {
        best, bestAssignment := None, [];
      }
    }

    /** One edge of a node: pruned, or pushed, searched and popped again. */
    method TryEdge(un: set<Key>, used: set<Sid>, cost: Cost, c: Candidate)
      requires Valid() && !exceeded && 0 <= steps
      requires cost == TotalCost(chosen) && Leads(problem, comp, chosen, un, used)
      requires un != {} && MinKey(un) in c.keys && Fits(problem, un, used, c)
      modifies this
      ensures Valid() && chosen == old(chosen) && steps >= old(steps)
      ensures Improves(old(best), best)
      ensures best == old(best) ==> bestAssignment == old(bestAssignment)
      ensures !exceeded ==> FirstsBeaten(problem, un, used, cost, best, [c])
      ensures steps <= old(steps) + Nodes(problem, un - c.keys, Taken(used, c))
      decreases un, 0
    {
      hide WellFormed, IsAssignment, Canonical, Leads, FirstsBeaten, AllBeaten, Fits, Add, Less, Less2, TotalCost,
           Nodes, Improves, Taken;
      NothingBeatenYet(problem, un, used, cost, best);
      var tentative := Add(cost, c.cost);
      if best.Some? && Less2(best.value, tentative) {
        PrunedBranchBeaten(problem, un, used, cost, best, c);
        return;
      }
      LeadsOn(problem, comp, chosen, un, used, c);
      TotalCostAppend(chosen, c);
      chosen := chosen + [c];
      Explore(un - c.keys, Taken(used, c), tentative);
      chosen := chosen[..|chosen| - 1];
      if !exceeded {
        SearchedBranchBeaten(problem, un, used, cost, best, c);
      }
    }

    /** A complete assignment replaces the incumbent when it is cheaper. */
    method Offer(cost: Cost)
      requires Valid() && cost == TotalCost(chosen) && IsAssignment(problem, comp, chosen)
      modifies this`best, this`bestAssignment
      ensures Valid() && best == if old(best) == None || Less(cost, old(best).value) then Some(cost) else old(best)
      ensures best == old(best) ==> bestAssignment == old(bestAssignment)
    {
      hide WellFormed, IsAssignment, Less, TotalCost;
      NeverLess(cost);
      if best == None || Less(cost, best.value) {
        best, bestAssignment := Some(cost), chosen;
      }
    }

    /** One call of the nested search function: `steps` counts the calls. */
    method Explore(un: set<Key>, used: set<Sid>, cost: Cost)
      requires Valid() && !exceeded && 0 <= steps
      requires cost == TotalCost(chosen) && Leads(problem, comp, chosen, un, used)
      modifies this
      ensures Valid() && chosen == old(chosen) && steps > old(steps)
      ensures Improves(old(best), best)
      ensures best == old(best) ==> bestAssignment == old(bestAssignment)
      ensures !exceeded ==> AllBeaten(problem, un, used, cost, best)
      ensures steps <= old(steps) + Nodes(problem, un, used)
      decreases un, 1
    {
      hide WellFormed, IsAssignment, Canonical, Leads, FirstsBeaten, AllBeaten, Branches, Fits, Add, Less, Less2,
           TotalCost, Nodes, NodesOf, Narrow, Improves, Taken;
      NothingBeatenYet(problem, un, used, cost, best);
      NodesUnfold(problem, un, used);
      steps := steps + 1;
      if steps > maxSteps {
        exceeded := true;
        return;
      }
      if un == {} {
        LeafLeads(problem, comp, chosen, used);
        Offer(cost);
        LeafImproves(problem, used, old(best), best, cost);
        return;
      }
      var branches := Branches(problem, un, used);
      var i := 0;
      NodesOfPrefix(problem, un, used, branches, 0);
      while i < |branches|
        invariant 0 <= i <= |branches| && Narrow(un, branches[..i])
        invariant steps <= old(steps) + 1 + NodesOf(problem, un, used, branches[..i])
        invariant Valid() && chosen == old(chosen) && steps > old(steps)
        invariant Improves(old(best), best)
        invariant best == old(best) ==> bestAssignment == old(bestAssignment)
        invariant !exceeded ==> FirstsBeaten(problem, un, used, cost, best, branches[..i])
        decreases |branches| - i
      {
        NodesOfPrefix(problem, un, used, branches, i);
        if exceeded {
          return;
        }
        var c := branches[i];
        BranchesAreExact(problem, un, used, c);
        ghost var before := best;
        TryEdge(un, used, cost, c);
        ImprovesTransitive(old(best), before, best);
        if !exceeded {
          FirstsBeatenImproves(problem, un, used, cost, before, best, branches[..i]);
          FirstsBeatenExtend(problem, un, used, cost, best, branches, i);
        }
        i := i + 1;
      }
      assert branches[..i] == branches;
      if !exceeded {
        AllBranchesBeaten(problem, un, used, cost, best);
      }
    }
  }

  const NO_ASSIGNMENT := Cost(999, 999999999, 999999999, 0, 9990000)

  /** `a` is a valid assignment of `comp` and none is cheaper. */
  ghost predicate IsOptimal(p: Problem, comp: set<Key>, a: seq<Candidate>) {
    && IsAssignment(p, comp, a)
    && forall b :: IsAssignment(p, comp, b) ==> !Less(TotalCost(b), TotalCost(a))
  }

  lemma RootLeads(p: Problem, comp: set<Key>)
    ensures Leads(p, comp, [], comp, {})
  {
    forall s | Canonical(p, comp, {}, s)
      ensures IsAssignment(p, comp, [] + s)
    {
      CanonicalIsAssignment(p, comp, {}, s);
      assert [] + s == s;
    }
  }

  /** At the root, beating every completion is beating every valid assignment in any order. */
  lemma RootBeaten(p: Problem, comp: set<Key>, best: Option<Cost>, b: seq<Candidate>)
    requires WellFormed(p.graph) && AllBeaten(p, comp, {}, ZERO, best) && IsAssignment(p, comp, b)
    ensures Beaten(best, TotalCost(b))
  {
    hide WellFormed, Canonical, CoversAll, NoClash, AllAllowed, Less, TotalCost;
    var s := AssignmentHasCanonicalForm(p, comp, {}, b);
    assert Add(ZERO, TotalCost(s)) == TotalCost(s);
  }

  /** Solves one component. Without a timeout the result is optimal over every valid assignment
      that avoids the blocked settlements and the excluded edges; on a timeout it is the baseline. */
  method SolveComponent(p: Problem, comp: set<Key>, maxSteps: int)
      returns (a: seq<Candidate>, cost: Cost, timedOut: bool)
    requires WellFormed(p.graph)
    ensures timedOut ==> Nodes(p, comp, {}) > maxSteps
    ensures timedOut ==> a == DefaultChosen(p, comp) && cost == if |a| == |comp| then TotalCost(a) else ZERO
    ensures !timedOut && (exists b :: IsAssignment(p, comp, b)) ==> IsOptimal(p, comp, a) && cost == TotalCost(a)
    ensures !timedOut && !(exists b :: IsAssignment(p, comp, b)) ==> a == [] && cost == NO_ASSIGNMENT
  {
    hide WellFormed, Canonical, CoversAll, NoClash, AllAllowed, Less, TotalCost, DefaultChosen, AllBeaten, Leads, Nodes;
    var search := new Search(p, comp, maxSteps);
    RootLeads(p, comp);
    EmptyCost();
    search.Explore(comp, {}, ZERO);
    if search.exceeded {
      var def := DefaultChosen(p, comp);
      return def, if |def| == |comp| then TotalCost(def) else ZERO, true;
    }
    forall b | IsAssignment(p, comp, b)
      ensures Beaten(search.best, TotalCost(b))
    {
      RootBeaten(p, comp, search.best, b);
    }
    if search.best == None {
      return [], NO_ASSIGNMENT, false;
    }
    return search.bestAssignment, search.best.value, false;
  }

  lemma EmptyCost()
    ensures TotalCost([]) == ZERO
  {
  }
}
