/** Candidate edges of the reconciliation graph, what a valid assignment is, and its cost.
    Money is integer paise; the two rounded cost parts are integers in ten-thousandths. */
module Assignments {
  import opened Sequences

  type Key = int   // a bank credit's line key: only its order and equality matter
  type Sid = int   // a settlement id

  /** (invalid picks, unexplained paise, residual paise, minus evidence weight, ops cost). */
  datatype Cost = Cost(invalid: int, unexplained: int, residual: int, evidence: int, ops: int)

  const ZERO := Cost(0, 0, 0, 0, 0)

  function Add(a: Cost, b: Cost): Cost {
    Cost(a.invalid + b.invalid, a.unexplained + b.unexplained, a.residual + b.residual,
         a.evidence + b.evidence, a.ops + b.ops)
  }

  /** Python's tuple order on the first two parts. */
  predicate Less2(a: Cost, b: Cost) {
    a.invalid < b.invalid || (a.invalid == b.invalid && a.unexplained < b.unexplained)
  }

  /** Python's tuple order on the first three parts. */
  predicate Less3(a: Cost, b: Cost) {
    Less2(a, b)
    || (a.invalid == b.invalid && a.unexplained == b.unexplained && a.residual < b.residual)
  }

  predicate Equal3(a: Cost, b: Cost) {
    a.invalid == b.invalid && a.unexplained == b.unexplained && a.residual == b.residual
  }

  /** Python's tuple order on all five parts. */
  predicate Less(a: Cost, b: Cost) {
    Less3(a, b)
    || (Equal3(a, b) && (a.evidence < b.evidence || (a.evidence == b.evidence && a.ops < b.ops)))
  }

  datatype Rail = Unknown | Razorpay | OtherRail(name: string)

  /** The abstain sink, a rail sink or a settlement. */
  datatype Target = Abstain | RailSink(name: string) | Settlement(sid: Sid)

  datatype Candidate = Candidate(
    id: string, keys: set<Key>, target: Target, rail: Rail, residual: int, cost: Cost, isSplit: bool)

  /** `unEnumerable`: credits of a split pool too large to enumerate. */
  datatype Graph = Graph(credits: set<Key>, candidates: seq<Candidate>, unEnumerable: set<Key>)

  predicate IsAbstainOf(c: Candidate, k: Key) {
    c.target == Abstain && c.keys == {k}
  }

  /** What graph construction guarantees of one edge: it names credits of the period, only a
      settlement edge may name several, and no edge lowers the two hardest cost parts. */
  predicate WellFormedCandidate(g: Graph, c: Candidate) {
    && c.keys != {} && c.keys <= g.credits
    && (!c.target.Settlement? ==> |c.keys| == 1)
    && (c.rail == Unknown <==> c.target == Abstain)
    && (c.rail == Razorpay <==> c.target.Settlement?)
    && 0 <= c.cost.invalid && 0 <= c.cost.unexplained
  }

  ghost predicate WellFormed(g: Graph) {
    && (forall c :: c in g.candidates ==> WellFormedCandidate(g, c))
    && (forall i, j :: 0 <= i < j < |g.candidates| ==> g.candidates[i].id != g.candidates[j].id)
    && (forall k :: k in g.credits ==> exists c :: c in g.candidates && IsAbstainOf(c, k))
    && (forall c, d, k :: c in g.candidates && d in g.candidates && IsAbstainOf(c, k) && IsAbstainOf(d, k) ==> c == d)
  }

  /** One search: the graph, settlements already taken by earlier components, edges ruled out. */
  datatype Problem = Problem(graph: Graph, blocked: set<Sid>, excluded: set<string>)

  predicate Allowed(p: Problem, c: Candidate) {
    && c in p.graph.candidates
    && c.id !in p.excluded
    && (c.target.Settlement? ==> c.target.sid !in p.blocked)
  }

  /** Two edges that cannot both be taken: a shared credit or a shared settlement. */
  ghost predicate Clash(c: Candidate, d: Candidate) {
    !(c.keys !! d.keys) || (c.target.Settlement? && c.target == d.target)
  }

  ghost predicate AllAllowed(p: Problem, credits: set<Key>, a: seq<Candidate>) {
    forall c :: c in a ==> Allowed(p, c) && c.keys <= credits
  }

  ghost predicate CoversAll(credits: set<Key>, a: seq<Candidate>) {
    forall k :: k in credits ==> exists c :: c in a && k in c.keys
  }

  ghost predicate NoClash(a: seq<Candidate>) {
    forall i, j :: 0 <= i < j < |a| ==> !Clash(a[i], a[j])
  }

  /** The independent reference: `a` assigns each of `credits` exactly once and uses no settlement
      twice. Nothing is said about the order of `a`. */
  ghost predicate IsAssignment(p: Problem, credits: set<Key>, a: seq<Candidate>) {
    AllAllowed(p, credits, a) && CoversAll(credits, a) && NoClash(a)
  }

  function TotalCost(a: seq<Candidate>): (t: Cost) {
    if a == [] then ZERO else Add(a[0].cost, TotalCost(a[1..]))
  }

  lemma TotalCostStep(a: seq<Candidate>, b: seq<Candidate>)
    requires a != []
    ensures TotalCost(a + b) == Add(a[0].cost, TotalCost(a[1..] + b))
  {
    assert (a + b)[1..] == a[1..] + b;
  }

  lemma {:induction false} TotalCostConcat(a: seq<Candidate>, b: seq<Candidate>)
    ensures TotalCost(a + b) == Add(TotalCost(a), TotalCost(b))
  {
    if a == [] {
      assert a + b == b;
    } else {
      TotalCostConcat(a[1..], b);
      TotalCostStep(a, b);
    }
  }

  lemma TotalCostAppend(a: seq<Candidate>, c: Candidate)
    ensures TotalCost(a + [c]) == Add(TotalCost(a), c.cost)
  {
    TotalCostConcat(a, [c]);
  }

  /** No edge lowers the first two cost parts, so neither does a whole completion. */
  lemma {:induction false} TotalCostLow(g: Graph, a: seq<Candidate>)
    requires WellFormed(g) && forall c :: c in a ==> c in g.candidates
    ensures 0 <= TotalCost(a).invalid && 0 <= TotalCost(a).unexplained
  {
    if a != [] {
      assert a[0] in a && WellFormedCandidate(g, a[0]);
      TotalCostLow(g, a[1..]);
    }
  }

  function Taken(used: set<Sid>, c: Candidate): set<Sid> {
    if c.target.Settlement? then used + {c.target.sid} else used
  }

  /** Edges the search may take next for credit `k`. */
  predicate Fits(p: Problem, un: set<Key>, used: set<Sid>, c: Candidate) {
    Allowed(p, c) && c.keys <= un && (c.target.Settlement? ==> c.target.sid !in used)
  }

  /** The order in which the search builds assignments: always the least open credit next. */
  ghost predicate Canonical(p: Problem, un: set<Key>, used: set<Sid>, s: seq<Candidate>)
    decreases |s|
  {
    if un == {} then s == []
    else
      && s != [] && MinKey(un) in s[0].keys && Fits(p, un, used, s[0])
      && Canonical(p, un - s[0].keys, Taken(used, s[0]), s[1..])
  }

  lemma CanonicalPrepend(p: Problem, un: set<Key>, used: set<Sid>, c: Candidate, s: seq<Candidate>)
    requires un != {} && MinKey(un) in c.keys && Fits(p, un, used, c)
    requires Canonical(p, un - c.keys, Taken(used, c), s)
    ensures Canonical(p, un, used, [c] + s)
  {
    assert ([c] + s)[1..] == s;
  }

  ghost predicate Avoids(a: seq<Candidate>, used: set<Sid>) {
    forall c :: c in a && c.target.Settlement? ==> c.target.sid !in used
  }

  lemma NoClashPrepend(c: Candidate, a: seq<Candidate>)
    requires NoClash(a) && forall d :: d in a ==> !Clash(c, d)
    ensures NoClash([c] + a)
  {
    var s := [c] + a;
    forall i, j | 0 <= i < j < |s|
      ensures !Clash(s[i], s[j])
    {
      assert s[j] == a[j - 1];
      if i > 0 {
        assert s[i] == a[i - 1];
      }
    }
  }

  lemma AssignmentPrepend(p: Problem, un: set<Key>, used: set<Sid>, c: Candidate, a: seq<Candidate>)
    requires Fits(p, un, used, c)
    requires IsAssignment(p, un - c.keys, a) && Avoids(a, Taken(used, c))
    ensures IsAssignment(p, un, [c] + a) && Avoids([c] + a, used)
  {
    NoClashPrepend(c, a);
    forall k | k in un
      ensures exists d :: d in [c] + a && k in d.keys
    {
      if k in c.keys {
        assert c in [c] + a;
      } else {
        var i := CoveringIndex(un - c.keys, a, k);
        assert a[i] in [c] + a;
      }
    }
  }

  lemma {:induction false} CanonicalIsAssignment(p: Problem, un: set<Key>, used: set<Sid>, s: seq<Candidate>)
    requires Canonical(p, un, used, s)
    ensures IsAssignment(p, un, s) && Avoids(s, used)
    decreases |s|
  {
    if un != {} {
      CanonicalIsAssignment(p, un - s[0].keys, Taken(used, s[0]), s[1..]);
      AssignmentPrepend(p, un, used, s[0], s[1..]);
      assert s == [s[0]] + s[1..];
    }
  }

  lemma TotalCostPrepend(c: Candidate, a: seq<Candidate>)
    ensures TotalCost([c] + a) == Add(c.cost, TotalCost(a))
  {
    TotalCostStep([c], a);
    assert [c][1..] + a == a;
  }

  lemma AddSwap(l: Cost, c: Cost, r: Cost)
    ensures Add(l, Add(c, r)) == Add(c, Add(l, r)) && Add(Add(c, l), r) == Add(c, Add(l, r))
  {
  }

  lemma TotalCostMiddle(l: seq<Candidate>, c: Candidate, r: seq<Candidate>)
    ensures TotalCost(l + ([c] + r)) == Add(c.cost, TotalCost(l + r))
  {
    TotalCostConcat(l, [c] + r);
    TotalCostPrepend(c, r);
    TotalCostConcat(l, r);
    AddSwap(TotalCost(l), c.cost, TotalCost(r));
  }

  lemma TotalCostDrop(a: seq<Candidate>, i: nat)
    requires i < |a|
    ensures TotalCost(a) == Add(a[i].cost, TotalCost(Drop(a, i)))
  {
    TotalCostMiddle(a[..i], a[i], a[i + 1..]);
    SplitAt(a, i);
  }

  lemma AssignmentDrop(p: Problem, un: set<Key>, used: set<Sid>, a: seq<Candidate>, i: nat)
    requires IsAssignment(p, un, a) && Avoids(a, used) && i < |a|
    ensures Fits(p, un, used, a[i])
    ensures IsAssignment(p, un - a[i].keys, Drop(a, i)) && Avoids(Drop(a, i), Taken(used, a[i]))
  {
    var b, c := Drop(a, i), a[i];
    forall j | 0 <= j < |b|
      ensures b[j] in a && !Clash(c, b[j])
    {
      if j < i {
        assert b[j] == a[j] && !Clash(a[j], a[i]);
      } else {
        assert b[j] == a[j + 1] && !Clash(a[i], a[j + 1]);
      }
    }
    forall k | k in un - c.keys
      ensures exists d :: d in b && k in d.keys
    {
      var j := CoveringIndex(un, a, k);
      assert b[if j < i then j else j - 1] == a[j];
    }
    assert NoClash(b) by {
      forall j, l | 0 <= j < l < |b|
        ensures !Clash(b[j], b[l])
      {
        assert b[j] == a[if j < i then j else j + 1] && b[l] == a[if l < i then l else l + 1];
      }
    }
  }

  lemma CoveringIndex(credits: set<Key>, a: seq<Candidate>, k: Key) returns (i: nat)
    requires CoversAll(credits, a) && k in credits
    ensures i < |a| && k in a[i].keys
  {
    var c :| c in a && k in c.keys;
    i :| 0 <= i < |a| && a[i] == c;
  }

  /** Every valid assignment, in whatever order, is reached by the search at the same cost. */
  lemma {:induction false} AssignmentHasCanonicalForm(p: Problem, un: set<Key>, used: set<Sid>, a: seq<Candidate>)
      returns (s: seq<Candidate>)
    requires WellFormed(p.graph) && IsAssignment(p, un, a) && Avoids(a, used)
    ensures Canonical(p, un, used, s) && TotalCost(s) == TotalCost(a)
    decreases |a|
  {
    if un == {} {
      s := [];
      assert a == [] || (a[0] in a && WellFormedCandidate(p.graph, a[0]));
    } else {
      var i := CoveringIndex(un, a, MinKey(un));
      AssignmentDrop(p, un, used, a, i);
      TotalCostDrop(a, i);
      var rest := AssignmentHasCanonicalForm(p, un - a[i].keys, Taken(used, a[i]), Drop(a, i));
      s := [a[i]] + rest;
      TotalCostPrepend(a[i], rest);
      CanonicalPrepend(p, un, used, a[i], rest);
    }
  }
}
