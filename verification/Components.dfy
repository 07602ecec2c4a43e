/** Connected components of the assignment graph, found by breadth-first search. */
module Components {
  import opened Sequences
  import opened Assignments

  /** Two candidates of one settlement compete for it. */
  predicate Compete(c: Candidate, d: Candidate) {
    c.target.Settlement? && c.target == d.target
  }

  /** Credits named by candidates of one settlement are linked. */
  predicate Linked(g: Graph, a: Key, b: Key) {
    a != b && exists c, d :: c in g.candidates && d in g.candidates && Compete(c, d) && a in c.keys && b in d.keys
  }

  function Neighbours(g: Graph, k: Key): set<Key> {
    set b | b in g.credits && Linked(g, k, b)
  }

  /** `b` is reached from `a` in at most `n` links. */
  ghost predicate Reaches(g: Graph, a: Key, b: Key, n: nat)
    decreases n
  {
    a == b || (n > 0 && exists m :: Reaches(g, a, m, n - 1) && Linked(g, m, b))
  }

  ghost predicate Connected(g: Graph, a: Key, b: Key) {
    exists n: nat :: Reaches(g, a, b, n)
  }

  lemma ConnectedStep(g: Graph, a: Key, m: Key, b: Key)
    requires Connected(g, a, m) && Linked(g, m, b)
    ensures Connected(g, a, b)
  {
    var n: nat :| Reaches(g, a, m, n);
    assert Reaches(g, a, b, n + 1);
  }

  ghost predicate Closed(g: Graph, comp: set<Key>) {
    forall a, b :: a in comp && b in g.credits && Linked(g, a, b) ==> b in comp
  }

  lemma LinkedSymmetric(g: Graph, a: Key, b: Key)
    requires Linked(g, a, b)
    ensures Linked(g, b, a)
  {
    var c, d :| c in g.candidates && d in g.candidates && Compete(c, d) && a in c.keys && b in d.keys;
    assert Compete(d, c);
  }

  /** Queues every unseen neighbour, in ascending order. */
  method Enqueue(neighbours: set<Key>, seen0: set<Key>, queue0: seq<Key>) returns (seen: set<Key>, queue: seq<Key>)
    ensures seen == seen0 + neighbours
    ensures forall b :: b in queue <==> b in queue0 || b in neighbours - seen0
    ensures seen == seen0 ==> queue == queue0
  {
    seen, queue := seen0, queue0;
    var pending := neighbours;
    while pending != {}
      invariant pending <= neighbours && seen == seen0 + (neighbours - pending)
      invariant forall b :: b in queue <==> b in queue0 || b in neighbours - pending - seen0
      invariant seen == seen0 ==> queue == queue0
      decreases pending
    {
      var n := MinKey(pending);
      if n !in seen {
        seen := seen + {n};
        queue := queue + [n];
      }
      pending := pending - {n};
    }
  }

  /** What the breadth-first search keeps: `done` is finished, the rest of `seen` is queued. */
  ghost predicate SweepInvariant(g: Graph, root: Key, visited: set<Key>, done: set<Key>, seen: set<Key>,
                                 queue: seq<Key>) {
    && seen <= g.credits && seen !! visited && root in seen && done <= seen
    && (forall b :: b in queue ==> b in seen)
    && (forall b :: b in seen ==> b in done || b in queue)
    && (forall b :: b in seen ==> Connected(g, root, b))
    && (forall a, b :: a in done && b in g.credits && Linked(g, a, b) ==> b in seen)
  }

  lemma SweepStep(g: Graph, root: Key, visited: set<Key>, done: set<Key>, seen: set<Key>, queue: seq<Key>,
                  seen': set<Key>, queue': seq<Key>)
    requires Closed(g, visited) && SweepInvariant(g, root, visited, done, seen, queue) && queue != []
    requires seen' == seen + Neighbours(g, queue[0])
    requires forall b :: b in queue' <==> b in queue[1..] || b in Neighbours(g, queue[0]) - seen
    ensures SweepInvariant(g, root, visited, done + {queue[0]}, seen', queue')
  {
    var curr := queue[0];
    forall b | b in Neighbours(g, curr)
      ensures b !in visited && Connected(g, root, b)
    {
      LinkedSymmetric(g, curr, b);
      ConnectedStep(g, root, curr, b);
    }
    assert forall b :: b in queue ==> b == curr || b in queue[1..];
  }

  lemma SweepStart(g: Graph, root: Key, visited: set<Key>)
    requires root in g.credits && root !in visited
    ensures SweepInvariant(g, root, visited, {}, {root}, [root])
  {
    assert Reaches(g, root, root, 0);
  }

  lemma SweepEnd(g: Graph, root: Key, visited: set<Key>, done: set<Key>, seen: set<Key>)
    requires SweepInvariant(g, root, visited, done, seen, [])
    ensures root in done && done <= g.credits && done !! visited && Closed(g, done)
    ensures forall b :: b in done ==> Connected(g, root, b)
  {
    assert forall b :: b in seen ==> b in done;
    assert done == seen;
  }

  lemma SweepShrinks(g: Graph, root: Key, visited: set<Key>, done: set<Key>, seen: set<Key>, seen': set<Key>,
                     queue: seq<Key>)
    requires SweepInvariant(g, root, visited, done, seen', queue) && seen <= seen'
    ensures seen == seen' || g.credits - seen' < g.credits - seen
  {
    if seen != seen' {
      assert seen' - seen != {} by {
        assert seen' == seen + (seen' - seen);
      }
      var x := AnyOf(seen' - seen);
      assert x in g.credits - seen && x !in g.credits - seen';
    }
  }

  /** The component of `root`, given the closed set of credits visited before. */
  method Sweep(g: Graph, root: Key, visited: set<Key>) returns (comp: set<Key>)
    requires root in g.credits && root !in visited && Closed(g, visited)
    ensures root in comp && comp <= g.credits && comp !! visited && Closed(g, comp)
    ensures forall b :: b in comp ==> Connected(g, root, b)
  {
    hide SweepInvariant, Closed, Linked, Connected, Neighbours;
    comp := {};
    var seen, queue := {root}, [root];
    SweepStart(g, root, visited);
    while queue != []
      invariant SweepInvariant(g, root, visited, comp, seen, queue)
      decreases g.credits - seen, |queue|
    {
      var curr := queue[0];
      ghost var seen0, queue0, comp0 := seen, queue, comp;
      seen, queue := Enqueue(Neighbours(g, curr), seen, queue[1..]);
      comp := comp + {curr};
      SweepStep(g, root, visited, comp0, seen0, queue0, seen, queue);
      SweepShrinks(g, root, visited, comp, seen0, seen, queue);
    }
    SweepEnd(g, root, visited, comp, seen);
  }

  ghost predicate IsComponent(g: Graph, comp: set<Key>) {
    && comp != {} && comp <= g.credits && Closed(g, comp)
    && exists root :: root in comp && forall b :: b in comp ==> Connected(g, root, b)
  }

  ghost predicate Disjoint(a: set<Key>, b: set<Key>) {
    a !! b
  }

  /** What `components` promises: they partition the credits, no link leaves one, each is connected. */
  ghost predicate ArePartition(g: Graph, comps: seq<set<Key>>) {
    && (forall c :: c in comps ==> IsComponent(g, c))
    && Pairwise(comps, Disjoint)
    && (forall k :: k in g.credits ==> exists c :: c in comps && k in c)
  }

  /** Smaller components first, then by least credit. */
  predicate ComponentOrder(a: set<Key>, b: set<Key>) {
    |a| < |b| || (|a| == |b| && (a == {} || (b != {} && MinKey(a) <= MinKey(b))))
  }

  lemma PartitionAppend(g: Graph, comps: seq<set<Key>>, visited: set<Key>, comp: set<Key>)
    requires Pairwise(comps, Disjoint) && comp !! visited
    requires forall c :: c in comps ==> IsComponent(g, c) && c <= visited
    requires IsComponent(g, comp)
    ensures Pairwise(comps + [comp], Disjoint)
    ensures forall c :: c in comps + [comp] ==> IsComponent(g, c) && c <= visited + comp
  {
    assert forall i :: 0 <= i < |comps| ==> comps[i] in comps;
  }

  /** What the sweep over the credits keeps: components so far, and every visited credit in one. */
  ghost predicate Partial(g: Graph, comps: seq<set<Key>>, visited: set<Key>) {
    && visited <= g.credits && Closed(g, visited) && Pairwise(comps, Disjoint)
    && (forall c :: c in comps ==> IsComponent(g, c) && c <= visited)
    && (forall k :: k in visited ==> exists c :: c in comps && k in c)
  }

  lemma PartialStart(g: Graph)
    ensures Partial(g, [], {})
  {
  }

  lemma PartialStep(g: Graph, comps: seq<set<Key>>, visited: set<Key>, comp: set<Key>)
    requires Partial(g, comps, visited) && comp !! visited && IsComponent(g, comp) && Closed(g, visited + comp)
    ensures Partial(g, comps + [comp], visited + comp)
  {
    hide IsComponent, Closed, Pairwise;
    PartitionAppend(g, comps, visited, comp);
    ComponentInside(g, comp);
    forall k | k in visited + comp
      ensures exists c :: c in comps + [comp] && k in c
    {
      if k in visited {
        var c :| c in comps && k in c;
        assert c in comps + [comp];
      } else {
        assert comp in comps + [comp];
      }
    }
  }

  lemma ComponentInside(g: Graph, comp: set<Key>)
    requires IsComponent(g, comp)
    ensures comp <= g.credits
  {
  }

  lemma PartialEnd(g: Graph, comps: seq<set<Key>>, visited: set<Key>)
    requires Partial(g, comps, visited) && g.credits <= visited
    ensures ArePartition(g, Sort(comps, ComponentOrder))
  {
    hide IsComponent, Closed, Sort;
    SortMembers(comps, ComponentOrder);
    SortPairwise(comps, ComponentOrder, Disjoint);
    forall k | k in g.credits
      ensures exists c :: c in Sort(comps, ComponentOrder) && k in c
    {
      var c :| c in comps && k in c;
    }
  }

  method FindComponents(g: Graph) returns (comps: seq<set<Key>>)
    ensures ArePartition(g, comps)
    ensures SortedBy(comps, ComponentOrder)
  {
    hide Partial, IsComponent, ArePartition, ComponentOrder, Sort, SortedBy, Closed;
    var visited: set<Key> := {};
    var open := g.credits;
    comps := [];
    PartialStart(g);
    while open != {}
      invariant open <= g.credits && g.credits - open <= visited && Partial(g, comps, visited)
      decreases open
    {
      var k := MinKey(open);
      if k !in visited {
        PartialFacts(g, comps, visited);
        var comp := Sweep(g, k, visited);
        SweepIsComponent(g, k, visited, comp);
        PartialStep(g, comps, visited, comp);
        comps := comps + [comp];
        visited := visited + comp;
      }
      open := open - {k};
    }
    PartialEnd(g, comps, visited);
    OrderIsTotal();
    SortSorted(comps, ComponentOrder);
    comps := Sort(comps, ComponentOrder);
  }

  lemma SweepIsComponent(g: Graph, root: Key, visited: set<Key>, comp: set<Key>)
    requires root in comp && comp <= g.credits && Closed(g, comp) && Closed(g, visited)
    requires forall b :: b in comp ==> Connected(g, root, b)
    ensures IsComponent(g, comp) && Closed(g, visited + comp)
  {
    hide Connected, Linked;
  }

  lemma PartialFacts(g: Graph, comps: seq<set<Key>>, visited: set<Key>)
    requires Partial(g, comps, visited)
    ensures visited <= g.credits && Closed(g, visited)
  {
  }

  lemma OrderIsTotal()
    ensures TotalPreorder(ComponentOrder)
  {
  }
}
