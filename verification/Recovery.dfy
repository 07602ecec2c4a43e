/** The recovery plan: unresolved lines grouped into actions, export windows merged, ranked and capped. */
module Recovery {
  import opened Sequences

  const SPLIT_DATE_WINDOW := 5

  datatype Kind = ClassifyCounterparty | ConfirmUtrWithBank | ExportSettlementReport | ProvideSettlementIds

  /** What the blocking reason of a line asks for; the parameters of other actions are an opaque value. */
  datatype Want = Export | Ask(kind: Kind, params: int)

  /** A bank line; `unresolved` when it has an exception, abstained or has no rail. */
  datatype Open = Open(key: int, amount: int, day: int, want: Want, unresolved: bool)

  ghost predicate DistinctKeys(lines: seq<Open>) {
    forall i, j :: 0 <= i < j < |lines| ==> lines[i].key != lines[j].key
  }

  predicate IsOpen(x: Open) { x.unresolved }

  predicate IsExport(x: Open) { x.want.Export? }

  predicate IsAsk(x: Open) { x.want.Ask? }

  ghost predicate AllExports(s: seq<Open>) {
    forall i :: 0 <= i < |s| ==> s[i].want == Export
  }

  ghost predicate AllAsks(s: seq<Open>) {
    forall i :: 0 <= i < |s| ==> s[i].want.Ask?
  }

  function Recoverable(x: Open): int { if x.amount > 0 then x.amount else 0 }

  function Exposure(x: Open): int { if x.amount < 0 then -x.amount else 0 }

  /** Lines served by one action; `from` and `to` are the export window's days. */
  datatype Group = Group(want: Want, from: int, to: int, items: seq<Open>)

  function ItemsOf(gs: seq<Group>): seq<Open> {
    if gs == [] then [] else ItemsOf(gs[..|gs| - 1]) + gs[|gs| - 1].items
  }

  lemma {:induction false} ItemsConcat(a: seq<Group>, b: seq<Group>)
    ensures ItemsOf(a + b) == ItemsOf(a) + ItemsOf(b)
  {
    hide ItemsOf;
    if b == [] {
      assert a + b == a;
      NoItems();
    } else {
      var front, last := b[..|b| - 1], b[|b| - 1];
      ItemsConcat(a, front);
      assert b == front + [last] && a + b == (a + front) + [last];
      ItemsLast(front, last);
      ItemsLast(a + front, last);
      Regroup(ItemsOf(a), ItemsOf(front), last.items);
    }
  }

  lemma ItemsLast(gs: seq<Group>, g: Group)
    ensures ItemsOf(gs + [g]) == ItemsOf(gs) + g.items
  {
    assert (gs + [g])[..|gs|] == gs;
  }

  lemma Regroup(a: seq<Open>, b: seq<Open>, c: seq<Open>)
    ensures (a + b) + c == a + (b + c)
  {
  }

  lemma ItemsOfOne(g: Group)
    ensures ItemsOf([g]) == g.items
  {
    assert [g][..0] == [];
  }

  // ----- Export windows

  predicate InItem(d: int, x: Open) {
    x.day - SPLIT_DATE_WINDOW <= d <= x.day + SPLIT_DATE_WINDOW
  }

  predicate InWindow(d: int, g: Group) { g.from <= d <= g.to }

  /** A window is exactly the days of its items, with no gap. */
  ghost predicate Tight(g: Group) {
    && g.from <= g.to && g.items != [] && g.want == Export
    && (forall i :: 0 <= i < |g.items| ==> g.items[i].want == Export)
    && forall d :: InWindow(d, g) <==> exists i :: 0 <= i < |g.items| && InItem(d, g.items[i])
  }

  /** Windows in order, each ending before the next begins. */
  ghost predicate Spaced(gs: seq<Group>) {
    forall i, j :: 0 <= i < j < |gs| ==> gs[i].to < gs[j].from
  }

  predicate ByDay(a: Open, b: Open) { a.day <= b.day }

  function Single(x: Open): Group {
    Group(Export, x.day - SPLIT_DATE_WINDOW, x.day + SPLIT_DATE_WINDOW, [x])
  }

  lemma SingleIsTight(x: Open)
    requires x.want == Export
    ensures Tight(Single(x))
  {
    forall d | InWindow(d, Single(x))
      ensures InItem(d, Single(x).items[0])
    {
    }
  }

  function Joined(g: Group, x: Open): Group {
    g.(to := if x.day + SPLIT_DATE_WINDOW > g.to then x.day + SPLIT_DATE_WINDOW else g.to, items := g.items + [x])
  }

  lemma JoinedIsTight(g: Group, x: Open)
    requires Tight(g) && x.want == Export && g.from <= x.day - SPLIT_DATE_WINDOW <= g.to
    ensures Tight(Joined(g, x))
  {
    var h := Joined(g, x);
    forall d
      ensures InWindow(d, h) <==> exists i :: 0 <= i < |h.items| && InItem(d, h.items[i])
    {
      if InWindow(d, g) {
        var i :| 0 <= i < |g.items| && InItem(d, g.items[i]);
        assert InItem(d, h.items[i]);
      } else if InItem(d, x) {
        assert InItem(d, h.items[|g.items|]);
      }
      if i :| 0 <= i < |h.items| && InItem(d, h.items[i]) {
        assert i < |g.items| ==> InItem(d, g.items[i]);
      }
    }
  }

  /** What the merge keeps: `done` is merged, and the last window begins no later than the last item. */
  ghost predicate Merged(gs: seq<Group>, done: seq<Open>) {
    && Spaced(gs) && (forall i :: 0 <= i < |gs| ==> Tight(gs[i])) && ItemsOf(gs) == done
    && (done != [] ==> gs != [] && gs[|gs| - 1].from <= done[|done| - 1].day - SPLIT_DATE_WINDOW)
  }

  lemma MergeJoins(gs: seq<Group>, done: seq<Open>, x: Open)
    requires Merged(gs, done) && gs != [] && x.want == Export && (done != [] ==> done[|done| - 1].day <= x.day)
    requires gs[|gs| - 1].to >= x.day - SPLIT_DATE_WINDOW
    ensures Merged(gs[|gs| - 1 := Joined(gs[|gs| - 1], x)], done + [x])
  {
    hide Tight, ItemsOf;
    var front, last := gs[..|gs| - 1], gs[|gs| - 1];
    SplitLast(gs);
    SomeDone(gs);
    JoinedIsTight(last, x);
    ItemsJoin(front, last, x);
    assert gs[|gs| - 1 := Joined(last, x)] == front + [Joined(last, x)];
  }

  lemma MergeAppends(gs: seq<Group>, done: seq<Open>, x: Open)
    requires Merged(gs, done) && x.want == Export && (gs != [] ==> gs[|gs| - 1].to < x.day - SPLIT_DATE_WINDOW)
    ensures Merged(gs + [Single(x)], done + [x])
  {
    hide Tight, ItemsOf;
    SingleIsTight(x);
    ItemsConcat(gs, [Single(x)]);
    ItemsOfOne(Single(x));
    SpacedAdd(gs, Single(x));
  }

  lemma SomeDone(gs: seq<Group>)
    requires gs != [] && forall i :: 0 <= i < |gs| ==> Tight(gs[i])
    ensures ItemsOf(gs) != []
  {
    assert Tight(gs[|gs| - 1]);
  }

  /** The sorted export items, merged in place where windows overlap. */
  method MergeWindows(sorted: seq<Open>) returns (gs: seq<Group>)
    requires SortedBy(sorted, ByDay) && AllExports(sorted)
    ensures Spaced(gs) && (forall i :: 0 <= i < |gs| ==> Tight(gs[i])) && ItemsOf(gs) == sorted
  {
    hide Tight, ItemsOf, Spaced, Joined, Single;
    gs := [];
    NothingMerged();
    for n := 0 to |sorted|
      invariant Merged(gs, sorted[..n])
    {
      var x := sorted[n];
      assert sorted[..n + 1] == sorted[..n] + [x];
      assert n > 0 ==> ByDay(sorted[n - 1], x);
      var last := |gs| - 1;
      if gs != [] && gs[last].to >= x.day - SPLIT_DATE_WINDOW {
        MergeJoins(gs, sorted[..n], x);
        gs := gs[last := Joined(gs[last], x)];
      } else {
        MergeAppends(gs, sorted[..n], x);
        gs := gs + [Single(x)];
      }
    }
    assert sorted[..|sorted|] == sorted;
  }

  lemma NothingMerged()
    ensures Merged([], [])
  {
  }

  lemma NoItems()
    ensures ItemsOf([]) == []
  {
  }

  lemma SplitLast(gs: seq<Group>)
    ensures gs != [] ==> gs == gs[..|gs| - 1] + [gs[|gs| - 1]]
  {
  }

  lemma ItemsJoin(front: seq<Group>, last: Group, x: Open)
    ensures ItemsOf(front + [Joined(last, x)]) == ItemsOf(front + [last]) + [x]
  {
    ItemsConcat(front, [last]);
    ItemsConcat(front, [Joined(last, x)]);
    ItemsOfOne(last);
    ItemsOfOne(Joined(last, x));
  }

  lemma SpacedAdd(gs: seq<Group>, g: Group)
    requires Spaced(gs) && (forall i :: 0 <= i < |gs| ==> Tight(gs[i]))
    requires gs != [] ==> gs[|gs| - 1].to < g.from
    ensures Spaced(gs + [g])
  {
    forall i | 0 <= i < |gs|
      ensures gs[i].to < g.from
    {
      if i < |gs| - 1 {
        assert gs[i].to < gs[|gs| - 1].from;
        assert Tight(gs[|gs| - 1]);
      }
    }
  }

  lemma {:induction false} ItemsMember(gs: seq<Group>, x: Open)
    ensures x in ItemsOf(gs) <==> exists i :: 0 <= i < |gs| && x in gs[i].items
  {
    if gs != [] {
      ItemsMember(gs[..|gs| - 1], x);
    }
  }

  /** The merged windows are pairwise disjoint and cover exactly the union of the items' windows. */
  lemma WindowsCoverExactly(gs: seq<Group>, d: int)
    requires Spaced(gs) && forall i :: 0 <= i < |gs| ==> Tight(gs[i])
    ensures (exists i :: 0 <= i < |gs| && InWindow(d, gs[i])) <==> exists x :: x in ItemsOf(gs) && InItem(d, x)
    ensures forall i, j :: 0 <= i < j < |gs| ==> !(InWindow(d, gs[i]) && InWindow(d, gs[j]))
  {
    hide ItemsOf, InItem;
    if i :| 0 <= i < |gs| && InWindow(d, gs[i]) {
      assert Tight(gs[i]);
      var q :| 0 <= q < |gs[i].items| && InItem(d, gs[i].items[q]);
      ItemsMember(gs, gs[i].items[q]);
    }
    if x :| x in ItemsOf(gs) && InItem(d, x) {
      ItemsMember(gs, x);
      var i :| 0 <= i < |gs| && x in gs[i].items;
      var q :| 0 <= q < |gs[i].items| && gs[i].items[q] == x;
      assert Tight(gs[i]) && InWindow(d, gs[i]);
    }
  }

  // ----- Other actions

  ghost predicate SameWant(g: Group) {
    g.items != [] && g.want.Ask? && forall x :: x in g.items ==> x.want == g.want
  }

  ghost predicate OnePerWant(gs: seq<Group>) {
    forall i, j :: 0 <= i < j < |gs| ==> gs[i].want != gs[j].want
  }

  function Position(gs: seq<Group>, w: Want): (i: nat)
    ensures i <= |gs| && (i < |gs| ==> gs[i].want == w) && forall j :: 0 <= j < i ==> gs[j].want != w
  {
    if gs == [] then 0 else if gs[0].want == w then 0 else 1 + Position(gs[1..], w)
  }

  lemma ItemsUpdate(gs: seq<Group>, i: nat, x: Open)
    requires i < |gs|
    ensures multiset(ItemsOf(gs[i := gs[i].(items := gs[i].items + [x])])) == multiset(ItemsOf(gs)) + multiset{x}
  {
    hide ItemsOf;
    var g := gs[i];
    var h := g.(items := g.items + [x]);
    assert gs == gs[..i] + ([g] + gs[i + 1..]) && gs[i := h] == gs[..i] + ([h] + gs[i + 1..]);
    ItemsConcat(gs[..i], [g] + gs[i + 1..]);
    ItemsConcat(gs[..i], [h] + gs[i + 1..]);
    ItemsConcat([g], gs[i + 1..]);
    ItemsConcat([h], gs[i + 1..]);
    ItemsOfOne(g);
    ItemsOfOne(h);
  }

  /** The group at the line's want, or a new one at the end. */
  function Placed(gs: seq<Group>, x: Open): seq<Group> {
    var i := Position(gs, x.want);
    if i < |gs| then gs[i := gs[i].(items := gs[i].items + [x])] else gs + [Group(x.want, 0, 0, [x])]
  }

  ghost predicate AskGroups(gs: seq<Group>) {
    OnePerWant(gs) && forall i :: 0 <= i < |gs| ==> SameWant(gs[i])
  }

  lemma PlacedKeeps(gs: seq<Group>, x: Open)
    requires AskGroups(gs) && x.want.Ask?
    ensures AskGroups(Placed(gs, x)) && multiset(ItemsOf(Placed(gs, x))) == multiset(ItemsOf(gs)) + multiset{x}
  {
    hide ItemsOf;
    var i := Position(gs, x.want);
    if i < |gs| {
      ItemsUpdate(gs, i, x);
      assert SameWant(gs[i]);
    } else {
      ItemsConcat(gs, [Group(x.want, 0, 0, [x])]);
      ItemsOfOne(Group(x.want, 0, 0, [x]));
    }
  }

  /** Lines that ask for the same thing form one group, in first-seen order. */
  method GroupAsks(asks: seq<Open>) returns (gs: seq<Group>)
    requires AllAsks(asks)
    ensures multiset(ItemsOf(gs)) == multiset(asks) && AskGroups(gs)
  {
    hide ItemsOf, AskGroups, Placed;
    gs := [];
    NoGroups();
    for n := 0 to |asks|
      invariant multiset(ItemsOf(gs)) == multiset(asks[..n]) && AskGroups(gs)
    {
      assert asks[..n + 1] == asks[..n] + [asks[n]];
      PlacedKeeps(gs, asks[n]);
      gs := Placed(gs, asks[n]);
    }
    assert asks[..|asks|] == asks;
  }

  lemma NoGroups()
    ensures AskGroups([]) && ItemsOf([]) == []
  {
  }

  // ----- Actions

  function KindOf(w: Want): Kind {
    if w.Export? then ExportSettlementReport else w.kind
  }

  function Cost(k: Kind): (c: real)
    ensures c > 0.0
  {
    match k
    case ExportSettlementReport => 1.0
    case ConfirmUtrWithBank => 2.0
    case ProvideSettlementIds => 1.5
    case ClassifyCounterparty => 0.5
  }

  function KindRank(k: Kind): nat {
    match k
    case ClassifyCounterparty => 0
    case ConfirmUtrWithBank => 1
    case ExportSettlementReport => 2
    case ProvideSettlementIds => 3
  }

  datatype Action = Action(group: Group, recoverable: int, exposure: int, gain: real)

  function ActionOf(g: Group): Action {
    var rec := SumBy(g.items, Recoverable);
    Action(g, rec, SumBy(g.items, Exposure), rec as real / Cost(KindOf(g.want)))
  }

  function LeastKey(items: seq<Open>): int {
    if items == [] then 0
    else if |items| == 1 then items[0].key
    else
      var k := LeastKey(items[1..]);
      if items[0].key < k then items[0].key else k
  }

  /** Gain per cost, then recoverable amount, then the action's name, then the keys it resolves; two
      actions share no key, so their sorted keys compare by the least. */
  predicate Outranks(a: Action, b: Action) {
    || a.gain > b.gain
    || (a.gain == b.gain
        && (|| a.recoverable > b.recoverable
            || (a.recoverable == b.recoverable
                && (|| KindRank(KindOf(a.group.want)) < KindRank(KindOf(b.group.want))
                    || (KindOf(a.group.want) == KindOf(b.group.want)
                        && LeastKey(a.group.items) <= LeastKey(b.group.items))))))
  }

  lemma OutranksIsTotal()
    ensures TotalPreorder(Outranks)
  {
    hide LeastKey;
    forall a, b
      ensures Outranks(a, b) || Outranks(b, a)
    {
    }
  }

  function ActionsOf(gs: seq<Group>): (r: seq<Action>)
    ensures |r| == |gs| && forall i :: 0 <= i < |r| ==> r[i] == ActionOf(gs[i])
  {
    seq(|gs|, i requires 0 <= i < |gs| => ActionOf(gs[i]))
  }

  function GroupsOf(actions: seq<Action>): (r: seq<Group>)
    ensures |r| == |actions| && forall i :: 0 <= i < |r| ==> r[i] == actions[i].group
  {
    seq(|actions|, i requires 0 <= i < |actions| => actions[i].group)
  }

  function LinesOf(actions: seq<Action>): seq<Open> {
    ItemsOf(GroupsOf(actions))
  }

  lemma LinesDrop(actions: seq<Action>, i: nat)
    requires i < |actions|
    ensures multiset(LinesOf(actions)) == multiset(actions[i].group.items) + multiset(LinesOf(Drop(actions, i)))
  {
    hide ItemsOf;
    var gs := GroupsOf(actions);
    SplitAt(gs, i);
    ItemsConcat(gs[..i], [gs[i]] + gs[i + 1..]);
    ItemsConcat([gs[i]], gs[i + 1..]);
    ItemsConcat(gs[..i], gs[i + 1..]);
    ItemsOfOne(gs[i]);
    assert GroupsOf(Drop(actions, i)) == gs[..i] + gs[i + 1..];
  }

  /** Ranking moves actions, not lines. */
  lemma {:induction false} LinesReordered(a: seq<Action>, b: seq<Action>)
    requires multiset(a) == multiset(b)
    ensures multiset(LinesOf(a)) == multiset(LinesOf(b))
    decreases |a|
  {
    hide LinesOf;
    if a == [] {
      assert |multiset(b)| == 0;
      assert b == [];
    } else {
      assert a[0] in multiset(b);
      var i :| 0 <= i < |b| && b[i] == a[0];
      DropMembers(a, 0);
      DropMembers(b, i);
      CancelMember(a[0], multiset(Drop(a, 0)), multiset(Drop(b, i)));
      LinesDrop(a, 0);
      LinesDrop(b, i);
      LinesReordered(Drop(a, 0), Drop(b, i));
    }
  }

  ghost predicate Priced(actions: seq<Action>) {
    forall i :: 0 <= i < |actions| ==> actions[i] == ActionOf(actions[i].group)
  }

  lemma {:induction false} ActionSums(actions: seq<Action>)
    requires Priced(actions)
    ensures SumBy(actions, (a: Action) => a.recoverable) == SumBy(LinesOf(actions), Recoverable)
    ensures SumBy(actions, (a: Action) => a.exposure) == SumBy(LinesOf(actions), Exposure)
  {
    if actions != [] {
      hide Recoverable, Exposure;
      var n := |actions| - 1;
      var front, last := actions[..n], actions[n];
      assert Priced(front);
      ActionSums(front);
      assert GroupsOf(actions)[..n] == GroupsOf(front);
      assert LinesOf(actions) == LinesOf(front) + last.group.items;
      SumByConcat(LinesOf(front), last.group.items, Recoverable);
      SumByConcat(LinesOf(front), last.group.items, Exposure);
    }
  }

  // ----- The capped plan counts each line once

  lemma {:induction false} DistinctCount(lines: seq<Open>, x: Open)
    requires DistinctKeys(lines)
    ensures multiset(lines)[x] <= 1
  {
    if lines != [] {
      var front, last := lines[..|lines| - 1], lines[|lines| - 1];
      assert lines == front + [last];
      DistinctCount(front, x);
      assert x in front ==> x != last;
    }
  }

  lemma SameKeySameLine(lines: seq<Open>, x: Open, y: Open)
    requires DistinctKeys(lines) && x in lines && y in lines && x.key == y.key
    ensures x == y
  {
    var i :| 0 <= i < |lines| && lines[i] == x;
    var j :| 0 <= j < |lines| && lines[j] == y;
    assert i == j;
  }

  predicate Actioned(kept: seq<Open>, x: Open) {
    exists i :: 0 <= i < |kept| && kept[i].key == x.key
  }

  /** Lines whose key some kept action resolves are exactly the lines of the kept actions. */
  lemma ActionedSum(open: seq<Open>, kept: seq<Open>, dropped: seq<Open>)
    requires DistinctKeys(open) && multiset(open) == multiset(kept) + multiset(dropped)
    ensures SumBy(Filter(open, (x: Open) => Actioned(kept, x)), Recoverable) == SumBy(kept, Recoverable)
  {
    hide Filter, SumBy, Recoverable;
    var keep := (x: Open) => Actioned(kept, x);
    var all := kept + dropped;
    FilterReordered(open, all, keep);
    SumByMembers(Filter(open, keep), Filter(all, keep), Recoverable);
    FilterConcat(kept, dropped, keep);
    forall x | x in kept
      ensures keep(x)
    {
      var i :| 0 <= i < |kept| && kept[i] == x;
    }
    forall x | x in dropped
      ensures !keep(x)
    {
      if Actioned(kept, x) {
        var i :| 0 <= i < |kept| && kept[i].key == x.key;
        assert kept[i] in multiset(kept) && x in multiset(dropped);
        assert kept[i] in multiset(open) && x in multiset(open);
        SameKeySameLine(open, kept[i], x);
        DistinctCount(open, x);
      }
    }
    FilterAll(kept, keep);
    FilterNone(dropped, keep);
    assert kept + [] == kept;
  }

  // ----- The plan

  datatype Plan = Plan(actions: seq<Action>, count: nat, net: int, credit: int, debit: int, recoverableIfActioned: int,
                       capped: bool)

  /** Every export action's window is tight and apart from the others; every other action is the only one
      of its kind and parameters. */
  ghost predicate WellGrouped(actions: seq<Action>) {
    && (forall a :: a in actions ==> Tight(a.group) || SameWant(a.group))
    && (forall i, j :: 0 <= i < |actions| && 0 <= j < |actions| && i != j ==>
          Separate(actions[i].group, actions[j].group))
  }

  predicate Separate(g: Group, h: Group) {
    if g.want.Export? && h.want.Export? then g.to < h.from || h.to < g.from else g.want != h.want
  }

  lemma JoinedGroups(exports: seq<Group>, asks: seq<Group>)
    requires Spaced(exports) && (forall i :: 0 <= i < |exports| ==> Tight(exports[i]))
    requires AskGroups(asks)
    ensures var actions := ActionsOf(exports + asks);
            && Priced(actions) && (forall a :: a in actions ==> Tight(a.group) || SameWant(a.group))
            && Pairwise(actions, (a: Action, b: Action) => Separate(a.group, b.group))
  {
    hide ActionOf;
    var gs := exports + asks;
    forall i | 0 <= i < |gs|
      ensures Tight(gs[i]) || SameWant(gs[i])
      ensures i < |exports| ==> gs[i].want.Export?
      ensures i >= |exports| ==> gs[i].want.Ask?
      ensures ActionOf(gs[i]).group == gs[i]
    {
      GroupKept(gs[i]);
      assert i < |exports| ==> gs[i] == exports[i] && Tight(exports[i]);
      assert i >= |exports| ==> gs[i] == asks[i - |exports|] && SameWant(asks[i - |exports|]);
    }
    forall i, j | 0 <= i < j < |gs|
      ensures Separate(gs[i], gs[j])
    {
      assert j < |exports| ==> exports[i].to < exports[j].from;
      assert i >= |exports| ==> asks[i - |exports|].want != asks[j - |exports|].want;
    }
  }

  lemma GroupKept(g: Group)
    ensures ActionOf(g).group == g
  {
  }

  /** What an action is worth: the money it may bring back, per unit of its cost. */
  predicate IsWorth(a: Action) {
    && a.recoverable == SumBy(a.group.items, (x: Open) => if x.amount > 0 then x.amount else 0)
    && a.exposure == SumBy(a.group.items, (x: Open) => if x.amount < 0 then -x.amount else 0)
    && (a.group.want.Export? ==> a.gain == a.recoverable as real)
    && (a.group.want.Ask? ==>
          && (a.group.want.kind == ExportSettlementReport ==> a.gain == a.recoverable as real)
          && (a.group.want.kind == ConfirmUtrWithBank ==> a.gain * 2.0 == a.recoverable as real)
          && (a.group.want.kind == ProvideSettlementIds ==> a.gain * 1.5 == a.recoverable as real)
          && (a.group.want.kind == ClassifyCounterparty ==> a.gain * 0.5 == a.recoverable as real))
  }

  lemma PricedIsWorth(actions: seq<Action>)
    requires Priced(actions)
    ensures forall a :: a in actions ==> IsWorth(a)
  {
    forall a | a in actions
      ensures IsWorth(a)
    {
      var i :| 0 <= i < |actions| && actions[i] == a;
      SumBySame(a.group.items, Recoverable, (x: Open) => if x.amount > 0 then x.amount else 0);
      SumBySame(a.group.items, Exposure, (x: Open) => if x.amount < 0 then -x.amount else 0);
    }
  }

  /** More worth first; then more money; then the action's name. */
  ghost predicate MostWorthFirst(ranked: seq<Action>) {
    forall i, j :: 0 <= i < j < |ranked| ==>
      && ranked[i].gain >= ranked[j].gain
      && (ranked[i].gain == ranked[j].gain ==> ranked[i].recoverable >= ranked[j].recoverable)
      && (ranked[i].gain == ranked[j].gain && ranked[i].recoverable == ranked[j].recoverable ==>
            KindRank(KindOf(ranked[i].group.want)) <= KindRank(KindOf(ranked[j].group.want)))
  }

  lemma SortedIsMostWorthFirst(ranked: seq<Action>)
    requires SortedBy(ranked, Outranks)
    ensures MostWorthFirst(ranked)
  {
    hide LeastKey;
    forall i, j | 0 <= i < j < |ranked|
      ensures Outranks(ranked[i], ranked[j])
    {
    }
  }

  /** `build_recovery_plan`; `ranked` is the plan before the cap. */
  method BuildPlan(lines: seq<Open>, maxActions: nat) returns (plan: Plan, ranked: seq<Action>)
    requires DistinctKeys(lines)
    ensures var open := Filter(lines, IsOpen);
            && multiset(LinesOf(ranked)) == multiset(open)
            && plan.count == |open| && plan.net == plan.credit - plan.debit
            && SumBy(ranked, (a: Action) => a.recoverable) == plan.credit == SumBy(open, Recoverable)
            && SumBy(ranked, (a: Action) => a.exposure) == plan.debit == SumBy(open, Exposure)
    ensures SortedBy(ranked, Outranks) && Priced(ranked) && WellGrouped(ranked)
    ensures MostWorthFirst(ranked) && forall a :: a in ranked ==> IsWorth(a)
    ensures plan.actions == Take(ranked, maxActions) && (plan.capped <==> |ranked| > maxActions)
    ensures plan.recoverableIfActioned == SumBy(plan.actions, (a: Action) => a.recoverable)
  {
    hide Filter, SumBy, Sort, ItemsOf, Tight, SameWant, Spaced, AskGroups, DistinctKeys, Outranks, ActionOf, Separate,
         MostWorthFirst, IsWorth;
    var open := Filter(lines, IsOpen);
    OpenIsDistinct(lines);
    var credit, debit, net := SumBy(open, Recoverable), SumBy(open, Exposure), SumBy(open, (x: Open) => x.amount);
    NetSplits(open);
    var exports := Sort(Filter(open, IsExport), ByDay);
    ByDaySorts(Filter(open, IsExport));
    ExportsSorted(open);
    var windows := MergeWindows(exports);
    FilteredAsks(open);
    var asks := GroupAsks(Filter(open, IsAsk));
    var actions := ActionsOf(windows + asks);
    JoinedGroups(windows, asks);
    ItemsConcat(windows, asks);
    AskOrExport(open);
    assert GroupsOf(actions) == windows + asks by {
      forall i | 0 <= i < |actions|
        ensures actions[i].group == (windows + asks)[i]
      {
        GroupKept((windows + asks)[i]);
      }
    }
    ranked := Sort(actions, Outranks);
    RankedFacts(actions);
    LinesReordered(ranked, actions);
    PricedIsWorth(ranked);
    SortedIsMostWorthFirst(ranked);
    ActionSums(ranked);
    SumByMembers(LinesOf(ranked), open, Recoverable);
    SumByMembers(LinesOf(ranked), open, Exposure);
    var kept := Take(ranked, maxActions);
    KeptAndDropped(ranked, maxActions);
    ghost var rest := ranked[|kept|..];
    ActionSums(kept);
    ActionedSum(open, LinesOf(kept), LinesOf(rest));
    var keptLines := LinesOf(kept);
    var actioned := SumBy(Filter(open, (x: Open) => Actioned(keptLines, x)), Recoverable);
    plan := Plan(kept, |open|, net, credit, debit, actioned, |ranked| > maxActions);
  }

  lemma OpenIsDistinct(lines: seq<Open>)
    requires DistinctKeys(lines)
    ensures DistinctKeys(Filter(lines, IsOpen))
  {
    var differ := (a: Open, b: Open) => a.key != b.key;
    assert Pairwise(lines, differ);
    FilterPairwise(lines, IsOpen, differ);
    assert Pairwise(Filter(lines, IsOpen), differ);
  }

  lemma {:induction false} NetSplits(open: seq<Open>)
    ensures SumBy(open, (x: Open) => x.amount) == SumBy(open, Recoverable) - SumBy(open, Exposure)
  {
    if open != [] {
      NetSplits(open[..|open| - 1]);
    }
  }

  lemma ByDaySorts(items: seq<Open>)
    ensures SortedBy(Sort(items, ByDay), ByDay) && multiset(Sort(items, ByDay)) == multiset(items)
  {
    assert TotalPreorder(ByDay);
    SortSorted(items, ByDay);
  }

  lemma ExportsSorted(open: seq<Open>)
    ensures AllExports(Sort(Filter(open, IsExport), ByDay))
  {
    hide Filter, Sort;
    var exports := Sort(Filter(open, IsExport), ByDay);
    SortMembers(Filter(open, IsExport), ByDay);
    assert forall i :: 0 <= i < |exports| ==> exports[i] in exports;
  }

  lemma FilteredAsks(open: seq<Open>)
    ensures AllAsks(Filter(open, IsAsk))
  {
    hide Filter;
    var asks := Filter(open, IsAsk);
    assert forall i :: 0 <= i < |asks| ==> asks[i] in asks;
  }

  lemma {:induction false} AskOrExport(open: seq<Open>)
    ensures multiset(open) == multiset(Filter(open, IsExport)) + multiset(Filter(open, IsAsk))
  {
    hide Filter;
    FilterUnfold(open, IsExport);
    FilterUnfold(open, IsAsk);
    if open != [] {
      AskOrExport(open[1..]);
      assert open == [open[0]] + open[1..];
      if open[0].want.Export? {
        assert Filter(open, IsAsk) == Filter(open[1..], IsAsk);
      } else {
        assert Filter(open, IsExport) == Filter(open[1..], IsExport);
      }
    }
  }

  /** Ranking keeps prices and separation. */
  lemma RankedFacts(actions: seq<Action>)
    requires Priced(actions) && (forall a :: a in actions ==> Tight(a.group) || SameWant(a.group))
    requires Pairwise(actions, (a: Action, b: Action) => Separate(a.group, b.group))
    ensures var ranked := Sort(actions, Outranks);
            SortedBy(ranked, Outranks) && Priced(ranked) && WellGrouped(ranked) && multiset(ranked) == multiset(actions)
  {
    hide Tight, SameWant, Outranks, ActionOf, Sort, TotalPreorder;
    var apart := (a: Action, b: Action) => Separate(a.group, b.group);
    OutranksIsTotal();
    SortSorted(actions, Outranks);
    SortMembers(actions, Outranks);
    SortPairwise(actions, Outranks, apart);
    var ranked := Sort(actions, Outranks);
    forall i | 0 <= i < |ranked|
      ensures ranked[i] == ActionOf(ranked[i].group)
    {
      assert ranked[i] in ranked;
      var j :| 0 <= j < |actions| && actions[j] == ranked[i];
    }
    forall i, j | 0 <= i < |ranked| && 0 <= j < |ranked| && i != j
      ensures Separate(ranked[i].group, ranked[j].group)
    {
      if i < j {
        assert apart(ranked[i], ranked[j]);
      } else {
        assert apart(ranked[j], ranked[i]);
      }
    }
  }

  lemma KeptAndDropped(ranked: seq<Action>, n: nat)
    requires Priced(ranked)
    ensures var kept := Take(ranked, n); var rest := ranked[|kept|..];
            Priced(kept) && multiset(LinesOf(ranked)) == multiset(LinesOf(kept)) + multiset(LinesOf(rest))
  {
    hide ItemsOf, ActionOf;
    var kept := Take(ranked, n);
    var rest := ranked[|kept|..];
    assert ranked == kept + rest;
    assert GroupsOf(ranked) == GroupsOf(kept) + GroupsOf(rest);
    ItemsConcat(GroupsOf(kept), GroupsOf(rest));
  }

  /** No action the cap drops outranks one it keeps. */
  lemma DroppedNeverOutranks(ranked: seq<Action>, n: nat, a: Action, b: Action)
    requires SortedBy(ranked, Outranks) && a in Take(ranked, n) && b in ranked[|Take(ranked, n)|..]
    ensures Outranks(a, b) && a.gain >= b.gain && (a.gain == b.gain ==> a.recoverable >= b.recoverable)
  {
    hide LeastKey;
    var k := |Take(ranked, n)|;
    var i :| 0 <= i < k && Take(ranked, n)[i] == a;
    var j :| 0 <= j < |ranked| - k && ranked[k..][j] == b;
    assert ranked[i] == a && ranked[k + j] == b;
  }

  lemma WindowHasItem(ranked: seq<Action>, a: Action, d: int)
    requires WellGrouped(ranked) && a in ranked && a.group.want.Export? && InWindow(d, a.group)
    ensures exists x :: x in LinesOf(ranked) && x.want.Export? && InItem(d, x)
  {
    hide InItem, ItemsOf, Separate, InWindow;
    assert Tight(a.group);
    var q :| 0 <= q < |a.group.items| && InItem(d, a.group.items[q]);
    var i :| 0 <= i < |ranked| && ranked[i] == a;
    assert GroupsOf(ranked)[i] == a.group;
    ItemsMember(GroupsOf(ranked), a.group.items[q]);
  }

  lemma ItemHasWindow(ranked: seq<Action>, x: Open, d: int)
    requires WellGrouped(ranked) && x in LinesOf(ranked) && x.want.Export? && InItem(d, x)
    ensures exists a :: a in ranked && a.group.want.Export? && InWindow(d, a.group)
  {
    hide InItem, ItemsOf, Separate;
    var gs := GroupsOf(ranked);
    ItemsMember(gs, x);
    var i :| 0 <= i < |gs| && x in gs[i].items;
    assert ranked[i] in ranked && Tight(gs[i]);
    var q :| 0 <= q < |gs[i].items| && gs[i].items[q] == x;
    assert InWindow(d, gs[i]);
  }

  /** The days the plan's exports cover are exactly the days its export lines need. */
  lemma PlanCoversExportWindows(ranked: seq<Action>, open: seq<Open>, d: int)
    requires WellGrouped(ranked) && multiset(LinesOf(ranked)) == multiset(open)
    ensures (exists a :: a in ranked && a.group.want.Export? && InWindow(d, a.group))
            <==> exists x :: x in open && x.want.Export? && InItem(d, x)
  {
    hide InItem, LinesOf, WellGrouped, InWindow;
    forall x
      ensures x in open <==> x in LinesOf(ranked)
    {
      assert x in multiset(open) <==> x in multiset(LinesOf(ranked));
    }
    if a :| a in ranked && a.group.want.Export? && InWindow(d, a.group) {
      WindowHasItem(ranked, a, d);
    }
    if x :| x in open && x.want.Export? && InItem(d, x) {
      ItemHasWindow(ranked, x, d);
    }
  }
}
