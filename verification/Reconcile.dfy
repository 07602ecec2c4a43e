/** Two-pass reconciliation of Razorpay credits against the settlement report. */
module Reconcile {
  import opened Options
  import opened Sequences
  import opened SubsetSearch
  import opened LegacySubsets
  import opened LegacyProperties
  import opened KeySets
  import opened SettlementGroups

  const DRIFT_TOLERANCE_PAISE := 100
  const SETSUM_MAX_TERMS := 5
  const SETSUM_MAX_CANDIDATES := 200
  const SETSUM_EXPANSION_MAX_CANDIDATES := 16
  const SETSUM_MAX_COMBINATIONS := 100000
  const DATE_WINDOW_DAYS := 5

  /** A bank credit, with the settlement references found in its text. */
  datatype Line = Line(key: int, amount: int, day: int, utrs: seq<string>)

  predicate WithinWindow(idx: Index, sid: int, line: Line) {
    sid in idx.date && -DATE_WINDOW_DAYS <= line.day - idx.date[sid] <= DATE_WINDOW_DAYS
  }

  /** The settlement whose reference appears in the credit: the first reference that is known. */
  function UtrSid(idx: Index, utrs: seq<string>): Option<int> {
    if utrs == [] then None
    else if utrs[0] in idx.utr then Some(idx.utr[utrs[0]])
    else UtrSid(idx, utrs[1..])
  }

  /** A credit points at the settlement of the first of its references that the report knows. */
  lemma {:induction false} FirstKnownReference(idx: Index, utrs: seq<string>, s: int)
    ensures UtrSid(idx, utrs) == Some(s)
            <==> exists i :: 0 <= i < |utrs| && utrs[i] in idx.utr && idx.utr[utrs[i]] == s
                             && forall j :: 0 <= j < i ==> utrs[j] !in idx.utr
  {
    if utrs != [] {
      FirstKnownReference(idx, utrs[1..], s);
      if utrs[0] !in idx.utr {
        if i :| 0 <= i < |utrs[1..]| && utrs[1..][i] in idx.utr && idx.utr[utrs[1..][i]] == s
                && forall j :: 0 <= j < i ==> utrs[1..][j] !in idx.utr {
          assert utrs[i + 1] == utrs[1..][i];
          assert forall j :: 0 < j < i + 1 ==> utrs[j] == utrs[1..][j - 1];
        }
        if i :| 0 <= i < |utrs| && utrs[i] in idx.utr && idx.utr[utrs[i]] == s
                && forall j :: 0 <= j < i ==> utrs[j] !in idx.utr {
          assert utrs[1..][i - 1] == utrs[i];
          assert forall j :: 0 <= j < i - 1 ==> utrs[1..][j] == utrs[j + 1];
        }
      }
    }
  }

  // ----- Choosing settlements by amount

  /** An unused settlement near the credit whose net is the whole amount. */
  predicate IsSingle(idx: Index, line: Line, used: set<int>, s: int) {
    s in idx.net && idx.net[s] == line.amount && s !in used && WithinWindow(idx, s, line)
  }

  function Singles(idx: Index, line: Line, used: set<int>): seq<int> {
    Filter(ByNet(idx, line.amount), (s: int) => s !in used && WithinWindow(idx, s, line))
  }

  /** An unused settlement near the credit that can be one term of a sum. */
  predicate IsTerm(idx: Index, line: Line, used: set<int>, s: int) {
    s in idx.net && s !in used && 0 < idx.net[s] < line.amount && WithinWindow(idx, s, line)
  }

  function Terms(idx: Index, line: Line, used: set<int>): seq<int> {
    Filter(idx.sids, (s: int) => IsTerm(idx, line, used, s))
  }

  function NetAt(idx: Index, s: int): int {
    if s in idx.net then idx.net[s] else 0
  }

  function ItemsOf(idx: Index, sids: seq<int>): (r: seq<Item>)
    ensures |r| == |sids| && forall i :: 0 <= i < |sids| ==> r[i] == Item(sids[i], NetAt(idx, sids[i]))
  {
    seq(|sids|, i requires 0 <= i < |sids| => Item(sids[i], NetAt(idx, sids[i])))
  }

  function SetSum(cands: seq<Item>, amount: int): Outcome {
    if |cands| <= SETSUM_EXPANSION_MAX_CANDIDATES then
      BoundedSubsets(cands, amount, 0, 1, SETSUM_MAX_TERMS, SETSUM_EXPANSION_MAX_CANDIDATES, SETSUM_MAX_COMBINATIONS, 2,
                     false)
    else LegacySubsetsOf(cands, amount, 2)
  }

  datatype Selection = Chosen(sids: seq<int>) | Nothing | Ambiguous | Unenumerable

  function AsSet(sids: seq<int>): set<int> {
    set s | s in sids
  }

  /** Keeps the first list of every settlement set not seen. */
  function KeepNew(lists: seq<seq<int>>, seen: set<set<int>>): (r: seq<seq<int>>)
    ensures forall l :: l in r ==> l in lists
  {
    if lists == [] then []
    else if AsSet(lists[0]) in seen then KeepNew(lists[1..], seen)
    else [lists[0]] + KeepNew(lists[1..], seen + {AsSet(lists[0])})
  }

  function Wrap(sids: seq<int>): (r: seq<seq<int>>)
    ensures |r| == |sids| && forall i :: 0 <= i < |sids| ==> r[i] == [sids[i]]
  {
    seq(|sids|, i requires 0 <= i < |sids| => [sids[i]])
  }

  /** The set-sum results, when the pool is small enough to search. */
  function SumLists(idx: Index, line: Line, used: set<int>): Outcome {
    var cands := ItemsOf(idx, Terms(idx, line, used));
    if cands == [] || |cands| > SETSUM_MAX_CANDIDATES then Found([]) else SetSum(cands, line.amount)
  }

  function Decide(lists: seq<seq<int>>): Selection {
    if |lists| > 1 then Ambiguous else if |lists| == 1 then Chosen(lists[0]) else Nothing
  }

  /** `amount_or_setsum_sids`: one settlement or one bounded sum, abstaining unless it is the only one. */
  function Select(idx: Index, line: Line, used: set<int>): Selection {
    var sums := SumLists(idx, line, used);
    if sums.Found? then Decide(KeepNew(Wrap(Singles(idx, line, used)) + sums.subsets, {}))
    else Unenumerable
  }

  function NetSum(idx: Index, sids: seq<int>): int {
    if sids == [] then 0 else NetAt(idx, sids[0]) + NetSum(idx, sids[1..])
  }

  lemma {:induction false} NetSumOfItems(idx: Index, t: seq<Item>)
    requires forall x :: x in t ==> x.value == NetAt(idx, x.id)
    ensures NetSum(idx, Ids(t)) == Total(t)
  {
    if t != [] {
      assert t[0] in t;
      NetSumOfItems(idx, t[1..]);
      assert Ids(t)[1..] == Ids(t[1..]);
    }
  }

  lemma TermsMember(idx: Index, line: Line, used: set<int>, s: int)
    requires NoRepeats(idx.sids) && forall x :: x in idx.sids <==> x in idx.net
    ensures s in Terms(idx, line, used) <==> IsTerm(idx, line, used, s)
    ensures NoRepeats(Terms(idx, line, used))
  {
    var differ := (a: int, b: int) => a != b;
    assert Pairwise(idx.sids, differ);
    FilterPairwise(idx.sids, (x: int) => IsTerm(idx, line, used, x), differ);
    assert Pairwise(Terms(idx, line, used), differ);
  }

  /** A settlement the selection may name for this credit. */
  predicate Usable(idx: Index, line: Line, used: set<int>, s: int) {
    s in idx.net && s !in used && WithinWindow(idx, s, line)
  }

  /** The candidates of the set-sum: distinct, positive, and each a usable term. */
  lemma CandidateFacts(idx: Index, line: Line, used: set<int>)
    requires NoRepeats(idx.sids) && forall x :: x in idx.sids <==> x in idx.net
    ensures var cands := ItemsOf(idx, Terms(idx, line, used));
            && DistinctIds(cands) && Positive(cands)
            && (forall x :: x in cands ==> IsTerm(idx, line, used, x.id) && x.value == NetAt(idx, x.id))
            && (forall s :: IsTerm(idx, line, used, s) ==> Item(s, NetAt(idx, s)) in cands)
  {
    hide IsTerm, Terms;
    var terms := Terms(idx, line, used);
    var cands := ItemsOf(idx, terms);
    TermsMember(idx, line, used, 0);
    forall x | x in cands
      ensures IsTerm(idx, line, used, x.id) && x.value == NetAt(idx, x.id) && x.value > 0
    {
      var i :| 0 <= i < |cands| && cands[i] == x;
      TermsMember(idx, line, used, terms[i]);
      TermIsPositive(idx, line, used, terms[i]);
    }
    forall s | IsTerm(idx, line, used, s)
      ensures Item(s, NetAt(idx, s)) in cands
    {
      TermsMember(idx, line, used, s);
      var i :| 0 <= i < |terms| && terms[i] == s;
      assert cands[i] == Item(s, NetAt(idx, s));
    }
  }

  lemma TermIsPositive(idx: Index, line: Line, used: set<int>, s: int)
    requires IsTerm(idx, line, used, s)
    ensures 0 < NetAt(idx, s) < line.amount
  {
  }

  /** What every list offered by the search is: tuples of candidates that sum to the amount exactly. */
  ghost predicate SumsExactly(cands: seq<Item>, amount: int, ids: seq<int>) {
    exists t :: ids == Ids(t) && t != [] && Total(t) == amount && forall x :: x in t ==> x in cands
  }

  lemma SetSumIsExact(cands: seq<Item>, amount: int)
    requires DistinctIds(cands) && Positive(cands) && amount > 0
    ensures SetSum(cands, amount).Found?
    ensures forall ids :: ids in SetSum(cands, amount).subsets ==> SumsExactly(cands, amount, ids)
  {
    if |cands| <= SETSUM_EXPANSION_MAX_CANDIDATES {
      BoundedIsExact(cands, amount);
    } else {
      LegacyIsExact(cands, amount);
    }
  }

  lemma BoundedIsExact(cands: seq<Item>, amount: int)
    requires DistinctIds(cands) && Positive(cands) && amount > 0 && |cands| <= SETSUM_EXPANSION_MAX_CANDIDATES
    ensures SetSum(cands, amount)
              == Searched(AllCombinations(cands, 1, SETSUM_MAX_TERMS), amount, 0, SETSUM_MAX_COMBINATIONS, 2)
    ensures SetSum(cands, amount).Found?
    ensures forall ids :: ids in SetSum(cands, amount).subsets ==> SumsExactly(cands, amount, ids)
  {
    hide AllCombinations, Hitting;
    var cs := AllCombinations(cands, 1, SETSUM_MAX_TERMS);
    NeverExhaustsAtEngineSizes(cands, amount, 0, 1, SETSUM_MAX_TERMS, SETSUM_MAX_COMBINATIONS, 2);
    var hits := Hitting(cs, amount, 0);
    forall ids | ids in SetSum(cands, amount).subsets
      ensures SumsExactly(cands, amount, ids)
    {
      var i :| 0 <= i < |hits| && ids == Ids(hits[i]);
      assert hits[i] in hits;
      VisitedIsSelection(cands, amount, 0, 1, SETSUM_MAX_TERMS, hits[i]);
    }
  }

  lemma LegacyIsExact(cands: seq<Item>, amount: int)
    requires DistinctIds(cands) && Positive(cands) && amount > 0
    ensures LegacySubsetsOf(cands, amount, 2).Found?
    ensures forall ids :: ids in LegacySubsetsOf(cands, amount, 2).subsets ==> SumsExactly(cands, amount, ids)
  {
    hide Visits, Fresh;
    var kept := Fresh(Visits(cands, amount), {});
    forall ids | ids in LegacySubsetsOf(cands, amount, 2).subsets
      ensures SumsExactly(cands, amount, ids)
    {
      var i :| 0 <= i < |kept| && ids == Ids(kept[i]);
      assert kept[i] in kept;
      VisitShape(cands, amount, kept[i]);
    }
  }

  /** A chosen list names unused settlements near the credit, and their nets sum to the amount. */
  lemma ChosenSumsExactly(rows: seq<ReconRow>, idx: Index, line: Line, used: set<int>)
    requires ValidIndex(rows, idx) && Select(idx, line, used).Chosen?
    ensures var sids := Select(idx, line, used).sids;
            sids != [] && NetSum(idx, sids) == line.amount && forall s :: s in sids ==> Usable(idx, line, used, s)
    ensures var sids := Select(idx, line, used).sids;
            |sids| > 1 ==> forall s :: s in sids ==> NetAt(idx, s) > 0
  {
    hide WithNet, Filter, SetSum, Groups, KeepNew, ItemsOf;
    IndexFacts(rows, idx);
    CandidateFacts(idx, line, used);
    var cands := ItemsOf(idx, Terms(idx, line, used));
    var sums, singles := SumLists(idx, line, used), Singles(idx, line, used);
    var lists := KeepNew(Wrap(singles) + sums.subsets, {});
    var sids := Select(idx, line, used).sids;
    assert sids == lists[0] && sids in lists;
    if sids in Wrap(singles) {
      var i :| 0 <= i < |singles| && sids == [singles[i]];
      assert singles[i] in singles;
      SingleFacts(rows, idx, line, used, singles[i]);
      NetSumOfOne(idx, singles[i]);
    } else {
      SetSumPositive(idx, line, used);
      SetSumIsExact(cands, line.amount);
      var t: seq<Item> :| sids == Ids(t) && t != [] && Total(t) == line.amount && forall x :: x in t ==> x in cands;
      NetSumOfItems(idx, t);
      forall s | s in sids
        ensures Usable(idx, line, used, s) && NetAt(idx, s) > 0
      {
        var i :| 0 <= i < |t| && s == t[i].id;
        assert t[i] in t;
      }
    }
  }

  lemma IndexFacts(rows: seq<ReconRow>, idx: Index)
    requires ValidIndex(rows, idx)
    ensures NoRepeats(idx.sids) && forall x :: x in idx.sids <==> x in idx.net
  {
  }

  lemma NetSumOfOne(idx: Index, s: int)
    ensures NetSum(idx, [s]) == NetAt(idx, s)
  {
    assert [s][1..] == [];
  }

  lemma IndexedByNet(rows: seq<ReconRow>, idx: Index, n: int)
    requires ValidIndex(rows, idx)
    ensures ByNet(idx, n) == WithNet(idx.sids, idx.net, n)
  {
  }

  lemma SingleFacts(rows: seq<ReconRow>, idx: Index, line: Line, used: set<int>, s: int)
    requires ValidIndex(rows, idx)
    ensures s in Singles(idx, line, used) <==> IsSingle(idx, line, used, s)
  {
    hide Groups;
    assert ByNet(idx, line.amount) == WithNet(idx.sids, idx.net, line.amount);
    IndexFacts(rows, idx);
  }

  /** A candidate exists only below a positive amount. */
  lemma SetSumPositive(idx: Index, line: Line, used: set<int>)
    requires NoRepeats(idx.sids) && (forall x :: x in idx.sids <==> x in idx.net)
    requires SumLists(idx, line, used).Found? && SumLists(idx, line, used).subsets != []
    ensures line.amount > 0
    ensures SumLists(idx, line, used) == SetSum(ItemsOf(idx, Terms(idx, line, used)), line.amount)
  {
    hide SetSum;
    CandidateFacts(idx, line, used);
    var cands := ItemsOf(idx, Terms(idx, line, used));
    assert cands[0] in cands;
  }

  // ----- The selection is the only one, and when it repeats a settlement

  lemma {:induction false} KeepNewCovers(lists: seq<seq<int>>, seen: set<set<int>>, l: seq<int>)
    requires l in lists && AsSet(l) !in seen
    ensures exists k :: k in KeepNew(lists, seen) && AsSet(k) == AsSet(l)
  {
    hide AsSet;
    if AsSet(lists[0]) == AsSet(l) {
      assert lists[0] in KeepNew(lists, seen);
    } else {
      assert l in lists[1..];
      if AsSet(lists[0]) in seen {
        KeepNewCovers(lists[1..], seen, l);
      } else {
        KeepNewCovers(lists[1..], seen + {AsSet(lists[0])}, l);
        var k :| k in KeepNew(lists[1..], seen + {AsSet(lists[0])}) && AsSet(k) == AsSet(l);
        assert k in KeepNew(lists, seen);
      }
    }
  }

  /** One list kept means that every list names the same settlements, and the first is the one kept. */
  lemma OneKept(lists: seq<seq<int>>, l: seq<int>)
    requires |KeepNew(lists, {})| == 1 && l in lists
    ensures KeepNew(lists, {})[0] == lists[0] && AsSet(l) == AsSet(lists[0])
  {
    hide AsSet;
    var kept := KeepNew(lists, {});
    assert kept[0] == lists[0];
    KeepNewCovers(lists, {}, l);
    assert kept == [kept[0]];
  }

  lemma IdsAsSet(t: seq<Item>)
    ensures AsSet(Ids(t)) == IdSet(t)
  {
    forall s | s in IdSet(t)
      ensures s in Ids(t)
    {
      var x :| x in t && x.id == s;
      var i :| 0 <= i < |t| && t[i] == x;
      assert Ids(t)[i] == s;
    }
    forall s | s in Ids(t)
      ensures s in IdSet(t)
    {
      var i :| 0 <= i < |t| && Ids(t)[i] == s;
      assert t[i] in t;
    }
  }

  /** Terms the search covers: five for a small pool, three otherwise. */
  function MaxTerms(cands: seq<Item>): nat {
    if |cands| <= SETSUM_EXPANSION_MAX_CANDIDATES then SETSUM_MAX_TERMS else 3
  }

  /** The tuples the search would list with no limit on results. */
  function Listed(cands: seq<Item>, amount: int): seq<seq<Item>> {
    if |cands| <= SETSUM_EXPANSION_MAX_CANDIDATES then Hitting(AllCombinations(cands, 1, SETSUM_MAX_TERMS), amount, 0)
    else Fresh(Visits(cands, amount), {})
  }

  lemma SetSumLists(cands: seq<Item>, amount: int)
    requires DistinctIds(cands) && Positive(cands) && amount > 0
    ensures SetSum(cands, amount) == Found(AllIds(Take(Listed(cands, amount), 2)))
    ensures Pairwise(Listed(cands, amount), KeysDiffer)
  {
    hide AllCombinations, Hits, Visits, IdSet;
    if |cands| <= SETSUM_EXPANSION_MAX_CANDIDATES {
      BoundedIsExact(cands, amount);
      AllKeysDiffer(cands, 1, SETSUM_MAX_TERMS);
      FilterPairwise(AllCombinations(cands, 1, SETSUM_MAX_TERMS), (c: seq<Item>) => Hits(c, amount, 0), KeysDiffer);
    } else {
      FreshKeysDiffer(Visits(cands, amount), {});
    }
  }

  lemma ListedCovers(cands: seq<Item>, amount: int, t: seq<Item>) returns (c: seq<Item>)
    requires DistinctIds(cands) && Positive(cands) && IsSelection(cands, amount, 0, 2, MaxTerms(cands), t)
    ensures c in Listed(cands, amount) && IdSet(c) == IdSet(t)
  {
    hide AllCombinations, Visits, Fresh, IdSet, Hitting;
    if |cands| <= SETSUM_EXPANSION_MAX_CANDIDATES {
      c := SelectionIsVisited(cands, amount, 0, 1, SETSUM_MAX_TERMS, t);
      SameMembersSameKeys(c, t);
    } else {
      LegacyMissesNothing(cands, amount, t);
      c :| c in Fresh(Visits(cands, amount), {}) && IdSet(c) == IdSet(t);
    }
  }

  /** The lists a choice was made from. */
  function Offers(idx: Index, line: Line, used: set<int>): seq<seq<int>> {
    Wrap(Singles(idx, line, used))
      + (if SumLists(idx, line, used).Found? then SumLists(idx, line, used).subsets else [])
  }

  /** The search ran: there are candidates and not too many. */
  predicate Searchable(cands: seq<Item>) {
    0 < |cands| <= SETSUM_MAX_CANDIDATES
  }

  lemma ChosenFromOffers(idx: Index, line: Line, used: set<int>, l: seq<int>)
    requires Select(idx, line, used).Chosen? && l in Offers(idx, line, used)
    ensures Select(idx, line, used).sids == Offers(idx, line, used)[0]
    ensures AsSet(l) == AsSet(Select(idx, line, used).sids)
  {
    hide AsSet, Singles, SumLists, KeepNew;
    OneKept(Offers(idx, line, used), l);
  }

  /** When a choice is made, the unlimited search lists at most one tuple. */
  lemma ChosenListsOne(idx: Index, line: Line, used: set<int>)
    requires NoRepeats(idx.sids) && (forall x :: x in idx.sids <==> x in idx.net)
    requires Select(idx, line, used).Chosen? && Searchable(ItemsOf(idx, Terms(idx, line, used)))
    ensures line.amount > 0
    ensures var listed := Listed(ItemsOf(idx, Terms(idx, line, used)), line.amount);
            && |listed| <= 1
            && Offers(idx, line, used) == Wrap(Singles(idx, line, used)) + AllIds(listed)
  {
    hide Listed, SetSum, Singles, Terms, KeepNew, AsSet;
    var cands := ItemsOf(idx, Terms(idx, line, used));
    CandidateFacts(idx, line, used);
    assert cands[0] in cands;
    SetSumLists(cands, line.amount);
    var listed := Listed(cands, line.amount);
    var offers, n := Offers(idx, line, used), |Singles(idx, line, used)|;
    assert offers == Wrap(Singles(idx, line, used)) + AllIds(Take(listed, 2));
    assert |listed| <= 1 by {
      if |listed| > 1 {
        assert KeysDiffer(listed[0], listed[1]);
        assert offers[n] == Ids(listed[0]) && offers[n + 1] == Ids(listed[1]);
        assert offers[n] in offers && offers[n + 1] in offers;
        ChosenFromOffers(idx, line, used, offers[n]);
        ChosenFromOffers(idx, line, used, offers[n + 1]);
        IdsAsSet(listed[0]);
        IdsAsSet(listed[1]);
      }
    }
  }

  /** When the search ran, any other sum within its term range uses the same settlements. */
  lemma ChosenIsTheOnlySum(rows: seq<ReconRow>, idx: Index, line: Line, used: set<int>, t: seq<Item>)
    requires ValidIndex(rows, idx) && Select(idx, line, used).Chosen?
    requires var cands := ItemsOf(idx, Terms(idx, line, used));
             Searchable(cands) && IsSelection(cands, line.amount, 0, 2, MaxTerms(cands), t)
    ensures AsSet(Select(idx, line, used).sids) == IdSet(t)
  {
    hide Listed, SetSum, Singles, Terms, KeepNew, AsSet, IdSet, Groups, Select, Offers, IsSelection;
    var cands := ItemsOf(idx, Terms(idx, line, used));
    IndexFacts(rows, idx);
    CandidateFacts(idx, line, used);
    ChosenListsOne(idx, line, used);
    var c := ListedCovers(cands, line.amount, t);
    var listed := Listed(cands, line.amount);
    assert listed == [c];
    var offers, n := Offers(idx, line, used), |Singles(idx, line, used)|;
    assert offers[n] == Ids(c) && offers[n] in offers;
    ChosenFromOffers(idx, line, used, Ids(c));
    IdsAsSet(c);
  }

  /** Nor is there another single settlement of that net. */
  lemma ChosenIsTheOnlySingle(rows: seq<ReconRow>, idx: Index, line: Line, used: set<int>, s: int)
    requires ValidIndex(rows, idx) && Select(idx, line, used).Chosen? && IsSingle(idx, line, used, s)
    ensures AsSet(Select(idx, line, used).sids) == {s}
  {
    hide SetSum, Singles, Terms, KeepNew, Groups, Select, SumLists;
    SingleFacts(rows, idx, line, used, s);
    var singles, offers := Singles(idx, line, used), Offers(idx, line, used);
    var i :| 0 <= i < |singles| && singles[i] == s;
    assert offers[i] == [s] && offers[i] in offers;
    ChosenFromOffers(idx, line, used, [s]);
    assert AsSet([s]) == {s};
  }

  /** A sum of two or more distinct candidates, however many terms it takes. */
  ghost predicate IsSum(cands: seq<Item>, amount: int, t: seq<Item>) {
    IsSelection(cands, amount, 0, 2, |t|, t)
  }

  /** Terms the search covers in the end: none when there are too many candidates to search. */
  function SearchedTerms(cands: seq<Item>): nat {
    if |cands| > SETSUM_MAX_CANDIDATES then 0 else MaxTerms(cands)
  }

  lemma AsSetSize(sids: seq<int>)
    ensures |AsSet(sids)| <= |sids|
  {
    if sids != [] {
      AsSetSize(sids[1..]);
      assert AsSet(sids) == {sids[0]} + AsSet(sids[1..]);
    }
  }

  lemma ListedTerms(cands: seq<Item>, amount: int, c: seq<Item>)
    requires DistinctIds(cands) && Positive(cands) && c in Listed(cands, amount)
    ensures |c| <= MaxTerms(cands)
  {
    hide AllCombinations, Hitting, Visits, Fresh;
    if |cands| <= SETSUM_EXPANSION_MAX_CANDIDATES {
      VisitedIsSelection(cands, amount, 0, 1, SETSUM_MAX_TERMS, c);
    } else {
      VisitShape(cands, amount, c);
    }
  }

  /** A chosen list names at most as many settlements as the search covers, or a single one. */
  lemma ChosenTerms(rows: seq<ReconRow>, idx: Index, line: Line, used: set<int>)
    requires ValidIndex(rows, idx) && Select(idx, line, used).Chosen?
    ensures var n := SearchedTerms(ItemsOf(idx, Terms(idx, line, used)));
            |AsSet(Select(idx, line, used).sids)| <= if n == 0 then 1 else n
  {
    hide Listed, SetSum, Singles, Terms, KeepNew, IdSet, Groups, Select, AsSet;
    var cands := ItemsOf(idx, Terms(idx, line, used));
    var singles, sids := Singles(idx, line, used), Select(idx, line, used).sids;
    IndexFacts(rows, idx);
    CandidateFacts(idx, line, used);
    SelectFirst(idx, line, used);
    AsSetSize(sids);
    if !Searchable(cands) {
      OnlySingles(idx, line, used);
    } else if singles == [] {
      ChosenListsOne(idx, line, used);
      var c := Listed(cands, line.amount)[0];
      ListedTerms(cands, line.amount, c);
    }
  }

  lemma SumUsesCandidates(cands: seq<Item>, amount: int, t: seq<Item>)
    requires IsSum(cands, amount, t)
    ensures cands != [] && |IdSet(t)| == |t| >= 2
  {
    hide IdSet;
    assert t[0] in t;
    IdSetSize(t);
  }

  /** Exactly when a choice is the only one. Every sum of any number of terms uses the chosen settlements
      if and only if none has more terms than the search covers; within the term range of the search, if
      and only if there are at most two hundred candidates or no such sum. */
  lemma ChosenIsTheOnlySumExactlyWhen(rows: seq<ReconRow>, idx: Index, line: Line, used: set<int>)
    requires ValidIndex(rows, idx) && Select(idx, line, used).Chosen?
    ensures var cands, sids := ItemsOf(idx, Terms(idx, line, used)), Select(idx, line, used).sids;
            (forall t :: IsSum(cands, line.amount, t) ==> AsSet(sids) == IdSet(t))
            <==> !exists t :: IsSum(cands, line.amount, t) && |t| > SearchedTerms(cands)
    ensures var cands, sids := ItemsOf(idx, Terms(idx, line, used)), Select(idx, line, used).sids;
            (forall t :: IsSelection(cands, line.amount, 0, 2, MaxTerms(cands), t) ==> AsSet(sids) == IdSet(t))
            <==> |cands| <= SETSUM_MAX_CANDIDATES
                 || !exists t :: IsSelection(cands, line.amount, 0, 2, MaxTerms(cands), t)
  {
    hide Select, Terms, ItemsOf, AsSet, IdSet, ValidIndex;
    var cands, sids := ItemsOf(idx, Terms(idx, line, used)), Select(idx, line, used).sids;
    ChosenTerms(rows, idx, line, used);
    forall t | IsSum(cands, line.amount, t)
      ensures |t| <= SearchedTerms(cands) <==> AsSet(sids) == IdSet(t)
    {
      SumUsesCandidates(cands, line.amount, t);
      if |t| <= SearchedTerms(cands) {
        ChosenIsTheOnlySum(rows, idx, line, used, t);
      }
    }
    forall t
      ensures IsSelection(cands, line.amount, 0, 2, MaxTerms(cands), t)
              <==> IsSum(cands, line.amount, t) && |t| <= MaxTerms(cands)
    {
    }
  }

  lemma RepeatsAsIds(t: seq<Item>)
    ensures NoRepeats(Ids(t)) <==> DistinctIds(t)
  {
    if DistinctIds(t) {
      assert NoRepeats(Ids(t));
    }
    if NoRepeats(Ids(t)) {
      forall i, j | 0 <= i < j < |t|
        ensures t[i].id != t[j].id
      {
        assert Ids(t)[i] != Ids(t)[j];
      }
    }
  }

  /** A listed tuple repeats a settlement only in a large pool with an inverted pair. */
  lemma ListedRepeats(cands: seq<Item>, amount: int)
    requires DistinctIds(cands) && Positive(cands)
    ensures (exists c :: c in Listed(cands, amount) && RepeatsId(c))
            <==> |cands| > SETSUM_EXPANSION_MAX_CANDIDATES && Inverted(cands, amount)
    ensures forall c :: c in Listed(cands, amount) && RepeatsId(c) ==> |IdSet(c)| >= 2
  {
    if |cands| <= SETSUM_EXPANSION_MAX_CANDIDATES {
      hide AllCombinations, Hitting, Visits, Fresh, IdSet;
      forall c | c in Listed(cands, amount)
        ensures DistinctIds(c)
      {
        VisitedIsSelection(cands, amount, 0, 1, SETSUM_MAX_TERMS, c);
      }
    } else {
      hide AllCombinations, Hitting, Visits, Fresh, IdSet, Inverted;
      RepeatsExactlyWhenInverted(cands, amount);
      forall c | c in Listed(cands, amount)
        ensures |IdSet(c)| >= 2
      {
        TwoIds(cands, amount, c);
      }
    }
  }

  lemma TwoIds(cands: seq<Item>, amount: int, c: seq<Item>)
    requires c in Visits(cands, amount)
    ensures |IdSet(c)| >= 2
  {
    hide PairsFrom, TriplesFrom;
    PairsMember(cands, cands, amount, c);
    TriplesMember(cands, cands, amount, c);
    var a, b := c[|c| - 2].id, c[|c| - 1].id;
    assert a != b && {a, b} <= IdSet(c);
    SubsetSize({a, b}, IdSet(c));
  }

  /** The exact condition under which a chosen list names one settlement twice: more than sixteen
      candidates, and two of them out of id order with the first counted twice making the amount. */
  lemma ChosenRepeatsExactlyWhenInverted(rows: seq<ReconRow>, idx: Index, line: Line, used: set<int>)
    requires ValidIndex(rows, idx) && Select(idx, line, used).Chosen?
    ensures var cands := ItemsOf(idx, Terms(idx, line, used));
            !NoRepeats(Select(idx, line, used).sids)
            <==> SETSUM_EXPANSION_MAX_CANDIDATES < |cands| <= SETSUM_MAX_CANDIDATES && Inverted(cands, line.amount)
  {
    hide Listed, SetSum, Singles, Terms, KeepNew, IdSet, Groups, Select, Inverted, AsSet;
    var cands := ItemsOf(idx, Terms(idx, line, used));
    var singles, offers, sids := Singles(idx, line, used), Offers(idx, line, used), Select(idx, line, used).sids;
    IndexFacts(rows, idx);
    CandidateFacts(idx, line, used);
    SelectFirst(idx, line, used);
    if !Searchable(cands) {
      assert |cands| == 0 || |cands| > SETSUM_MAX_CANDIDATES;
      OnlySingles(idx, line, used);
    } else {
      ChosenListsOne(idx, line, used);
      ListedRepeats(cands, line.amount);
      var listed := Listed(cands, line.amount);
      if listed == [] {
        assert offers == Wrap(singles);
      } else {
        var c := listed[0];
        assert listed == [c] && c in listed;
        assert offers[|singles|] == Ids(c) && Ids(c) in offers;
        RepeatsAsIds(c);
        ChosenFromOffers(idx, line, used, Ids(c));
        IdsAsSet(c);
        if |singles| > 0 {
          SingleSet(singles[0]);
        }
      }
    }
  }

  lemma SingleSet(s: int)
    ensures AsSet([s]) == {s} && |AsSet([s])| == 1 && NoRepeats([s])
  {
    assert AsSet([s]) == {s};
  }

  lemma SelectFirst(idx: Index, line: Line, used: set<int>)
    requires Select(idx, line, used).Chosen?
    ensures Offers(idx, line, used) != [] && Select(idx, line, used).sids == Offers(idx, line, used)[0]
  {
    hide Singles, SumLists, AsSet;
    var offers := Offers(idx, line, used);
    assert KeepNew(offers, {}) != [];
    ChosenFromOffers(idx, line, used, offers[0]);
  }

  lemma OnlySingles(idx: Index, line: Line, used: set<int>)
    requires !Searchable(ItemsOf(idx, Terms(idx, line, used)))
    ensures Offers(idx, line, used) == Wrap(Singles(idx, line, used))
  {
  }

  // ----- When a choice is made

  /** The first item of an inverted pair, the second, and the first again. */
  ghost predicate IsInvertedTriple(cands: seq<Item>, amount: int, t: seq<Item>) {
    exists i, j :: 0 <= i < j < |cands| && cands[i].id > cands[j].id && 2 * cands[i].value + cands[j].value == amount
                   && t == [cands[i], cands[j], cands[i]]
  }

  /** A sum the search reports: a genuine one in its term range or, in a pool of more than sixteen, an
      inverted pair with its first item twice. */
  ghost predicate Offered(cands: seq<Item>, amount: int, t: seq<Item>) {
    || IsSelection(cands, amount, 0, 2, MaxTerms(cands), t)
    || (|cands| > SETSUM_EXPANSION_MAX_CANDIDATES && IsInvertedTriple(cands, amount, t))
  }

  ghost predicate OfferedKeys(cands: seq<Item>, amount: int, keys: set<int>) {
    exists t :: Offered(cands, amount, t) && IdSet(t) == keys
  }

  ghost predicate ListedAs(cands: seq<Item>, amount: int, keys: set<int>) {
    exists c :: c in Listed(cands, amount) && IdSet(c) == keys
  }

  lemma ListedIsOffered(cands: seq<Item>, amount: int, c: seq<Item>)
    requires DistinctIds(cands) && Positive(cands) && (forall x :: x in cands ==> x.value < amount)
    requires c in Listed(cands, amount)
    ensures Offered(cands, amount, c)
  {
    if |cands| <= SETSUM_EXPANSION_MAX_CANDIDATES {
      hide AllCombinations, Hitting, Visits, Fresh;
      VisitedIsSelection(cands, amount, 0, 1, SETSUM_MAX_TERMS, c);
      TotalOfSingle(c);
    } else {
      hide AllCombinations, Hitting, Visits, Fresh, IsInvertedTriple;
      VisitShape(cands, amount, c);
      if RepeatsId(c) {
        RepeatIsInverted(cands, amount, c);
      }
    }
  }

  lemma TotalOfSingle(c: seq<Item>)
    ensures |c| == 1 ==> Total(c) == c[0].value && c[0] in c
  {
  }

  lemma RepeatIsInverted(cands: seq<Item>, amount: int, c: seq<Item>)
    requires DistinctIds(cands) && Positive(cands) && c in Visits(cands, amount) && RepeatsId(c)
    ensures IsInvertedTriple(cands, amount, c)
  {
    hide PairsFrom, TriplesFrom;
    PairsMember(cands, cands, amount, c);
    TriplesMember(cands, cands, amount, c);
    var i, j :| 0 <= i < j < |cands| && IsThirdVisit(cands, cands[i], cands[j], amount, c);
    var k := PositionOf(cands, c[2]);
    assert c == [cands[i], cands[j], c[2]];
    assert k == i;
  }

  lemma OfferedIsListed(cands: seq<Item>, amount: int, t: seq<Item>)
    requires DistinctIds(cands) && Positive(cands) && Offered(cands, amount, t)
    ensures ListedAs(cands, amount, IdSet(t))
  {
    hide AllCombinations, Hitting, Visits, Fresh, IdSet, Listed;
    if IsSelection(cands, amount, 0, 2, MaxTerms(cands), t) {
      var c := ListedCovers(cands, amount, t);
    } else {
      var i, j :| 0 <= i < j < |cands| && cands[i].id > cands[j].id && 2 * cands[i].value + cands[j].value == amount
                  && t == [cands[i], cands[j], cands[i]];
      InvertedIsVisited(cands, amount, i, j);
      LargePoolLists(cands, amount, t);
    }
  }

  lemma LargePoolLists(cands: seq<Item>, amount: int, t: seq<Item>)
    requires |cands| > SETSUM_EXPANSION_MAX_CANDIDATES && t in Visits(cands, amount)
    ensures ListedAs(cands, amount, IdSet(t))
  {
    hide Visits, Fresh, IdSet;
    FreshKeepsOne(Visits(cands, amount), {}, t);
  }

  /** The search reports exactly the settlement sets of its offered sums. */
  lemma ListedExactly(cands: seq<Item>, amount: int, keys: set<int>)
    requires DistinctIds(cands) && Positive(cands) && forall x :: x in cands ==> x.value < amount
    ensures ListedAs(cands, amount, keys) <==> OfferedKeys(cands, amount, keys)
  {
    hide Offered, Listed, IdSet;
    if ListedAs(cands, amount, keys) {
      var c :| c in Listed(cands, amount) && IdSet(c) == keys;
      ListedIsOffered(cands, amount, c);
    }
    if OfferedKeys(cands, amount, keys) {
      var t :| Offered(cands, amount, t) && IdSet(t) == keys;
      OfferedIsListed(cands, amount, t);
    }
  }

  /** The settlements explain the credit: one of its whole net, or an offered sum of a pool not too large. */
  ghost predicate Explains(idx: Index, line: Line, used: set<int>, keys: set<int>) {
    || (exists s :: IsSingle(idx, line, used, s) && keys == {s})
    || (var cands := ItemsOf(idx, Terms(idx, line, used));
        Searchable(cands) && OfferedKeys(cands, line.amount, keys))
  }

  lemma CandidatesBelow(idx: Index, line: Line, used: set<int>)
    requires NoRepeats(idx.sids) && forall x :: x in idx.sids <==> x in idx.net
    ensures var cands := ItemsOf(idx, Terms(idx, line, used));
            && DistinctIds(cands) && Positive(cands) && (forall x :: x in cands ==> x.value < line.amount)
            && (cands != [] ==> line.amount > 0)
  {
    hide Terms, ItemsOf;
    CandidateFacts(idx, line, used);
    var cands := ItemsOf(idx, Terms(idx, line, used));
    assert cands != [] ==> cands[0] in cands;
  }

  /** The offers, when the pool is searched. */
  lemma OffersAre(rows: seq<ReconRow>, idx: Index, line: Line, used: set<int>)
    requires ValidIndex(rows, idx)
    ensures var cands := ItemsOf(idx, Terms(idx, line, used));
            Offers(idx, line, used)
              == Wrap(Singles(idx, line, used))
                 + (if Searchable(cands) then AllIds(Take(Listed(cands, line.amount), 2)) else [])
    ensures SumLists(idx, line, used).Found?
    ensures var cands := ItemsOf(idx, Terms(idx, line, used));
            Searchable(cands) ==> Pairwise(Listed(cands, line.amount), KeysDiffer)
  {
    hide Listed, SetSum, Singles, Terms, ItemsOf, Groups;
    IndexFacts(rows, idx);
    CandidatesBelow(idx, line, used);
    var cands := ItemsOf(idx, Terms(idx, line, used));
    if Searchable(cands) {
      SetSumLists(cands, line.amount);
    }
  }

  lemma OfferExplains(rows: seq<ReconRow>, idx: Index, line: Line, used: set<int>, l: seq<int>)
    requires ValidIndex(rows, idx) && l in Offers(idx, line, used)
    ensures Explains(idx, line, used, AsSet(l))
  {
    hide Listed, SetSum, Singles, Terms, ItemsOf, ValidIndex, AsSet, IdSet, Offers, OfferedKeys, IsSingle;
    OffersAre(rows, idx, line, used);
    IndexFacts(rows, idx);
    CandidatesBelow(idx, line, used);
    var singles, cands := Singles(idx, line, used), ItemsOf(idx, Terms(idx, line, used));
    var i :| 0 <= i < |Offers(idx, line, used)| && Offers(idx, line, used)[i] == l;
    if i < |singles| {
      assert l == [singles[i]] && singles[i] in singles;
      SingleFacts(rows, idx, line, used, singles[i]);
      SingleSet(singles[i]);
    } else {
      var listed := Listed(cands, line.amount);
      var c := listed[i - |singles|];
      assert l == Ids(c) && c in listed;
      IdsAsSet(c);
      ListedExactly(cands, line.amount, IdSet(c));
    }
  }

  /** What explains the credit is offered, unless two listed sums already are. */
  lemma ExplainsIsOffered(rows: seq<ReconRow>, idx: Index, line: Line, used: set<int>, keys: set<int>)
    requires ValidIndex(rows, idx) && Explains(idx, line, used, keys)
    ensures Offers(idx, line, used) != []
    ensures |KeepNew(Offers(idx, line, used), {})| <= 1 ==> exists l :: l in Offers(idx, line, used) && AsSet(l) == keys
  {
    hide Listed, SetSum, Singles, Terms, ItemsOf, ValidIndex, AsSet, IdSet, Offers, OfferedKeys, IsSingle, KeepNew,
         ListedAs;
    OffersAre(rows, idx, line, used);
    IndexFacts(rows, idx);
    CandidatesBelow(idx, line, used);
    var singles, cands, offers := Singles(idx, line, used), ItemsOf(idx, Terms(idx, line, used)),
                                  Offers(idx, line, used);
    if s :| IsSingle(idx, line, used, s) && keys == {s} {
      SingleFacts(rows, idx, line, used, s);
      var i :| 0 <= i < |singles| && singles[i] == s;
      SingleSet(s);
      assert offers[i] == [s] && offers[i] in offers;
    } else {
      ListedExactly(cands, line.amount, keys);
      ListedOffer(cands, line.amount, keys, singles, offers);
    }
  }

  lemma ListedOffer(cands: seq<Item>, amount: int, keys: set<int>, singles: seq<int>, offers: seq<seq<int>>)
    requires ListedAs(cands, amount, keys) && Pairwise(Listed(cands, amount), KeysDiffer)
    requires offers == Wrap(singles) + AllIds(Take(Listed(cands, amount), 2))
    ensures offers != []
    ensures |KeepNew(offers, {})| <= 1 ==> exists l :: l in offers && AsSet(l) == keys
  {
    hide Listed, AsSet, IdSet, KeepNew;
    var listed, n := Listed(cands, amount), |singles|;
    var i :| 0 <= i < |listed| && IdSet(listed[i]) == keys;
    if i < 2 {
      assert offers[n + i] == Ids(listed[i]) && offers[n + i] in offers;
      IdsAsSet(listed[i]);
    } else {
      assert KeysDiffer(listed[0], listed[1]);
      assert offers[n] == Ids(listed[0]) && offers[n + 1] == Ids(listed[1]);
      IdsAsSet(listed[0]);
      IdsAsSet(listed[1]);
      TwoKept(offers, offers[n], offers[n + 1]);
    }
  }

  lemma TwoKept(lists: seq<seq<int>>, a: seq<int>, b: seq<int>)
    requires a in lists && b in lists && AsSet(a) != AsSet(b)
    ensures |KeepNew(lists, {})| >= 2
  {
    hide AsSet;
    var kept := KeepNew(lists, {});
    KeepNewCovers(lists, {}, a);
    KeepNewCovers(lists, {}, b);
    var k :| k in kept && AsSet(k) == AsSet(a);
    var l :| l in kept && AsSet(l) == AsSet(b);
    var i :| 0 <= i < |kept| && kept[i] == k;
    var j :| 0 <= j < |kept| && kept[j] == l;
    assert i != j;
  }

  lemma {:induction false} KeepNewDiffer(lists: seq<seq<int>>, seen: set<set<int>>)
    ensures forall l :: l in KeepNew(lists, seen) ==> AsSet(l) !in seen
    ensures forall i, j :: 0 <= i < j < |KeepNew(lists, seen)| ==>
              AsSet(KeepNew(lists, seen)[i]) != AsSet(KeepNew(lists, seen)[j])
  {
    hide AsSet;
    if lists != [] {
      if AsSet(lists[0]) in seen {
        KeepNewDiffer(lists[1..], seen);
      } else {
        KeepNewDiffer(lists[1..], seen + {AsSet(lists[0])});
      }
    }
  }

  ghost predicate SomeExplains(idx: Index, line: Line, used: set<int>) {
    exists k :: Explains(idx, line, used, k)
  }

  ghost predicate OneExplains(idx: Index, line: Line, used: set<int>) {
    exists keys :: Explains(idx, line, used, keys) && forall k :: Explains(idx, line, used, k) ==> k == keys
  }

  ghost predicate TwoExplain(idx: Index, line: Line, used: set<int>) {
    exists k, l :: Explains(idx, line, used, k) && Explains(idx, line, used, l) && k != l
  }

  lemma NoneOneOrTwo(idx: Index, line: Line, used: set<int>)
    ensures OneExplains(idx, line, used) <==> SomeExplains(idx, line, used) && !TwoExplain(idx, line, used)
    ensures TwoExplain(idx, line, used) ==> SomeExplains(idx, line, used)
  {
    hide Explains;
  }

  lemma ChosenIsOne(rows: seq<ReconRow>, idx: Index, line: Line, used: set<int>)
    requires ValidIndex(rows, idx) && Select(idx, line, used).Chosen?
    ensures Explains(idx, line, used, AsSet(Select(idx, line, used).sids)) && OneExplains(idx, line, used)
  {
    hide SumLists, Singles, ValidIndex, AsSet, Explains, KeepNew, Offers, Select;
    var offers, sids := Offers(idx, line, used), Select(idx, line, used).sids;
    var kept := KeepNew(offers, {});
    SelectCases(rows, idx, line, used);
    assert kept[0] in kept;
    OfferExplains(rows, idx, line, used, sids);
    forall k | Explains(idx, line, used, k)
      ensures k == AsSet(sids)
    {
      ExplainsIsOffered(rows, idx, line, used, k);
      var l :| l in offers && AsSet(l) == k;
      OneKept(offers, l);
    }
  }

  lemma AmbiguousIsTwo(rows: seq<ReconRow>, idx: Index, line: Line, used: set<int>)
    requires ValidIndex(rows, idx) && Select(idx, line, used).Ambiguous?
    ensures TwoExplain(idx, line, used)
  {
    hide SumLists, Singles, ValidIndex, AsSet, Explains, KeepNew, Offers, Select;
    var kept := KeepNew(Offers(idx, line, used), {});
    SelectCases(rows, idx, line, used);
    KeepNewDiffer(Offers(idx, line, used), {});
    assert kept[0] in kept && kept[1] in kept;
    OfferExplains(rows, idx, line, used, kept[0]);
    OfferExplains(rows, idx, line, used, kept[1]);
  }

  lemma ExplainedIsSomething(rows: seq<ReconRow>, idx: Index, line: Line, used: set<int>)
    requires ValidIndex(rows, idx) && SomeExplains(idx, line, used)
    ensures !Select(idx, line, used).Nothing?
  {
    hide SumLists, Singles, ValidIndex, AsSet, Explains, KeepNew, Offers, Select;
    var offers := Offers(idx, line, used);
    var k :| Explains(idx, line, used, k);
    SelectCases(rows, idx, line, used);
    ExplainsIsOffered(rows, idx, line, used, k);
    KeepNewCovers(offers, {}, offers[0]);
  }

  /** The selection, exactly: settlements are chosen when one set explains the credit and no other does,
      the credit is ambiguous when two sets do, and nothing is chosen when none does. */
  lemma SelectExactlyWhen(rows: seq<ReconRow>, idx: Index, line: Line, used: set<int>)
    requires ValidIndex(rows, idx)
    ensures var sel := Select(idx, line, used);
            && (sel.Chosen? <==> OneExplains(idx, line, used))
            && (sel.Chosen? ==> Explains(idx, line, used, AsSet(sel.sids)))
            && (sel.Ambiguous? <==> TwoExplain(idx, line, used))
            && (sel.Nothing? <==> !SomeExplains(idx, line, used))
  {
    hide ValidIndex, AsSet, Explains, Select, SomeExplains, OneExplains, TwoExplain, KeepNew, Offers;
    NoneOneOrTwo(idx, line, used);
    SelectCases(rows, idx, line, used);
    if Select(idx, line, used).Chosen? {
      ChosenIsOne(rows, idx, line, used);
    } else if Select(idx, line, used).Ambiguous? {
      AmbiguousIsTwo(rows, idx, line, used);
    } else if SomeExplains(idx, line, used) {
      ExplainedIsSomething(rows, idx, line, used);
    }
  }

  lemma SelectCases(rows: seq<ReconRow>, idx: Index, line: Line, used: set<int>)
    requires ValidIndex(rows, idx)
    ensures var kept := KeepNew(Offers(idx, line, used), {});
            && (forall l :: l in kept ==> l in Offers(idx, line, used))
            && Select(idx, line, used)
                 == if |kept| > 1 then Ambiguous else if |kept| == 1 then Chosen(kept[0]) else Nothing
  {
    hide SumLists, Singles, ValidIndex;
    OffersAre(rows, idx, line, used);
  }
}
