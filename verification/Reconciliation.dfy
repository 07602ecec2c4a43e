/** The settlement index as the run updates it, and the reconciliation as one call. */
module Reconciliation {
  import opened Options
  import opened Sequences
  import opened SubsetSearch
  import opened LegacySubsets
  import opened LegacyProperties
  import opened SettlementGroups
  import opened Reconcile
  import opened ReconcileRun
  import opened TwoPass

  function SetsOf(lists: seq<seq<int>>): set<set<int>> {
    set l | l in lists :: AsSet(l)
  }

  lemma {:induction false} KeepNewStep(lists: seq<seq<int>>, l: seq<int>, seen: set<set<int>>)
    ensures KeepNew(lists + [l], seen) == KeepNew(lists, seen) + (if AsSet(l) in seen + SetsOf(lists) then [] else [l])
    decreases lists
  {
    hide AsSet;
    var more := lists + [l];
    if lists == [] {
      assert more == [l] && SetsOf(lists) == {};
    } else {
      var rest := lists[1..];
      assert more[1..] == rest + [l];
      assert forall x :: x in lists <==> x == lists[0] || x in rest;
      assert SetsOf(lists) == {AsSet(lists[0])} + SetsOf(rest);
      if AsSet(lists[0]) in seen {
        KeepNewStep(rest, l, seen);
        assert seen + SetsOf(lists) == seen + SetsOf(rest);
      } else {
        KeepNewStep(rest, l, seen + {AsSet(lists[0])});
        assert seen + {AsSet(lists[0])} + SetsOf(rest) == seen + SetsOf(lists);
        assert [lists[0]] + (KeepNew(rest, seen + {AsSet(lists[0])})
                               + (if AsSet(l) in seen + SetsOf(lists) then [] else [l]))
            == [lists[0]] + KeepNew(rest, seen + {AsSet(lists[0])})
                 + (if AsSet(l) in seen + SetsOf(lists) then [] else [l]);
      }
    }
  }

  lemma SetsOfStep(lists: seq<seq<int>>, l: seq<int>)
    ensures SetsOf(lists + [l]) == SetsOf(lists) + {AsSet(l)} && SetsOf([]) == {}
  {
    hide AsSet;
    assert forall x :: x in lists + [l] <==> x in lists || x == l;
  }

  /** The lists offered so far, as the search keeps them: first of each settlement set, and the sets seen. */
  ghost predicate Seen(lists: seq<seq<int>>, kept: seq<seq<int>>, seen: set<set<int>>) {
    kept == KeepNew(lists, {}) && seen == SetsOf(lists)
  }

  method Offer(ghost lists: seq<seq<int>>, kept: seq<seq<int>>, seen: set<set<int>>, l: seq<int>)
    returns (kept': seq<seq<int>>, seen': set<set<int>>)
    requires Seen(lists, kept, seen)
    ensures Seen(lists + [l], kept', seen')
  {
    hide KeepNew, SetsOf, AsSet;
    kept', seen' := kept, seen;
    KeepNewStep(lists, l, {});
    SetsOfStep(lists, l);
    assert {} + SetsOf(lists) == SetsOf(lists);
    if AsSet(l) !in seen {
      seen' := seen + {AsSet(l)};
      kept' := kept + [l];
    }
  }

  lemma WrapStep(sids: seq<int>, s: int)
    ensures Wrap(sids + [s]) == Wrap(sids) + [[s]] && Wrap([]) == []
  {
  }

  method KeepSingles(idx: Index, line: Line, used: set<int>) returns (kept: seq<seq<int>>, seen: set<set<int>>)
    ensures Seen(Wrap(Singles(idx, line, used)), kept, seen)
  {
    hide KeepNew, SetsOf, AsSet, Wrap, Seen, Filter, WithinWindow;
    var sids, keep := ByNet(idx, line.amount), (s: int) => s !in used && WithinWindow(idx, s, line);
    kept, seen := [], {};
    NothingSeen();
    WrapStep([], 0);
    FilterUnfold(sids[..0], keep);
    for i := 0 to |sids|
      invariant Seen(Wrap(Filter(sids[..i], keep)), kept, seen)
    {
      FilterStep(sids, i, keep);
      if sids[i] !in used && WithinWindow(idx, sids[i], line) {
        WrapStep(Filter(sids[..i], keep), sids[i]);
        kept, seen := Offer(Wrap(Filter(sids[..i], keep)), kept, seen, [sids[i]]);
      } else {
        assert Filter(sids[..i + 1], keep) == Filter(sids[..i], keep);
      }
    }
    assert sids[..|sids|] == sids;
  }

  lemma NothingSeen()
    ensures Seen([], [], {})
  {
  }

  method KeepSums(ghost singles: seq<seq<int>>, sums: seq<seq<int>>, kept0: seq<seq<int>>, seen0: set<set<int>>)
    returns (kept: seq<seq<int>>)
    requires Seen(singles, kept0, seen0)
    ensures kept == KeepNew(singles + sums, {})
  {
    hide KeepNew, SetsOf, AsSet;
    var seen := seen0;
    kept := kept0;
    assert singles + sums[..0] == singles;
    for i := 0 to |sums|
      invariant Seen(singles + sums[..i], kept, seen)
    {
      assert singles + sums[..i + 1] == singles + sums[..i] + [sums[i]];
      kept, seen := Offer(singles + sums[..i], kept, seen, sums[i]);
    }
    assert sums[..|sums|] == sums;
  }

  /** The bounded search over a small pool, the indexed matcher over a larger one. */
  method SearchSums(cands: seq<Item>, amount: int) returns (search: Outcome)
    ensures search == SetSum(cands, amount)
  {
    hide BoundedSubsets, LegacySubsetsOf;
    if |cands| <= SETSUM_EXPANSION_MAX_CANDIDATES {
      search := FindBoundedSubsets(cands, amount, 0, 1, SETSUM_MAX_TERMS, SETSUM_EXPANSION_MAX_CANDIDATES,
                                   SETSUM_MAX_COMBINATIONS, 2, false);
    } else {
      search := FindLegacySubsets(cands, amount, 2);
    }
  }

  class SettlementIndex {
    const rows: seq<ReconRow>
    const idx: Index
    var ambiguous: set<int>
    var unEnumerable: set<int>
    var duplicateOrSplit: set<int>
    var unbalanced: map<int, int>
    var uncredited: set<int>

    constructor (rows: seq<ReconRow>)
      ensures this.rows == rows && ValidIndex(rows, idx)
      ensures ambiguous == {} && unEnumerable == {} && duplicateOrSplit == {} && unbalanced == map[] && uncredited == {}
    {
      this.rows := rows;
      var built := SettlementGroups.BuildIndex(rows);
      idx := built;
      ambiguous, unEnumerable, duplicateOrSplit, unbalanced, uncredited := {}, {}, {}, map[], {};
    }

    /** The settlements singled out for the credit, or none; a credit it could not decide is recorded. */
    method AmountOrSetsumSids(line: Line, used: set<int>) returns (sids: seq<int>)
      modifies this`ambiguous, this`unEnumerable
      ensures sids == if Select(idx, line, used).Chosen? then Select(idx, line, used).sids else []
      ensures ambiguous == old(ambiguous) + (if Select(idx, line, used).Ambiguous? then {line.key} else {})
      ensures unEnumerable == old(unEnumerable) + (if Select(idx, line, used).Unenumerable? then {line.key} else {})
    {
      hide KeepNew, Singles, Wrap, Seen, Terms, ItemsOf, SetSum;
      var kept, seen := KeepSingles(idx, line, used);
      var cands := ItemsOf(idx, Terms(idx, line, used));
      var search := Found([]);
      if cands != [] && |cands| <= SETSUM_MAX_CANDIDATES {
        search := SearchSums(cands, line.amount);
      }
      if !search.Found? {
        unEnumerable := unEnumerable + {line.key};
        return [];
      }
      kept := KeepSums(Wrap(Singles(idx, line, used)), search.subsets, kept, seen);
      if |kept| > 1 {
        ambiguous := ambiguous + {line.key};
        return [];
      }
      sids := if |kept| == 1 then kept[0] else [];
    }
  }

  // ----- First pass

  /** The settlements claimed, in order of their first claim, with the credits that claim each. */
  ghost predicate Grouped(idx: Index, rzp: seq<Line>, order: seq<int>, claims: map<int, seq<Line>>) {
    && NoRepeats(order)
    && (forall s :: s in order <==> s in claims)
    && (forall s :: s in claims ==> claims[s] == Claims(idx, rzp, s) && claims[s] != [])
    && (forall s :: s !in claims ==> Claims(idx, rzp, s) == [])
  }

  method GroupClaims(idx: Index, rzp: seq<Line>) returns (order: seq<int>, claims: map<int, seq<Line>>)
    ensures Grouped(idx, rzp, order, claims)
  {
    hide Grouped;
    order, claims := [], map[];
    NothingClaimed(idx);
    for i := 0 to |rzp|
      invariant Grouped(idx, rzp[..i], order, claims)
    {
      var claim := UtrSid(idx, rzp[i].utrs);
      GroupedStep(idx, rzp, i, order, claims);
      if claim.Some? {
        var s := claim.value;
        order := if s in claims then order else order + [s];
        claims := claims[s := (if s in claims then claims[s] else []) + [rzp[i]]];
      }
    }
    assert rzp[..|rzp|] == rzp;
  }

  lemma NothingClaimed(idx: Index)
    ensures Grouped(idx, [], [], map[])
  {
  }

  lemma ClaimsStep(idx: Index, rzp: seq<Line>, i: nat, s: int)
    requires i < |rzp|
    ensures Claims(idx, rzp[..i + 1], s)
              == Claims(idx, rzp[..i], s) + (if UtrSid(idx, rzp[i].utrs) == Some(s) then [rzp[i]] else [])
  {
    hide UtrSid, Filter;
    FilterStep(rzp, i, (l: Line) => UtrSid(idx, l.utrs) == Some(s));
  }

  lemma GroupedStep(idx: Index, rzp: seq<Line>, i: nat, order: seq<int>, claims: map<int, seq<Line>>)
    requires i < |rzp| && Grouped(idx, rzp[..i], order, claims)
    ensures var claim := UtrSid(idx, rzp[i].utrs);
            && (claim.None? ==> Grouped(idx, rzp[..i + 1], order, claims))
            && (claim.Some? ==>
                  Grouped(idx, rzp[..i + 1], if claim.value in claims then order else order + [claim.value],
                          claims[claim.value :=
                            (if claim.value in claims then claims[claim.value] else []) + [rzp[i]]]))
  {
    hide UtrSid, Claims, Grouped;
    if UtrSid(idx, rzp[i].utrs).Some? {
      ClaimedStep(idx, rzp, i, order, claims, UtrSid(idx, rzp[i].utrs).value);
    } else {
      UnclaimedStep(idx, rzp, i, order, claims);
    }
  }

  lemma UnclaimedStep(idx: Index, rzp: seq<Line>, i: nat, order: seq<int>, claims: map<int, seq<Line>>)
    requires i < |rzp| && Grouped(idx, rzp[..i], order, claims) && UtrSid(idx, rzp[i].utrs).None?
    ensures Grouped(idx, rzp[..i + 1], order, claims)
  {
    hide UtrSid, Claims;
    forall s: int
      ensures Claims(idx, rzp[..i + 1], s) == Claims(idx, rzp[..i], s)
    {
      ClaimsStep(idx, rzp, i, s);
    }
  }

  lemma ClaimedStep(idx: Index, rzp: seq<Line>, i: nat, order: seq<int>, claims: map<int, seq<Line>>, s: int)
    requires i < |rzp| && Grouped(idx, rzp[..i], order, claims) && UtrSid(idx, rzp[i].utrs) == Some(s)
    ensures Grouped(idx, rzp[..i + 1], if s in claims then order else order + [s],
                    claims[s := (if s in claims then claims[s] else []) + [rzp[i]]])
  {
    hide UtrSid, Claims;
    var order' := if s in claims then order else order + [s];
    ClaimsStep(idx, rzp, i, s);
    forall t: int | t != s
      ensures Claims(idx, rzp[..i + 1], t) == Claims(idx, rzp[..i], t)
    {
      ClaimsStep(idx, rzp, i, t);
    }
    assert forall t :: t in order' <==> t in order || t == s;
  }

  function KeysOfLines(lines: seq<Line>): (r: seq<int>)
    ensures |r| == |lines| && forall i :: 0 <= i < |r| ==> r[i] == lines[i].key
  {
    seq(|lines|, i requires 0 <= i < |lines| => lines[i].key)
  }

  function HeldBy(idx: Index, rzp: seq<Line>, order: seq<int>): set<int> {
    set l | l in rzp && UtrSid(idx, l.utrs).Some? && UtrSid(idx, l.utrs).value in order
              && |Claims(idx, rzp, UtrSid(idx, l.utrs).value)| > 1 :: l.key
  }

  lemma HeldStep(idx: Index, rzp: seq<Line>, order: seq<int>, i: nat)
    requires i < |order|
    ensures HeldBy(idx, rzp, order[..i + 1]) ==
            HeldBy(idx, rzp, order[..i])
              + (if |Claims(idx, rzp, order[i])| > 1 then AsSet(KeysOfLines(Claims(idx, rzp, order[i]))) else {})
  {
    hide UtrSid, Filter;
    var s := order[i];
    var c := Claims(idx, rzp, s);
    assert order[..i + 1] == order[..i] + [s];
    forall k
      ensures k in AsSet(KeysOfLines(c)) <==> exists l :: l in rzp && UtrSid(idx, l.utrs) == Some(s) && l.key == k
    {
      if k in AsSet(KeysOfLines(c)) {
        var j :| 0 <= j < |c| && KeysOfLines(c)[j] == k;
        assert c[j] in c;
      }
      if l :| l in rzp && UtrSid(idx, l.utrs) == Some(s) && l.key == k {
        assert l in c;
        var j :| 0 <= j < |c| && c[j] == l;
        assert KeysOfLines(c)[j] == k;
      }
    }
  }

  lemma HeldAll(idx: Index, rzp: seq<Line>, order: seq<int>, claims: map<int, seq<Line>>)
    requires Grouped(idx, rzp, order, claims)
    ensures HeldBy(idx, rzp, order) == Held(idx, rzp)
  {
  }

  method ResolveClaims(index: SettlementIndex, rzp: seq<Line>, order: seq<int>, claims: map<int, seq<Line>>)
    returns (st: Run)
    requires ValidIndex(index.rows, index.idx) && Grouped(index.idx, rzp, order, claims)
    modifies index`duplicateOrSplit
    ensures st == FirstPass(index.rows, index.idx, rzp, order)
    ensures index.duplicateOrSplit == old(index.duplicateOrSplit) + Held(index.idx, rzp)
  {
    hide ValidIndex, Claims, MakeResult, HeldBy, Held;
    var rows, idx := index.rows, index.idx;
    st := START;
    NoneHeld(idx, rzp);
    for i := 0 to |order|
      invariant st == FirstPass(rows, idx, rzp, order[..i])
      invariant index.duplicateOrSplit == old(index.duplicateOrSplit) + HeldBy(idx, rzp, order[..i])
    {
      var s := order[i];
      HeldStep(idx, rzp, order, i);
      assert s in order && claims[s] == Claims(idx, rzp, s);
      assert order[..i + 1][..i] == order[..i] && order[..i + 1][i] == s;
      if |claims[s]| > 1 {
        index.duplicateOrSplit := index.duplicateOrSplit + AsSet(KeysOfLines(claims[s]));
      } else {
        st := Record(st, MakeResult(rows, idx, claims[s][0], [s]));
      }
    }
    assert order[..|order|] == order;
    HeldAll(idx, rzp, order, claims);
  }

  lemma NoneHeld(idx: Index, rzp: seq<Line>)
    ensures HeldBy(idx, rzp, []) == {}
  {
  }

  // ----- Second pass

  method ResolveAmounts(index: SettlementIndex, rzp: seq<Line>, st0: Run) returns (st: Run)
    requires ValidIndex(index.rows, index.idx)
    requires st0.ambiguous == index.ambiguous && st0.unEnumerable == index.unEnumerable
    modifies index`ambiguous, index`unEnumerable
    ensures st == SecondPass(index.rows, index.idx, index.duplicateOrSplit, st0, rzp)
    ensures st.ambiguous == index.ambiguous && st.unEnumerable == index.unEnumerable
  {
    hide ValidIndex, Select, MakeResult;
    var rows, idx, held := index.rows, index.idx, index.duplicateOrSplit;
    var results, used, resolved := st0.results, st0.used, st0.resolved;
    for i := 0 to |rzp|
      invariant index.duplicateOrSplit == held
      invariant Run(results, used, resolved, index.ambiguous, index.unEnumerable)
                  == SecondPass(rows, idx, held, st0, rzp[..i])
    {
      var line := rzp[i];
      assert rzp[..i + 1][..i] == rzp[..i] && rzp[..i + 1][i] == line;
      if line.key !in resolved && line.key !in index.duplicateOrSplit {
        var sids := index.AmountOrSetsumSids(line, used);
        ChosenIsNotEmpty(rows, idx, line, used);
        if sids != [] {
          var made := MakeResult(rows, idx, line, sids);
          MadeNames(rows, idx, line, sids);
          if made.Some? {
            results, used, resolved := results + [made.value], used + AsSet(sids), resolved + {line.key};
          }
        }
      }
    }
    assert rzp[..|rzp|] == rzp;
    st := Run(results, used, resolved, index.ambiguous, index.unEnumerable);
  }

  lemma ChosenIsNotEmpty(rows: seq<ReconRow>, idx: Index, line: Line, used: set<int>)
    requires ValidIndex(rows, idx)
    ensures Select(idx, line, used).Chosen? ==> Select(idx, line, used).sids != []
  {
    if Select(idx, line, used).Chosen? {
      ChosenSumsExactly(rows, idx, line, used);
    }
  }

  lemma MadeNames(rows: seq<ReconRow>, idx: Index, line: Line, sids: seq<int>)
    requires ValidIndex(rows, idx)
    ensures MakeResult(rows, idx, line, sids).Some? ==>
              MakeResult(rows, idx, line, sids).value.key == line.key
              && MakeResult(rows, idx, line, sids).value.sids == sids
  {
    hide ValidIndex;
  }

  // ----- What is left over

  /** A reference names a settlement larger than the credit. */
  predicate FallsShort(idx: Index, l: Line) {
    UtrSid(idx, l.utrs).Some? && l.amount < NetAt(idx, UtrSid(idx, l.utrs).value)
  }

  predicate Overruns(idx: Index, l: Line) {
    UtrSid(idx, l.utrs).Some? && l.amount >= NetAt(idx, UtrSid(idx, l.utrs).value)
  }

  function Excess(idx: Index, l: Line): int
    requires Overruns(idx, l)
  {
    l.amount - NetAt(idx, UtrSid(idx, l.utrs).value)
  }

  /** Every leftover credit with a reference is either split or unbalanced, and nothing else is. */
  ghost predicate Classified(idx: Index, lines: seq<Line>, held: set<int>, split: set<int>, unbalanced: map<int, int>) {
    && (forall k :: k in split <==> k in held || exists l :: l in lines && l.key == k && FallsShort(idx, l))
    && (forall k :: k in unbalanced <==> exists l :: l in lines && l.key == k && Overruns(idx, l))
    && (forall l :: l in lines && Overruns(idx, l) && l.key in unbalanced ==> unbalanced[l.key] == Excess(idx, l))
  }

  lemma ClassifiedStep(idx: Index, lines: seq<Line>, i: nat, held: set<int>, split: set<int>, unbalanced: map<int, int>)
    requires i < |lines| && KeyedLines(lines) && Classified(idx, lines[..i], held, split, unbalanced)
    ensures var l := lines[i];
            && (FallsShort(idx, l) ==> Classified(idx, lines[..i + 1], held, split + {l.key}, unbalanced))
            && (Overruns(idx, l) ==> Classified(idx, lines[..i + 1], held, split, unbalanced[l.key := Excess(idx, l)]))
            && (!FallsShort(idx, l) && !Overruns(idx, l) ==> Classified(idx, lines[..i + 1], held, split, unbalanced))
  {
    hide FallsShort, Overruns, Excess;
    var l, before, now := lines[i], lines[..i], lines[..i + 1];
    assert now == before + [l];
    assert forall x :: x in now <==> x in before || x == l;
    assert forall x :: x in before && x.key == l.key ==> x == l;
    NotBoth(idx, l);
  }

  lemma NotBoth(idx: Index, l: Line)
    ensures !(FallsShort(idx, l) && Overruns(idx, l))
  {
  }

  method Classify(index: SettlementIndex, lines: seq<Line>)
    requires KeyedLines(lines) && index.unbalanced == map[]
    modifies index`duplicateOrSplit, index`unbalanced
    ensures Classified(index.idx, lines, old(index.duplicateOrSplit), index.duplicateOrSplit, index.unbalanced)
  {
    hide UtrSid, Classified;
    var idx := index.idx;
    NothingClassified(idx, index.duplicateOrSplit);
    for i := 0 to |lines|
      invariant Classified(idx, lines[..i], old(index.duplicateOrSplit), index.duplicateOrSplit, index.unbalanced)
    {
      var line := lines[i];
      ClassifiedStep(idx, lines, i, old(index.duplicateOrSplit), index.duplicateOrSplit, index.unbalanced);
      var claim := UtrSid(idx, line.utrs);
      if claim.Some? {
        var net := NetAt(idx, claim.value);
        if line.amount < net {
          index.duplicateOrSplit := index.duplicateOrSplit + {line.key};
        } else {
          index.unbalanced := index.unbalanced[line.key := line.amount - net];
        }
      }
    }
    assert lines[..|lines|] == lines;
  }

  lemma NothingClassified(idx: Index, held: set<int>)
    ensures Classified(idx, [], held, held, map[])
  {
  }

  // ----- The whole call

  /** The settlements taken by the first pass. */
  function Taken(rows: seq<ReconRow>, idx: Index, rzp: seq<Line>): set<int>
    requires ValidIndex(rows, idx)
  {
    set s | s in idx.sids && ClaimResult(rows, idx, rzp, s).Some?
  }

  /** The credits the first pass resolves. */
  function TakenKeys(rows: seq<ReconRow>, idx: Index, rzp: seq<Line>): set<int>
    requires ValidIndex(rows, idx)
  {
    set s | s in Taken(rows, idx, rzp) :: ClaimResult(rows, idx, rzp, s).value.key
  }

  /** Some credit, at its turn, is chosen from more than sixteen terms with an inverted pair. */
  ghost predicate Doubles(rows: seq<ReconRow>, idx: Index, rzp: seq<Line>)
    requires ValidIndex(rows, idx)
  {
    SomeTurnDoubles(idx, Held(idx, rzp), Turn(Taken(rows, idx, rzp), TakenKeys(rows, idx, rzp)), rzp)
  }

  /** The results are those of the two passes, in some order. */
  ghost predicate IsRun(rows: seq<ReconRow>, idx: Index, rzp: seq<Line>, results: seq<Result>)
    requires ValidIndex(rows, idx)
  {
    exists order, claims ::
      && Grouped(idx, rzp, order, claims)
      && multiset(results)
           == multiset(SecondPass(rows, idx, Held(idx, rzp), FirstPass(rows, idx, rzp, order), rzp).results)
  }

  /** Where the credit stands among the attributions; its last place if it appears twice. */
  function Place(rzp: seq<Line>, key: int): int {
    if rzp == [] then 0
    else if rzp[|rzp| - 1].key == key then |rzp| - 1
    else Place(rzp[..|rzp| - 1], key)
  }

  /** A credit's place is the last one it has in the list. */
  lemma {:induction false} PlaceIsLast(rzp: seq<Line>, key: int, i: nat)
    requires i < |rzp| && rzp[i].key == key && forall j :: i < j < |rzp| ==> rzp[j].key != key
    ensures Place(rzp, key) == i
  {
    if i < |rzp| - 1 {
      PlaceIsLast(rzp[..|rzp| - 1], key, i);
    }
  }

  function InPlace(rzp: seq<Line>): (Result, Result) -> bool {
    (a: Result, b: Result) => Place(rzp, a.key) <= Place(rzp, b.key)
  }

  /** Each result comes from one of the passes, and the first pass is complete. */
  ghost predicate FromPasses(rows: seq<ReconRow>, idx: Index, rzp: seq<Line>, results: seq<Result>)
    requires ValidIndex(rows, idx)
  {
    && (forall r :: IsFirstPass(rows, idx, rzp, r) ==> r in results)
    && (forall r :: r in results ==>
          IsFirstPass(rows, idx, rzp, r) || IsSecondPass(rows, idx, rzp, Taken(rows, idx, rzp), r))
  }

  /** A credit without a result was held as a duplicate claim or had no single choice at its turn. */
  ghost predicate LeftOverIsExplained(rows: seq<ReconRow>, idx: Index, rzp: seq<Line>, results: seq<Result>)
    requires ValidIndex(rows, idx)
  {
    forall l :: l in rzp && l.key !in KeysOf(results) ==>
      l.key in Held(idx, rzp) || NoChoice(idx, l, Taken(rows, idx, rzp), UsedBy(results))
  }

  predicate AscendingReport(idx: Index) {
    forall i, j :: 0 <= i < j < |idx.sids| ==> idx.sids[i] < idx.sids[j]
  }

  lemma {:induction false} UsedByMember(results: seq<Result>, s: int)
    ensures s in UsedBy(results) <==> exists r :: r in results && s in r.sids
  {
    if results != [] {
      var front, last := results[..|results| - 1], results[|results| - 1];
      assert results == front + [last];
      UsedByMember(front, s);
    }
  }

  /** The ledger of the run is a ledger of its results in any order. */
  lemma LedgerSorted(idx: Index, results: seq<Result>, used: set<int>, resolved: set<int>,
                     leq: (Result, Result) -> bool)
    requires Ledger(idx, results, used, resolved)
    ensures Ledger(idx, Sort(results, leq), used, resolved)
  {
    hide WellMade, UsedBy, Sort;
    SortPairwise(results, leq, Apart);
    SortMembers(results, leq);
    forall s
      ensures s in UsedBy(results) <==> s in UsedBy(Sort(results, leq))
    {
      UsedByMember(results, s);
      UsedByMember(Sort(results, leq), s);
    }
    SameElements(UsedBy(results), UsedBy(Sort(results, leq)));
  }

  lemma InPlaceIsTotal(rzp: seq<Line>)
    ensures TotalPreorder(InPlace(rzp))
  {
  }

  lemma TakenIsUsed(rows: seq<ReconRow>, idx: Index, rzp: seq<Line>, order: seq<int>, claims: map<int, seq<Line>>)
    requires ValidIndex(rows, idx) && KeyedLines(rzp) && Grouped(idx, rzp, order, claims)
    ensures var st := FirstPass(rows, idx, rzp, order);
            && Ledger(idx, st.results, st.used, st.resolved) && st.used == Taken(rows, idx, rzp)
            && st.ambiguous == {} && st.unEnumerable == {}
            && forall r :: r in st.results <==> IsFirstPass(rows, idx, rzp, r)
  {
    hide ValidIndex, FirstPass, ClaimResult, Ledger, UsedBy;
    FirstPassLedger(rows, idx, rzp, order);
    var st := FirstPass(rows, idx, rzp, order);
    LedgerSets(idx, st.results, st.used, st.resolved);
    forall s
      ensures s in st.used <==> s in Taken(rows, idx, rzp)
      ensures ClaimResult(rows, idx, rzp, s).Some? ==> s in order
    {
      ClaimedIsGrouped(rows, idx, rzp, order, claims, s);
      TakenMember(rows, idx, rzp, order, st.results, s);
    }
    SameElements(st.used, Taken(rows, idx, rzp));
  }

  lemma ClaimedIsGrouped(rows: seq<ReconRow>, idx: Index, rzp: seq<Line>, order: seq<int>, claims: map<int, seq<Line>>,
                         s: int)
    requires ValidIndex(rows, idx) && Grouped(idx, rzp, order, claims)
    ensures ClaimResult(rows, idx, rzp, s).Some? ==> s in order
  {
    hide ValidIndex, MakeResult, Claims;
    assert s !in claims ==> Claims(idx, rzp, s) == [];
  }

  lemma TakenMember(rows: seq<ReconRow>, idx: Index, rzp: seq<Line>, order: seq<int>, results: seq<Result>, s: int)
    requires ValidIndex(rows, idx) && (ClaimResult(rows, idx, rzp, s).Some? ==> s in order)
    requires forall r :: r in results ==> exists t :: t in order && ClaimResult(rows, idx, rzp, t) == Some(r)
    requires forall t :: t in order && ClaimResult(rows, idx, rzp, t).Some? ==>
               ClaimResult(rows, idx, rzp, t).value in results
    ensures s in UsedBy(results) <==> s in Taken(rows, idx, rzp)
  {
    hide ValidIndex, ClaimResult, UsedBy, WellMade, UtrSid;
    UsedByMember(results, s);
    if s in UsedBy(results) {
      var r :| r in results && s in r.sids;
      var t :| t in order && ClaimResult(rows, idx, rzp, t) == Some(r);
      ClaimFacts(rows, idx, rzp, t);
      assert s == t;
      ListedClaim(rows, idx, rzp, s);
    }
    if s in Taken(rows, idx, rzp) {
      ClaimFacts(rows, idx, rzp, s);
      assert s in ClaimResult(rows, idx, rzp, s).value.sids;
    }
  }

  lemma ListedClaim(rows: seq<ReconRow>, idx: Index, rzp: seq<Line>, s: int)
    requires ValidIndex(rows, idx) && ClaimResult(rows, idx, rzp, s).Some?
    ensures s in idx.sids
  {
    hide ValidIndex, ClaimResult;
    ClaimFacts(rows, idx, rzp, s);
    IndexFacts(rows, idx);
    assert s in ClaimResult(rows, idx, rzp, s).value.sids;
  }

  /** The first pass names each settlement once and resolves the keys of its claims. */
  lemma FirstPassNeverRepeats(rows: seq<ReconRow>, idx: Index, rzp: seq<Line>, results: seq<Result>)
    requires ValidIndex(rows, idx) && forall r :: r in results <==> IsFirstPass(rows, idx, rzp, r)
    ensures NeverRepeats(results) && KeysOf(results) == TakenKeys(rows, idx, rzp)
  {
    hide ValidIndex, ClaimResult, WellMade, UtrSid;
    forall r | r in results
      ensures NoRepeats(r.sids) && r.key in TakenKeys(rows, idx, rzp)
    {
      assert IsFirstPass(rows, idx, rzp, r);
      var s :| ClaimResult(rows, idx, rzp, s) == Some(r);
      ClaimFacts(rows, idx, rzp, s);
      ListedClaim(rows, idx, rzp, s);
      assert s in Taken(rows, idx, rzp);
    }
    forall k | k in TakenKeys(rows, idx, rzp)
      ensures k in KeysOf(results)
    {
      var s :| s in Taken(rows, idx, rzp) && ClaimResult(rows, idx, rzp, s).value.key == k;
      assert IsFirstPass(rows, idx, rzp, ClaimResult(rows, idx, rzp, s).value);
    }
    SameElements(KeysOf(results), TakenKeys(rows, idx, rzp));
  }

  /** The condition on a report under which no run can name a settlement twice. */
  lemma AscendingNeverRepeats(rows: seq<ReconRow>, idx: Index, rzp: seq<Line>, taken: set<int>, r: Result)
    requires ValidIndex(rows, idx) && AscendingReport(idx)
    requires IsFirstPass(rows, idx, rzp, r) || IsSecondPass(rows, idx, rzp, taken, r)
    ensures NoRepeats(r.sids)
  {
    hide ValidIndex, MakeResult, Select, ClaimResult;
    if IsFirstPass(rows, idx, rzp, r) {
      var s :| ClaimResult(rows, idx, rzp, s) == Some(r);
      ClaimFacts(rows, idx, rzp, s);
    } else {
      var l, used :| l in rzp && taken <= used && Select(idx, l, used).Chosen?
        && MakeResult(rows, idx, l, Select(idx, l, used).sids) == Some(r) && r.residual == 0;
      ChosenBalances(rows, idx, l, used);
      ChosenRepeatsExactlyWhenInverted(rows, idx, l, used);
      AscendingNotInverted(idx, l, used);
    }
  }

  lemma AscendingNotInverted(idx: Index, l: Line, used: set<int>)
    requires AscendingReport(idx)
    ensures !Inverted(ItemsOf(idx, Terms(idx, l, used)), l.amount)
  {
    hide IsTerm;
    var less := (a: int, b: int) => a < b;
    assert Pairwise(idx.sids, less);
    FilterPairwise(idx.sids, (s: int) => IsTerm(idx, l, used, s), less);
    assert Pairwise(Terms(idx, l, used), less);
  }

  ghost predicate Resolves(results: seq<Result>, l: Line, s: int) {
    exists r :: r in results && r.key == l.key && r.sids == [s]
  }

  /** A credit that alone points at a settlement is reconciled to it if and only if it is within 100 paise. */
  ghost predicate SoleClaimsResolve(idx: Index, rzp: seq<Line>, results: seq<Result>) {
    forall i, s :: 0 <= i < |rzp| && SoleClaim(idx, rzp, i, s) ==>
      (Resolves(results, rzp[i], s) <==> -100 <= rzp[i].amount - NetAt(idx, s) <= 100)
  }

  lemma SoleClaimResolves(rows: seq<ReconRow>, idx: Index, rzp: seq<Line>, results: seq<Result>, i: nat, s: int)
    requires ValidIndex(rows, idx) && KeyedLines(rzp) && i < |rzp| && SoleClaim(idx, rzp, i, s)
    requires FromPasses(rows, idx, rzp, results)
    ensures Resolves(results, rzp[i], s) <==> -100 <= rzp[i].amount - NetAt(idx, s) <= 100
  {
    hide ValidIndex, ClaimResult, Select, MakeResult, SoleClaim, NetAt;
    SoleClaimMadeExactlyWhen(rows, idx, rzp, i, s);
    if ClaimResult(rows, idx, rzp, s).Some? {
      var r := ClaimResult(rows, idx, rzp, s).value;
      assert IsFirstPass(rows, idx, rzp, r);
      assert r in results;
    }
    if Resolves(results, rzp[i], s) {
      var r :| r in results && r.key == rzp[i].key && r.sids == [s];
      ResultWithinDrift(rows, idx, rzp, r, rzp[i]);
      NetSumOfOne(idx, s);
    }
  }

  lemma AllSoleClaimsResolve(rows: seq<ReconRow>, idx: Index, rzp: seq<Line>, results: seq<Result>)
    requires ValidIndex(rows, idx) && KeyedLines(rzp) && FromPasses(rows, idx, rzp, results)
    ensures SoleClaimsResolve(idx, rzp, results)
  {
    hide ValidIndex, FromPasses, SoleClaim, Resolves, NetAt, KeyedLines;
    forall i, s | 0 <= i < |rzp| && SoleClaim(idx, rzp, i, s)
      ensures Resolves(results, rzp[i], s) <==> -100 <= rzp[i].amount - NetAt(idx, s) <= 100
    {
      SoleClaimResolves(rows, idx, rzp, results, i, s);
    }
  }

  /** A credit of a settlement that several credits claim is left unresolved. */
  lemma HeldStayUnresolved(rows: seq<ReconRow>, idx: Index, rzp: seq<Line>, first: Run, st: Run)
    requires ValidIndex(rows, idx) && KeyedLines(rzp) && first.resolved == KeysOf(first.results)
    requires forall r :: r in first.results ==> IsFirstPass(rows, idx, rzp, r)
    requires st == SecondPass(rows, idx, Held(idx, rzp), first, rzp)
    ensures st.resolved !! Held(idx, rzp)
  {
    hide ValidIndex, ClaimResult, SecondPass, Claims, UtrSid, WellMade;
    forall k | k in Held(idx, rzp)
      ensures k !in first.resolved
    {
      var l :| l in rzp && UtrSid(idx, l.utrs).Some? && |Claims(idx, rzp, UtrSid(idx, l.utrs).value)| > 1 && l.key == k;
      forall r | r in first.results
        ensures r.key != k
      {
        var s :| ClaimResult(rows, idx, rzp, s) == Some(r);
        ClaimFacts(rows, idx, rzp, s);
        OneClaim(rows, idx, rzp, s);
      }
    }
    HeldNeverAct(rows, idx, Held(idx, rzp), first, rzp);
  }

  /** Credits that point at one settlement are both left unresolved, and recorded as duplicates. */
  ghost predicate CollisionsHeld(idx: Index, rzp: seq<Line>, results: seq<Result>, split: set<int>) {
    forall i, j :: 0 <= i < |rzp| && 0 <= j < |rzp| && Collide(idx, rzp, i, j) ==>
      rzp[i].key !in KeysOf(results) && rzp[i].key in split
  }

  lemma CollisionsAreHeld(idx: Index, rzp: seq<Line>, results: seq<Result>, split: set<int>)
    requires KeysOf(results) !! Held(idx, rzp) && Held(idx, rzp) <= split
    ensures CollisionsHeld(idx, rzp, results, split)
  {
    hide Collide, KeysOf, Held;
    forall i, j | 0 <= i < |rzp| && 0 <= j < |rzp| && Collide(idx, rzp, i, j)
      ensures rzp[i].key in Held(idx, rzp)
    {
      HeldExactly(idx, rzp, rzp[i].key);
    }
  }

  /** An unresolved credit that points at a settlement is split when it is short of the net, and otherwise
      unbalanced by exactly what it has too much. */
  ghost predicate ShortOrOver(idx: Index, left: seq<Line>, split: set<int>, unbalanced: map<int, int>) {
    forall l, s :: l in left && UtrSid(idx, l.utrs) == Some(s) ==>
      if l.amount < NetAt(idx, s) then l.key in split
      else l.key in unbalanced && unbalanced[l.key] == l.amount - NetAt(idx, s)
  }

  lemma ClassifiedIsShortOrOver(idx: Index, left: seq<Line>, held: set<int>, split: set<int>, unbalanced: map<int, int>)
    requires Classified(idx, left, held, split, unbalanced)
    ensures ShortOrOver(idx, left, split, unbalanced)
  {
    hide UtrSid, NetAt;
    forall l, s | l in left && UtrSid(idx, l.utrs) == Some(s)
      ensures if l.amount < NetAt(idx, s) then l.key in split
              else l.key in unbalanced && unbalanced[l.key] == l.amount - NetAt(idx, s)
    {
      assert FallsShort(idx, l) || Overruns(idx, l);
    }
  }

  lemma ClassifiedHolds(idx: Index, lines: seq<Line>, held: set<int>, split: set<int>, unbalanced: map<int, int>)
    requires Classified(idx, lines, held, split, unbalanced)
    ensures held <= split
  {
    hide FallsShort, Overruns;
    forall k | k in held
      ensures k in split
    {
    }
  }

  lemma OneClaim(rows: seq<ReconRow>, idx: Index, rzp: seq<Line>, s: int)
    requires ValidIndex(rows, idx) && ClaimResult(rows, idx, rzp, s).Some?
    ensures |Claims(idx, rzp, s)| == 1
  {
  }

  lemma {:induction false} HeldNeverAct(rows: seq<ReconRow>, idx: Index, held: set<int>, st0: Run, lines: seq<Line>)
    requires ValidIndex(rows, idx) && st0.resolved !! held
    ensures SecondPass(rows, idx, held, st0, lines).resolved !! held
  {
    hide ValidIndex, Select, MakeResult;
    if lines != [] {
      var n := |lines| - 1;
      HeldNeverAct(rows, idx, held, st0, lines[..n]);
      var mid := SecondPass(rows, idx, held, st0, lines[..n]);
      if lines[n].key !in held && Select(idx, lines[n], mid.used).Chosen? {
        ChosenBalances(rows, idx, lines[n], mid.used);
      }
    }
  }

  /** Every result is within the drift of its own credit. */
  lemma ResultWithinDrift(rows: seq<ReconRow>, idx: Index, rzp: seq<Line>, r: Result, l: Line)
    requires ValidIndex(rows, idx) && KeyedLines(rzp) && l in rzp && r.key == l.key
    requires IsFirstPass(rows, idx, rzp, r) || IsSecondPass(rows, idx, rzp, Taken(rows, idx, rzp), r)
    ensures -100 <= l.amount - NetSum(idx, r.sids) <= 100
  {
    hide ValidIndex, ClaimResult, Select, MakeResult, NetSum, Taken;
    if IsFirstPass(rows, idx, rzp, r) {
      var s :| ClaimResult(rows, idx, rzp, s) == Some(r);
      ClaimFacts(rows, idx, rzp, s);
    } else {
      var l', used :| l' in rzp && Taken(rows, idx, rzp) <= used && Select(idx, l', used).Chosen?
        && MakeResult(rows, idx, l', Select(idx, l', used).sids) == Some(r) && r.residual == 0;
      MadeExactlyWhen(rows, idx, l', Select(idx, l', used).sids);
    }
  }

  /** `reconcile`: the balanced results, the keys left unresolved, and the index with what it recorded. */
  method ReconcileCredits(rows: seq<ReconRow>, rzp: seq<Line>)
    returns (results: seq<Result>, unresolved: seq<int>, index: SettlementIndex)
    requires KeyedLines(rzp)
    ensures fresh(index) && index.rows == rows && ValidIndex(rows, index.idx)
    ensures Ledger(index.idx, results, UsedBy(results), KeysOf(results))
    ensures FromPasses(rows, index.idx, rzp, results) && LeftOverIsExplained(rows, index.idx, rzp, results)
    ensures SoleClaimsResolve(index.idx, rzp, results)
    ensures CollisionsHeld(index.idx, rzp, results, index.duplicateOrSplit)
    ensures unresolved == KeysOfLines(Filter(rzp, (l: Line) => l.key !in KeysOf(results)))
    ensures IsRun(rows, index.idx, rzp, results) && SortedBy(results, InPlace(rzp))
    ensures Classified(index.idx, Filter(rzp, (l: Line) => l.key !in KeysOf(results)), Held(index.idx, rzp),
                       index.duplicateOrSplit, index.unbalanced)
    ensures ShortOrOver(index.idx, Filter(rzp, (l: Line) => l.key !in KeysOf(results)), index.duplicateOrSplit,
                        index.unbalanced)
    ensures index.uncredited == AsSet(index.idx.sids) - UsedBy(results) && index.unEnumerable == {}
    ensures NetSum(index.idx, index.idx.sids) <= CoveredTotal(results)
              + NetSum(index.idx, Uncredited(index.idx, UsedBy(results)))
    ensures NetSum(index.idx, index.idx.sids) == CoveredTotal(results)
              + NetSum(index.idx, Uncredited(index.idx, UsedBy(results)))
            <==> !Doubles(rows, index.idx, rzp)
    ensures NeverRepeats(results) <==> !Doubles(rows, index.idx, rzp)
    ensures AscendingReport(index.idx) ==> NeverRepeats(results)
  {
    hide Grouped, FirstPass, SecondPass, Ledger, Classified, Filter, Held, ValidIndex, NoChoice, IsSecondPass,
         IsFirstPass, Sort,
         InPlace, UsedBy, NetSum, Taken, CoveredTotal, SortedBy, TotalPreorder, KeyedLines, KeysOf, NoRepeats,
         Uncredited, AsSet,
         TakenKeys, SomeTurnDoubles, SoleClaimsResolve, CollisionsHeld, ShortOrOver;
    index := new SettlementIndex(rows);
    ghost var idx := index.idx;
    var order, claims := GroupClaims(index.idx, rzp);
    var first := ResolveClaims(index, rzp, order, claims);
    assert index.duplicateOrSplit == Held(idx, rzp);
    TakenIsUsed(rows, idx, rzp, order, claims);
    var st := ResolveAmounts(index, rzp, first);
    SecondPassLedger(rows, idx, index.duplicateOrSplit, first, rzp);
    LedgerSets(idx, first.results, first.used, first.resolved);
    FirstPassNeverRepeats(rows, idx, rzp, first.results);
    SecondPassRepeats(rows, idx, index.duplicateOrSplit, first, rzp);
    var resolved := st.resolved;
    LedgerSets(idx, st.results, st.used, st.resolved);
    var left := Filter(rzp, (l: Line) => l.key !in resolved);
    KeyedSub(rzp, left);
    Classify(index, left);
    index.uncredited := AsSet(index.idx.sids) - st.used;
    unresolved := KeysOfLines(left);
    results := Sort(st.results, InPlace(rzp));
    LedgerSorted(idx, st.results, st.used, st.resolved, InPlace(rzp));
    LedgerSets(idx, results, st.used, st.resolved);
    SortMembers(st.results, InPlace(rzp));
    InPlaceIsTotal(rzp);
    SortSorted(st.results, InPlace(rzp));
    AllSoleClaimsResolve(rows, idx, rzp, results);
    HeldStayUnresolved(rows, idx, rzp, first, st);
    ClassifiedHolds(idx, left, Held(idx, rzp), index.duplicateOrSplit, index.unbalanced);
    CollisionsAreHeld(idx, rzp, results, index.duplicateOrSplit);
    ClassifiedIsShortOrOver(idx, left, Held(idx, rzp), index.duplicateOrSplit, index.unbalanced);
    NetIsConserved(rows, idx, results, st.used, st.resolved);
    if AscendingReport(idx) {
      forall r | r in results
        ensures NoRepeats(r.sids)
      {
        AscendingNeverRepeats(rows, idx, rzp, Taken(rows, idx, rzp), r);
      }
    }
  }

  lemma LedgerSets(idx: Index, results: seq<Result>, used: set<int>, resolved: set<int>)
    requires Ledger(idx, results, used, resolved)
    ensures used == UsedBy(results) && resolved == KeysOf(results)
  {
  }

  lemma KeyedSub(rzp: seq<Line>, left: seq<Line>)
    requires KeyedLines(rzp) && forall l :: l in left ==> l in rzp
    ensures KeyedLines(left)
  {
  }
}
