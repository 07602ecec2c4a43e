/** When the order of the attributions decides the second pass, and when it does not. */
module SecondPassOrder {
  import opened Options
  import opened Sequences
  import opened SettlementGroups
  import opened Reconcile
  import opened ReconcileRun
  import opened TwoPass
  import opened Reconciliation
  import opened PlainReports

  // ----- Two credits that compete

  const FIRST := Line(1, 100, 0, [])
  const SECOND := Line(2, 100, 0, [])

  lemma OnlySettlement(idx: Index, l: Line, used: set<int>)
    requires ValidIndex(PlainRows([1], [100]), idx) && (l == FIRST || l == SECOND)
    ensures Select(idx, l, used) == if 1 in used then Nothing else Chosen([1])
  {
    hide ValidIndex, Filter, AsSet;
    PlainIndex([1], [100], idx);
    assert [1][0] in idx.net;
    IndexedByNet(PlainRows([1], [100]), idx, 100);
    FilterOne(1, (s: int) => s in idx.net && idx.net[s] == 100);
    FilterOne(1, (s: int) => s !in used && WithinWindow(idx, s, l));
    FilterNone([1], (s: int) => IsTerm(idx, l, used, s));
    var singles := Singles(idx, l, used);
    assert singles == if 1 in used then [] else [1];
    assert Wrap(singles) + [] == if 1 in used then [] else [[1]];
    assert [[1]][1..] == [];
  }

  /** The concrete case: of two credits that one settlement makes, whichever comes first is resolved. */
  lemma FirstComeFirstServed(idx: Index)
    requires ValidIndex(PlainRows([1], [100]), idx)
    ensures TurnAfter(idx, {}, Turn({}, {}), [FIRST, SECOND]) == Turn({1}, {1})
    ensures TurnAfter(idx, {}, Turn({}, {}), [SECOND, FIRST]) == Turn({1}, {2})
  {
    hide ValidIndex, Select;
    TwoTurns(idx, FIRST, SECOND);
    TwoTurns(idx, SECOND, FIRST);
  }

  lemma TwoTurns(idx: Index, a: Line, b: Line)
    requires ValidIndex(PlainRows([1], [100]), idx)
    requires (a == FIRST && b == SECOND) || (a == SECOND && b == FIRST)
    ensures TurnAfter(idx, {}, Turn({}, {}), [a, b]) == Turn({1}, {a.key})
  {
    hide ValidIndex, Select;
    OnlySettlement(idx, a, {});
    OnlySettlement(idx, b, {1});
    assert [a, b][..1] == [a] && [a][..0] == [];
    assert AsSet([1]) == {1};
    assert {} + {1} == {1} && {} + {a.key} == {a.key};
    assert TurnAfter(idx, {}, Turn({}, {}), [a]) == Turn({1}, {a.key});
  }

  // ----- Credits that do not

  /** A settlement that could serve the credit alone or as a term. */
  predicate Wants(idx: Index, l: Line, s: int) {
    s in idx.net && WithinWindow(idx, s, l) && (idx.net[s] == l.amount || 0 < idx.net[s] < l.amount)
  }

  /** A choice depends only on which of the settlements the credit wants are used. */
  lemma SelectSame(rows: seq<ReconRow>, idx: Index, l: Line, used: set<int>, used': set<int>)
    requires ValidIndex(rows, idx) && forall s :: Wants(idx, l, s) ==> (s in used <==> s in used')
    ensures Select(idx, l, used) == Select(idx, l, used')
  {
    hide ValidIndex, Filter, SetSum, KeepNew;
    IndexedByNet(rows, idx, l.amount);
    forall s | s in ByNet(idx, l.amount)
      ensures s !in used && WithinWindow(idx, s, l) <==> s !in used' && WithinWindow(idx, s, l)
    {
      assert WithinWindow(idx, s, l) ==> Wants(idx, l, s);
    }
    FilterSame(ByNet(idx, l.amount), (s: int) => s !in used && WithinWindow(idx, s, l),
               (s: int) => s !in used' && WithinWindow(idx, s, l));
    forall s
      ensures IsTerm(idx, l, used, s) <==> IsTerm(idx, l, used', s)
    {
      assert IsTerm(idx, l, used, s) || IsTerm(idx, l, used', s) ==> Wants(idx, l, s);
    }
    FilterSame(idx.sids, (s: int) => IsTerm(idx, l, used, s), (s: int) => IsTerm(idx, l, used', s));
  }

  /** The credit has a turn in the second pass. */
  predicate Open(held: set<int>, start: Turn, l: Line) {
    l.key !in start.resolved && l.key !in held
  }

  /** The credit is served from what is unused at the start, and `s` is one of its settlements. */
  predicate Serves(idx: Index, held: set<int>, start: Turn, a: Line, s: int) {
    Acts(idx, held, start, a) && s in Select(idx, a, start.used).sids
  }

  /** No settlement that serves one credit is wanted by another. */
  ghost predicate Independent(idx: Index, held: set<int>, start: Turn, lines: seq<Line>) {
    forall a, b, s ::
      a in lines && b in lines && a.key != b.key && Serves(idx, held, start, a, s) && Open(held, start, b) ==>
        !Wants(idx, b, s)
  }

  ghost predicate MadeFrom(rows: seq<ReconRow>, idx: Index, held: set<int>, start: Turn, a: Line, r: Result)
    requires ValidIndex(rows, idx)
  {
    Acts(idx, held, start, a) && MakeResult(rows, idx, a, Select(idx, a, start.used).sids) == Some(r)
  }

  /** Each credit is served as if it were alone: what the pass records names the lines but not their order. */
  ghost predicate ServedAlone(rows: seq<ReconRow>, idx: Index, held: set<int>, st0: Run, lines: seq<Line>, st: Run)
    requires ValidIndex(rows, idx)
  {
    var start := Turn(st0.used, st0.resolved);
    && (forall s :: s in st.used <==> s in st0.used || exists a :: a in lines && Serves(idx, held, start, a, s))
    && (forall k :: k in st.resolved <==>
          k in st0.resolved || exists a :: a in lines && Acts(idx, held, start, a) && a.key == k)
    && (forall k :: k in st.ambiguous <==>
          k in st0.ambiguous || exists a :: a in lines && Undecided(idx, held, start, a) && a.key == k)
    && (forall r :: r in st.results <==>
          r in st0.results || exists a :: a in lines && MadeFrom(rows, idx, held, start, a, r))
  }

  predicate Undecided(idx: Index, held: set<int>, start: Turn, a: Line) {
    Open(held, start, a) && Select(idx, a, start.used).Ambiguous?
  }

  lemma {:induction false} EachIsServedAlone(rows: seq<ReconRow>, idx: Index, held: set<int>, st0: Run,
                                             lines: seq<Line>)
    requires ValidIndex(rows, idx) && KeyedLines(lines)
    requires Independent(idx, held, Turn(st0.used, st0.resolved), lines)
    ensures ServedAlone(rows, idx, held, st0, lines, SecondPass(rows, idx, held, st0, lines))
  {
    hide ValidIndex, Acts, Serves, MadeFrom, Undecided, Attempt, Wants, Open;
    if lines == [] {
      NobodyServed(rows, idx, held, st0);
    } else {
      var n := |lines| - 1;
      var front, l := lines[..n], lines[n];
      assert lines == front + [l];
      EachIsServedAlone(rows, idx, held, st0, front);
      NextIsServedAlone(rows, idx, held, st0, front, l, SecondPass(rows, idx, held, st0, front));
    }
  }

  lemma NobodyServed(rows: seq<ReconRow>, idx: Index, held: set<int>, st0: Run)
    requires ValidIndex(rows, idx)
    ensures ServedAlone(rows, idx, held, st0, [], st0)
  {
  }

  /** The turn finds what the credit wants as it was at the start. */
  lemma TurnSelects(rows: seq<ReconRow>, idx: Index, held: set<int>, st0: Run, front: seq<Line>, l: Line, mid: Run)
    requires ValidIndex(rows, idx) && Independent(idx, held, Turn(st0.used, st0.resolved), front + [l])
    requires ServedAlone(rows, idx, held, st0, front, mid) && Open(held, Turn(st0.used, st0.resolved), l)
    requires l.key !in mid.resolved
    ensures Select(idx, l, mid.used) == Select(idx, l, st0.used)
  {
    hide ValidIndex, Acts, MadeFrom, Undecided, Wants, Open, Select;
    var start := Turn(st0.used, st0.resolved);
    forall s
      ensures (exists a :: a in front && Serves(idx, held, start, a, s)) ==> !Wants(idx, l, s)
    {
      if a :| a in front && Serves(idx, held, start, a, s) {
        assert a in front + [l] && l in front + [l];
        assert a.key in mid.resolved;
      }
    }
    SelectSame(rows, idx, l, mid.used, st0.used);
  }

  lemma NextIsServedAlone(rows: seq<ReconRow>, idx: Index, held: set<int>, st0: Run, front: seq<Line>, l: Line,
                          mid: Run)
    requires ValidIndex(rows, idx) && KeyedLines(front + [l])
    requires Independent(idx, held, Turn(st0.used, st0.resolved), front + [l])
    requires ServedAlone(rows, idx, held, st0, front, mid)
    ensures ServedAlone(rows, idx, held, st0, front + [l], Attempt(rows, idx, held, mid, l))
  {
    hide ValidIndex, Select, Wants, ServedAlone, Attempt, Independent, KeyedLines;
    if Open(held, Turn(st0.used, st0.resolved), l) && l.key !in mid.resolved {
      TurnSelects(rows, idx, held, st0, front, l, mid);
      TurnIsServedAlone(rows, idx, held, st0, front, l, mid);
    } else {
      SkippedIsServedAlone(rows, idx, held, st0, front, l, mid);
    }
  }

  lemma SkippedIsServedAlone(rows: seq<ReconRow>, idx: Index, held: set<int>, st0: Run, front: seq<Line>, l: Line,
                             mid: Run)
    requires ValidIndex(rows, idx) && KeyedLines(front + [l]) && ServedAlone(rows, idx, held, st0, front, mid)
    requires !Open(held, Turn(st0.used, st0.resolved), l) || l.key in mid.resolved
    ensures ServedAlone(rows, idx, held, st0, front + [l], Attempt(rows, idx, held, mid, l))
  {
    hide ValidIndex, Select, MakeResult, Wants;
    var start := Turn(st0.used, st0.resolved);
    var lines := front + [l];
    assert forall a :: a in lines <==> a in front || a == l;
    if Open(held, start, l) {
      var a :| a in front && Acts(idx, held, start, a) && a.key == l.key;
      assert a in lines && l in lines;
      assert a == l;
    }
  }

  lemma TurnIsServedAlone(rows: seq<ReconRow>, idx: Index, held: set<int>, st0: Run, front: seq<Line>, l: Line,
                          mid: Run)
    requires ValidIndex(rows, idx) && ServedAlone(rows, idx, held, st0, front, mid)
    requires Open(held, Turn(st0.used, st0.resolved), l) && l.key !in mid.resolved
    requires Select(idx, l, mid.used) == Select(idx, l, st0.used)
    ensures ServedAlone(rows, idx, held, st0, front + [l], Attempt(rows, idx, held, mid, l))
  {
    hide ValidIndex, Select, MakeResult, Wants;
    assert forall a :: a in front + [l] <==> a in front || a == l;
    NeverUnenumerable(rows, idx, l, st0.used);
    if Select(idx, l, st0.used).Chosen? {
      ChosenBalances(rows, idx, l, st0.used);
    }
  }

  /** Without such competition the second pass serves the same credits with the same settlements in any
      order of the attributions. */
  lemma SecondPassIsOrderFree(rows: seq<ReconRow>, idx: Index, held: set<int>, st0: Run, st0': Run,
                              lines: seq<Line>, lines': seq<Line>)
    requires ValidIndex(rows, idx) && KeyedLines(lines) && multiset(lines) == multiset(lines')
    requires Independent(idx, held, Turn(st0.used, st0.resolved), lines)
    requires st0'.used == st0.used && st0'.resolved == st0.resolved && st0'.ambiguous == st0.ambiguous
    requires forall r :: r in st0'.results <==> r in st0.results
    ensures var st, st' := SecondPass(rows, idx, held, st0, lines), SecondPass(rows, idx, held, st0', lines');
            && st.used == st'.used && st.resolved == st'.resolved && st.ambiguous == st'.ambiguous
            && forall r :: r in st.results <==> r in st'.results
  {
    hide ValidIndex, SecondPass, Acts, Serves, MadeFrom, Undecided, Wants, Open;
    assert forall l :: l in lines <==> l in multiset(lines);
    assert forall l :: l in lines' <==> l in multiset(lines');
    EachIsServedAlone(rows, idx, held, st0, lines);
    EachIsServedAlone(rows, idx, held, st0', lines');
    var st, st' := SecondPass(rows, idx, held, st0, lines), SecondPass(rows, idx, held, st0', lines');
    SameElements(st.used, st'.used);
    SameElements(st.resolved, st'.resolved);
    SameElements(st.ambiguous, st'.ambiguous);
  }

  /** Two runs over the same credits in different orders reach the same results, unless a settlement that
      serves one credit after the first pass is wanted by another. */
  lemma RunIsOrderFree(rows: seq<ReconRow>, idx: Index, rzp: seq<Line>, rzp': seq<Line>, results: seq<Result>,
                       results': seq<Result>, r: Result)
    requires ValidIndex(rows, idx) && KeyedLines(rzp) && multiset(rzp) == multiset(rzp')
    requires Independent(idx, Held(idx, rzp), Turn(Taken(rows, idx, rzp), TakenKeys(rows, idx, rzp)), rzp)
    requires IsRun(rows, idx, rzp, results) && IsRun(rows, idx, rzp', results')
    ensures r in results <==> r in results'
  {
    hide ValidIndex, SecondPass, FirstPass, Held, Taken, TakenKeys, Grouped, Independent, Ledger, IsFirstPass, UsedBy,
         KeysOf;
    var order, claims :| Grouped(idx, rzp, order, claims) && multiset(results)
      == multiset(SecondPass(rows, idx, Held(idx, rzp), FirstPass(rows, idx, rzp, order), rzp).results);
    var order', claims' :| Grouped(idx, rzp', order', claims') && multiset(results')
      == multiset(SecondPass(rows, idx, Held(idx, rzp'), FirstPass(rows, idx, rzp', order'), rzp').results);
    var st0, st0' := FirstPass(rows, idx, rzp, order), FirstPass(rows, idx, rzp', order');
    SameLines(rzp, rzp');
    FirstPassStart(rows, idx, rzp, order, claims);
    FirstPassStart(rows, idx, rzp', order', claims');
    FirstPassSame(rows, idx, rzp, rzp');
    SecondPassIsOrderFree(rows, idx, Held(idx, rzp), st0, st0', rzp, rzp');
    assert r in results <==> r in multiset(results);
    assert r in results' <==> r in multiset(results');
    var st, st' := SecondPass(rows, idx, Held(idx, rzp), st0, rzp), SecondPass(rows, idx, Held(idx, rzp'), st0', rzp');
    assert r in st.results <==> r in multiset(st.results);
    assert r in st'.results <==> r in multiset(st'.results);
  }

  lemma SameLines(rzp: seq<Line>, rzp': seq<Line>)
    requires multiset(rzp) == multiset(rzp') && KeyedLines(rzp)
    ensures KeyedLines(rzp')
  {
    assert forall l :: l in rzp <==> l in multiset(rzp);
    assert forall l :: l in rzp' <==> l in multiset(rzp');
  }

  lemma FirstPassStart(rows: seq<ReconRow>, idx: Index, rzp: seq<Line>, order: seq<int>, claims: map<int, seq<Line>>)
    requires ValidIndex(rows, idx) && KeyedLines(rzp) && Grouped(idx, rzp, order, claims)
    ensures var st := FirstPass(rows, idx, rzp, order);
            && st.used == Taken(rows, idx, rzp) && st.resolved == TakenKeys(rows, idx, rzp) && st.ambiguous == {}
            && forall r :: r in st.results <==> IsFirstPass(rows, idx, rzp, r)
  {
    hide ValidIndex, FirstPass, Taken, TakenKeys, Grouped, IsFirstPass, KeysOf, UsedBy;
    TakenIsUsed(rows, idx, rzp, order, claims);
    var st := FirstPass(rows, idx, rzp, order);
    LedgerSets(idx, st.results, st.used, st.resolved);
    FirstPassNeverRepeats(rows, idx, rzp, st.results);
  }

  lemma FirstPassSame(rows: seq<ReconRow>, idx: Index, rzp: seq<Line>, rzp': seq<Line>)
    requires ValidIndex(rows, idx) && multiset(rzp) == multiset(rzp')
    ensures Held(idx, rzp) == Held(idx, rzp') && Taken(rows, idx, rzp) == Taken(rows, idx, rzp')
    ensures TakenKeys(rows, idx, rzp) == TakenKeys(rows, idx, rzp')
    ensures forall r :: IsFirstPass(rows, idx, rzp, r) <==> IsFirstPass(rows, idx, rzp', r)
  {
    hide ValidIndex, MakeResult, Claims, UtrSid, Held;
    FirstPassIsOrderFree(rows, idx, rzp, rzp', Result(0, [], [], 0, 0, 0));
    forall r
      ensures IsFirstPass(rows, idx, rzp, r) <==> IsFirstPass(rows, idx, rzp', r)
    {
      FirstPassIsOrderFree(rows, idx, rzp, rzp', r);
    }
    forall s: int
      ensures ClaimResult(rows, idx, rzp, s) == ClaimResult(rows, idx, rzp', s)
    {
      ClaimsReordered(idx, rzp, rzp', s);
    }
    SameElements(Taken(rows, idx, rzp), Taken(rows, idx, rzp'));
    SameElements(TakenKeys(rows, idx, rzp), TakenKeys(rows, idx, rzp'));
  }
}
