/** The two passes over the Razorpay credits: decisive references first, then amounts and sums. */
module TwoPass {
  import opened Options
  import opened Sequences
  import opened LegacyProperties
  import opened SettlementGroups
  import opened Reconcile
  import opened ReconcileRun

  /** Lines are looked up by key, so equal keys mean one line. */
  ghost predicate KeyedLines(rzp: seq<Line>) {
    forall a, b :: a in rzp && b in rzp && a.key == b.key ==> a == b
  }

  datatype Run = Run(results: seq<Result>, used: set<int>, resolved: set<int>, ambiguous: set<int>,
                     unEnumerable: set<int>)

  const START := Run([], {}, {}, {}, {})

  function Record(st: Run, made: Option<Result>): Run {
    if made.None? then st
    else st.(results := st.results + [made.value], used := st.used + AsSet(made.value.sids),
             resolved := st.resolved + {made.value.key})
  }

  // ----- First pass

  /** The credits whose reference points at the settlement. */
  function Claims(idx: Index, rzp: seq<Line>, s: int): seq<Line> {
    Filter(rzp, (l: Line) => UtrSid(idx, l.utrs) == Some(s))
  }

  /** A settlement claimed by exactly one credit is tried against it. */
  function ClaimResult(rows: seq<ReconRow>, idx: Index, rzp: seq<Line>, s: int): Option<Result>
    requires ValidIndex(rows, idx)
  {
    var c := Claims(idx, rzp, s);
    if |c| == 1 then MakeResult(rows, idx, c[0], [s]) else None
  }

  function FirstPass(rows: seq<ReconRow>, idx: Index, rzp: seq<Line>, order: seq<int>): Run
    requires ValidIndex(rows, idx)
  {
    if order == [] then START
    else Record(FirstPass(rows, idx, rzp, order[..|order| - 1]), ClaimResult(rows, idx, rzp, order[|order| - 1]))
  }

  /** The credits of settlements claimed more than once. */
  function Held(idx: Index, rzp: seq<Line>): set<int> {
    set l | l in rzp && UtrSid(idx, l.utrs).Some? && |Claims(idx, rzp, UtrSid(idx, l.utrs).value)| > 1 :: l.key
  }

  /** Two places of the list point at one settlement. */
  ghost predicate Collide(idx: Index, rzp: seq<Line>, i: nat, j: nat)
    requires i < |rzp| && j < |rzp|
  {
    i != j && UtrSid(idx, rzp[i].utrs).Some? && UtrSid(idx, rzp[i].utrs) == UtrSid(idx, rzp[j].utrs)
  }

  /** Exactly the credits that point where another one does are held. */
  lemma HeldExactly(idx: Index, rzp: seq<Line>, k: int)
    ensures k in Held(idx, rzp)
            <==> exists i, j :: 0 <= i < |rzp| && 0 <= j < |rzp| && Collide(idx, rzp, i, j) && rzp[i].key == k
  {
    hide Claims, UtrSid;
    if k in Held(idx, rzp) {
      var l :| l in rzp && UtrSid(idx, l.utrs).Some? && |Claims(idx, rzp, UtrSid(idx, l.utrs).value)| > 1 && l.key == k;
      var i :| 0 <= i < |rzp| && rzp[i] == l;
      if forall j :: 0 <= j < |rzp| && j != i ==> UtrSid(idx, rzp[j].utrs) != UtrSid(idx, l.utrs) {
        SoleClaimIsOnly(idx, rzp, i, UtrSid(idx, l.utrs).value);
      } else {
        var j :| 0 <= j < |rzp| && j != i && UtrSid(idx, rzp[j].utrs) == UtrSid(idx, l.utrs);
        assert Collide(idx, rzp, i, j);
      }
    }
    if i, j :| 0 <= i < |rzp| && 0 <= j < |rzp| && Collide(idx, rzp, i, j) && rzp[i].key == k {
      TwoClaims(idx, rzp, i, j);
      assert rzp[i] in rzp;
    }
  }

  lemma TwoClaims(idx: Index, rzp: seq<Line>, i: nat, j: nat)
    requires i < |rzp| && j < |rzp| && Collide(idx, rzp, i, j)
    ensures |Claims(idx, rzp, UtrSid(idx, rzp[i].utrs).value)| > 1
  {
    hide Filter, UtrSid;
    var s, a, b := UtrSid(idx, rzp[i].utrs).value, if i < j then i else j, if i < j then j else i;
    var keep := (l: Line) => UtrSid(idx, l.utrs) == Some(s);
    assert rzp == rzp[..a] + ([rzp[a]] + rzp[a + 1..]);
    assert rzp[a + 1..] == rzp[a + 1..b] + ([rzp[b]] + rzp[b + 1..]);
    FilterConcat(rzp[..a], [rzp[a]] + rzp[a + 1..], keep);
    FilterConcat([rzp[a]], rzp[a + 1..], keep);
    FilterConcat(rzp[a + 1..b], [rzp[b]] + rzp[b + 1..], keep);
    FilterConcat([rzp[b]], rzp[b + 1..], keep);
    FilterOne(rzp[a], keep);
    FilterOne(rzp[b], keep);
  }

  ghost predicate IsFirstPass(rows: seq<ReconRow>, idx: Index, rzp: seq<Line>, r: Result)
    requires ValidIndex(rows, idx)
  {
    exists s :: ClaimResult(rows, idx, rzp, s) == Some(r)
  }

  lemma {:induction false} SidOfUtrIsListed(rows: seq<ReconRow>, u: string)
    ensures SidOfUtr(rows, u).Some? ==> PositionsOf(rows, SidOfUtr(rows, u).value) != []
  {
    if rows != [] {
      SidOfUtrIsListed(rows[..|rows| - 1], u);
    }
  }

  lemma {:induction false} UtrSidIsListed(rows: seq<ReconRow>, idx: Index, utrs: seq<string>)
    requires ValidIndex(rows, idx)
    ensures UtrSid(idx, utrs).Some? ==> UtrSid(idx, utrs).value in idx.net
  {
    hide WithNet, PositionsOf, DateOf, NetOf, SidOfUtr;
    if utrs != [] {
      UtrSidIsListed(rows, idx, utrs[1..]);
      SidOfUtrIsListed(rows, utrs[0]);
      assert Find(idx.utr, utrs[0]) == SidOfUtr(rows, utrs[0]);
      if utrs[0] in idx.utr {
        var s := idx.utr[utrs[0]];
        assert PositionsOf(rows, s) != [];
        assert s in idx.rowsBySid;
        assert s in idx.sids;
      }
    }
  }

  /** What a first-pass result is: one credit, alone in claiming one settlement, within the drift. */
  lemma ClaimFacts(rows: seq<ReconRow>, idx: Index, rzp: seq<Line>, s: int)
    requires ValidIndex(rows, idx) && ClaimResult(rows, idx, rzp, s).Some?
    ensures var r := ClaimResult(rows, idx, rzp, s).value;
            && WellMade(idx, r) && r.sids == [s]
            && exists l :: l in rzp && l.key == r.key && l.amount == r.amount && UtrSid(idx, l.utrs) == Some(s)
  {
    hide ValidIndex, MakeResult, WellMade, UtrSid;
    var l := Claims(idx, rzp, s)[0];
    assert l in Claims(idx, rzp, s);
    UtrSidIsListed(rows, idx, l.utrs);
    MadeIsWellMade(rows, idx, l, [s]);
  }

  /** The `i`-th credit is the only one whose reference points at the settlement. */
  ghost predicate SoleClaim(idx: Index, rzp: seq<Line>, i: nat, s: int)
    requires i < |rzp|
  {
    && UtrSid(idx, rzp[i].utrs) == Some(s)
    && forall j :: 0 <= j < |rzp| && j != i ==> UtrSid(idx, rzp[j].utrs) != Some(s)
  }

  lemma SoleClaimIsOnly(idx: Index, rzp: seq<Line>, i: nat, s: int)
    requires i < |rzp| && SoleClaim(idx, rzp, i, s)
    ensures Claims(idx, rzp, s) == [rzp[i]]
  {
    hide Filter, UtrSid;
    var keep := (l: Line) => UtrSid(idx, l.utrs) == Some(s);
    FilterStep(rzp, i, keep);
    assert rzp == rzp[..i] + ([rzp[i]] + rzp[i + 1..]);
    FilterConcat(rzp[..i], [rzp[i]] + rzp[i + 1..], keep);
    FilterConcat([rzp[i]], rzp[i + 1..], keep);
    FilterNone(rzp[..i], keep);
    FilterNone(rzp[i + 1..], keep);
    FilterOne(rzp[i], keep);
  }

  /** A sole claim makes a first-pass result exactly when it is within 100 paise of the settlement's net. */
  lemma SoleClaimMadeExactlyWhen(rows: seq<ReconRow>, idx: Index, rzp: seq<Line>, i: nat, s: int)
    requires ValidIndex(rows, idx) && i < |rzp| && SoleClaim(idx, rzp, i, s)
    ensures ClaimResult(rows, idx, rzp, s).Some? <==> -100 <= rzp[i].amount - NetAt(idx, s) <= 100
    ensures ClaimResult(rows, idx, rzp, s).Some? ==>
              var r := ClaimResult(rows, idx, rzp, s).value;
              r.key == rzp[i].key && r.sids == [s] && r.residual == rzp[i].amount - NetAt(idx, s)
  {
    hide ValidIndex, SoleClaim, MakeResult, NetAt, Claims;
    SoleClaimIsOnly(idx, rzp, i, s);
    MadeExactlyWhen(rows, idx, rzp[i], [s]);
    NetSumOfOne(idx, s);
  }

  lemma {:induction false} FirstPassLedger(rows: seq<ReconRow>, idx: Index, rzp: seq<Line>, order: seq<int>)
    requires ValidIndex(rows, idx) && KeyedLines(rzp) && NoRepeats(order)
    ensures var st := FirstPass(rows, idx, rzp, order);
            && Ledger(idx, st.results, st.used, st.resolved) && st.used <= AsSet(order)
            && (forall r :: r in st.results ==> exists s :: s in order && ClaimResult(rows, idx, rzp, s) == Some(r))
            && (forall s :: s in order && ClaimResult(rows, idx, rzp, s).Some? ==>
                  ClaimResult(rows, idx, rzp, s).value in st.results)
            && st.ambiguous == {} && st.unEnumerable == {}
  {
    hide ValidIndex, ClaimResult, Ledger;
    if order == [] {
      LedgerStart(idx);
    } else {
      var front, s := order[..|order| - 1], order[|order| - 1];
      assert order == front + [s] && s !in front;
      FirstPassLedger(rows, idx, rzp, front);
      var before := FirstPass(rows, idx, rzp, front);
      var made := ClaimResult(rows, idx, rzp, s);
      if made.Some? {
        ClaimFacts(rows, idx, rzp, s);
        ClaimIsNew(rows, idx, rzp, front, s, before);
        LedgerAdd(idx, before.results, before.used, before.resolved, made.value);
        assert AsSet([s]) == {s};
      }
      assert AsSet(front) <= AsSet(order);
    }
  }

  /** A credit points at one settlement, so it cannot have resolved through another. */
  lemma ClaimIsNew(rows: seq<ReconRow>, idx: Index, rzp: seq<Line>, front: seq<int>, s: int, before: Run)
    requires ValidIndex(rows, idx) && KeyedLines(rzp) && s !in front && ClaimResult(rows, idx, rzp, s).Some?
    requires Ledger(idx, before.results, before.used, before.resolved) && before.used <= AsSet(front)
    requires forall r :: r in before.results ==> exists t :: t in front && ClaimResult(rows, idx, rzp, t) == Some(r)
    ensures ClaimResult(rows, idx, rzp, s).value.key !in before.resolved
    ensures AsSet([s]) !! before.used
  {
    hide ValidIndex, ClaimResult, WellMade, UtrSid;
    var k := ClaimResult(rows, idx, rzp, s).value.key;
    ClaimFacts(rows, idx, rzp, s);
    forall r | r in before.results
      ensures r.key != k
    {
      var t :| t in front && ClaimResult(rows, idx, rzp, t) == Some(r);
      ClaimFacts(rows, idx, rzp, t);
    }
  }

  /** Reordering the attributions reorders the claims and nothing else. */
  lemma ClaimsReordered(idx: Index, rzp: seq<Line>, rzp': seq<Line>, s: int)
    requires multiset(rzp) == multiset(rzp')
    ensures multiset(Claims(idx, rzp, s)) == multiset(Claims(idx, rzp', s))
    ensures |Claims(idx, rzp, s)| == |Claims(idx, rzp', s)|
    ensures |Claims(idx, rzp, s)| == 1 ==> Claims(idx, rzp, s) == Claims(idx, rzp', s)
  {
    hide Filter, UtrSid;
    var keep := (l: Line) => UtrSid(idx, l.utrs) == Some(s);
    var a, b := Filter(rzp, keep), Filter(rzp', keep);
    FilterReordered(rzp, rzp', keep);
    SameSize(a, b);
  }

  lemma SameSize<T>(a: seq<T>, b: seq<T>)
    requires multiset(a) == multiset(b)
    ensures |a| == |b| && (|a| == 1 ==> a == b)
  {
    assert |multiset(a)| == |a| && |multiset(b)| == |b|;
    if |a| == 1 {
      assert a[0] in multiset(b);
      assert a == [a[0]] && b == [b[0]];
    }
  }

  /** The results of the first pass do not depend on the order of the attributions. */
  lemma FirstPassIsOrderFree(rows: seq<ReconRow>, idx: Index, rzp: seq<Line>, rzp': seq<Line>, r: Result)
    requires ValidIndex(rows, idx) && multiset(rzp) == multiset(rzp')
    ensures IsFirstPass(rows, idx, rzp, r) <==> IsFirstPass(rows, idx, rzp', r)
    ensures Held(idx, rzp) == Held(idx, rzp')
  {
    hide ValidIndex, MakeResult, Claims, UtrSid;
    forall s: int
      ensures ClaimResult(rows, idx, rzp, s) == ClaimResult(rows, idx, rzp', s)
      ensures |Claims(idx, rzp, s)| == |Claims(idx, rzp', s)|
    {
      ClaimsReordered(idx, rzp, rzp', s);
    }
    assert forall l :: l in rzp <==> l in multiset(rzp);
    assert forall l :: l in rzp' <==> l in multiset(rzp');
  }

  // ----- Second pass

  function Attempt(rows: seq<ReconRow>, idx: Index, held: set<int>, st: Run, l: Line): Run
    requires ValidIndex(rows, idx)
  {
    if l.key in st.resolved || l.key in held then st
    else match Select(idx, l, st.used)
      case Chosen(sids) => Record(st, MakeResult(rows, idx, l, sids))
      case Nothing => st
      case Ambiguous => st.(ambiguous := st.ambiguous + {l.key})
      case Unenumerable => st.(unEnumerable := st.unEnumerable + {l.key})
  }

  function SecondPass(rows: seq<ReconRow>, idx: Index, held: set<int>, st: Run, lines: seq<Line>): Run
    requires ValidIndex(rows, idx)
  {
    if lines == [] then st
    else Attempt(rows, idx, held, SecondPass(rows, idx, held, st, lines[..|lines| - 1]), lines[|lines| - 1])
  }

  /** What a second-pass result is: the settlements chosen for one credit, covering it exactly. */
  ghost predicate IsSecondPass(rows: seq<ReconRow>, idx: Index, rzp: seq<Line>, taken: set<int>, r: Result)
    requires ValidIndex(rows, idx)
  {
    exists l, used ::
      && l in rzp && taken <= used && Select(idx, l, used).Chosen?
      && MakeResult(rows, idx, l, Select(idx, l, used).sids) == Some(r) && r.residual == 0
  }

  /** Why a credit stays unresolved: at its turn no settlements were singled out for it. */
  ghost predicate NoChoice(idx: Index, l: Line, taken: set<int>, allUsed: set<int>) {
    exists used :: taken <= used <= allUsed && !Select(idx, l, used).Chosen?
  }

  /** A chosen list always balances, to the paise. */
  lemma ChosenBalances(rows: seq<ReconRow>, idx: Index, l: Line, used: set<int>)
    requires ValidIndex(rows, idx) && Select(idx, l, used).Chosen?
    ensures var sids := Select(idx, l, used).sids; var made := MakeResult(rows, idx, l, sids);
            && made.Some? && WellMade(idx, made.value) && made.value.residual == 0
            && made.value.key == l.key && made.value.sids == sids && AsSet(sids) !! used
  {
    hide ValidIndex, Select, NetSum, SumNet, CoveredPositions;
    var sids := Select(idx, l, used).sids;
    ChosenSumsExactly(rows, idx, l, used);
    CoveredInReport(rows, idx, sids);
    assert MakeResult(rows, idx, l, sids).Some? && MakeResult(rows, idx, l, sids).value.residual == 0;
    MadeIsWellMade(rows, idx, l, sids);
    forall s | s in AsSet(sids)
      ensures s !in used
    {
      assert Usable(idx, l, used, s);
    }
  }

  lemma NeverUnenumerable(rows: seq<ReconRow>, idx: Index, l: Line, used: set<int>)
    requires ValidIndex(rows, idx)
    ensures !Select(idx, l, used).Unenumerable?
  {
    hide ValidIndex, SetSum, Terms, ItemsOf, KeepNew, Singles, Wrap;
    IndexFacts(rows, idx);
    CandidateFacts(idx, l, used);
    var cands := ItemsOf(idx, Terms(idx, l, used));
    if cands != [] {
      assert cands[0] in cands;
      SetSumIsExact(cands, l.amount);
    }
  }

  lemma {:induction false} SecondPassLedger(rows: seq<ReconRow>, idx: Index, held: set<int>, st0: Run, lines: seq<Line>)
    requires ValidIndex(rows, idx) && Ledger(idx, st0.results, st0.used, st0.resolved)
    ensures var st := SecondPass(rows, idx, held, st0, lines);
            && Ledger(idx, st.results, st.used, st.resolved)
            && st0.results <= st.results && st0.used <= st.used && st0.resolved <= st.resolved
            && st.unEnumerable == st0.unEnumerable
            && (forall r :: r in st.results ==> r in st0.results || IsSecondPass(rows, idx, lines, st0.used, r))
            && (forall l :: l in lines ==> l.key in st.resolved || l.key in held || NoChoice(idx, l, st0.used, st.used))
  {
    hide ValidIndex, Ledger, Select, MakeResult, WellMade;
    if lines != [] {
      var front, l := lines[..|lines| - 1], lines[|lines| - 1];
      assert lines == front + [l];
      SecondPassLedger(rows, idx, held, st0, front);
      var mid, st := SecondPass(rows, idx, held, st0, front), SecondPass(rows, idx, held, st0, lines);
      AttemptKeeps(rows, idx, held, mid, l);
      assert st == Attempt(rows, idx, held, mid, l);
      forall r | r in st.results && r !in st0.results
        ensures IsSecondPass(rows, idx, lines, st0.used, r)
      {
        if r in mid.results {
          assert IsSecondPass(rows, idx, front, st0.used, r);
          var l', used :| l' in front && st0.used <= used && Select(idx, l', used).Chosen?
            && MakeResult(rows, idx, l', Select(idx, l', used).sids) == Some(r) && r.residual == 0;
          assert l' in lines;
        }
      }
      forall x | x in lines && x.key !in st.resolved && x.key !in held
        ensures NoChoice(idx, x, st0.used, st.used)
      {
        if x in front {
          assert NoChoice(idx, x, st0.used, mid.used);
        } else {
          assert x == l;
        }
      }
    }
  }

  lemma AttemptKeeps(rows: seq<ReconRow>, idx: Index, held: set<int>, mid: Run, l: Line)
    requires ValidIndex(rows, idx) && Ledger(idx, mid.results, mid.used, mid.resolved)
    ensures var st := Attempt(rows, idx, held, mid, l);
            && Ledger(idx, st.results, st.used, st.resolved)
            && mid.results <= st.results && mid.used <= st.used && mid.resolved <= st.resolved
            && st.unEnumerable == mid.unEnumerable
            && (forall r :: r in st.results && r !in mid.results ==>
                  Select(idx, l, mid.used).Chosen?
                  && MakeResult(rows, idx, l, Select(idx, l, mid.used).sids) == Some(r) && r.residual == 0)
            && (l.key in st.resolved || l.key in held || !Select(idx, l, mid.used).Chosen?)
  {
    hide ValidIndex, Ledger, Select, MakeResult, WellMade;
    NeverUnenumerable(rows, idx, l, mid.used);
    if l.key !in mid.resolved && l.key !in held && Select(idx, l, mid.used).Chosen? {
      ChosenBalances(rows, idx, l, mid.used);
      var r := MakeResult(rows, idx, l, Select(idx, l, mid.used).sids).value;
      LedgerAdd(idx, mid.results, mid.used, mid.resolved, r);
    }
  }

  // ----- When some turn names a settlement twice

  /** What is taken when a credit's turn comes. */
  datatype Turn = Turn(used: set<int>, resolved: set<int>)

  predicate Acts(idx: Index, held: set<int>, t: Turn, l: Line) {
    l.key !in t.resolved && l.key !in held && Select(idx, l, t.used).Chosen?
  }

  function AfterTurn(idx: Index, held: set<int>, t: Turn, l: Line): Turn {
    if Acts(idx, held, t, l) then Turn(t.used + AsSet(Select(idx, l, t.used).sids), t.resolved + {l.key}) else t
  }

  function TurnAfter(idx: Index, held: set<int>, start: Turn, lines: seq<Line>): Turn {
    if lines == [] then start
    else AfterTurn(idx, held, TurnAfter(idx, held, start, lines[..|lines| - 1]), lines[|lines| - 1])
  }

  /** More than sixteen terms are left for the credit, and an inverted pair among them makes its amount. */
  predicate ManyInverted(idx: Index, l: Line, used: set<int>) {
    var cands := ItemsOf(idx, Terms(idx, l, used));
    SETSUM_EXPANSION_MAX_CANDIDATES < |cands| <= SETSUM_MAX_CANDIDATES && Inverted(cands, l.amount)
  }

  ghost predicate DoublesAt(idx: Index, held: set<int>, start: Turn, lines: seq<Line>, i: nat)
    requires i < |lines|
  {
    var t := TurnAfter(idx, held, start, lines[..i]);
    Acts(idx, held, t, lines[i]) && ManyInverted(idx, lines[i], t.used)
  }

  ghost predicate SomeTurnDoubles(idx: Index, held: set<int>, start: Turn, lines: seq<Line>) {
    exists i :: 0 <= i < |lines| && DoublesAt(idx, held, start, lines, i)
  }

  lemma SomeTurnStep(idx: Index, held: set<int>, start: Turn, lines: seq<Line>)
    requires lines != []
    ensures var n := |lines| - 1;
            SomeTurnDoubles(idx, held, start, lines)
            <==> SomeTurnDoubles(idx, held, start, lines[..n]) || DoublesAt(idx, held, start, lines, n)
  {
    hide TurnAfter, Acts, ManyInverted;
    var n := |lines| - 1;
    assert forall i :: 0 <= i < n ==> lines[..n][..i] == lines[..i];
    if SomeTurnDoubles(idx, held, start, lines[..n]) {
      var i :| 0 <= i < n && DoublesAt(idx, held, start, lines[..n], i);
      assert DoublesAt(idx, held, start, lines, i);
    }
    if SomeTurnDoubles(idx, held, start, lines) {
      var i :| 0 <= i <= n && DoublesAt(idx, held, start, lines, i);
      if i < n {
        assert DoublesAt(idx, held, start, lines[..n], i);
      }
    }
  }

  lemma AttemptIsTurn(rows: seq<ReconRow>, idx: Index, held: set<int>, mid: Run, l: Line)
    requires ValidIndex(rows, idx)
    ensures var st, t := Attempt(rows, idx, held, mid, l), Turn(mid.used, mid.resolved);
            && Turn(st.used, st.resolved) == AfterTurn(idx, held, t, l)
            && (NeverRepeats(st.results) <==>
                  NeverRepeats(mid.results) && !(Acts(idx, held, t, l) && ManyInverted(idx, l, mid.used)))
  {
    hide ValidIndex, Select, MakeResult, WellMade, NoRepeats, AsSet, Inverted, Terms, ItemsOf;
    if Acts(idx, held, Turn(mid.used, mid.resolved), l) {
      ChosenBalances(rows, idx, l, mid.used);
      ChosenRepeatsExactlyWhenInverted(rows, idx, l, mid.used);
      var r := MakeResult(rows, idx, l, Select(idx, l, mid.used).sids).value;
      assert forall x :: x in mid.results + [r] <==> x in mid.results || x == r;
    }
  }

  /** The second pass follows the turns, and names a settlement twice exactly at a turn that doubles. */
  lemma {:induction false} SecondPassRepeats(rows: seq<ReconRow>, idx: Index, held: set<int>, st0: Run,
                                             lines: seq<Line>)
    requires ValidIndex(rows, idx) && NeverRepeats(st0.results)
    ensures var st, start := SecondPass(rows, idx, held, st0, lines), Turn(st0.used, st0.resolved);
            && Turn(st.used, st.resolved) == TurnAfter(idx, held, start, lines)
            && (NeverRepeats(st.results) <==> !SomeTurnDoubles(idx, held, start, lines))
  {
    hide ValidIndex, Attempt, AfterTurn, NeverRepeats, Acts, ManyInverted, SomeTurnDoubles;
    var start := Turn(st0.used, st0.resolved);
    if lines == [] {
      NoTurns(idx, held, start);
    } else {
      var n := |lines| - 1;
      SecondPassRepeats(rows, idx, held, st0, lines[..n]);
      SomeTurnStep(idx, held, start, lines);
      AttemptIsTurn(rows, idx, held, SecondPass(rows, idx, held, st0, lines[..n]), lines[n]);
    }
  }

  lemma NoTurns(idx: Index, held: set<int>, start: Turn)
    ensures !SomeTurnDoubles(idx, held, start, [])
  {
  }
}
