/** Attribution of a whole statement: line by line, split reconstruction, then human-approved rules. */
module AttributionRun {
  import opened Options
  import opened Sequences
  import opened EvidenceScoring
  import opened Challenger
  import opened Attribution
  import SubsetSearch
  import LegacySubsets
  import SplitLegs

  const SPLIT_CONFIDENCE: real := 0.9

  ghost predicate DistinctKeys(lines: seq<BankLine>) {
    forall i, j :: 0 <= i < j < |lines| ==> lines[i].key != lines[j].key
  }

  // ----- Split reconstruction

  predicate Leans(ev: seq<Evidence>) {
    Carries(ev, BrandRzp) || Carries(ev, IfscRatn) || Carries(ev, SettlementRef) || Carries(ev, UtrSuffix)
    || Carries(ev, UtrSuffixWeak)
  }

  predicate Strong(ev: seq<Evidence>) {
    Carries(ev, IfscRatn) || Carries(ev, UtrSuffix)
  }

  /** An abstained credit that leans to Razorpay and carries no other rail's keyword. */
  predicate IsLeg(line: BankLine, a: Verdicted) {
    a.abstained && line.isCredit && line.amount > 0 && line.nonRzp == [] && Leans(line.rzp)
  }

  function Extend(p: SplitLegs.Pool, line: BankLine, a: Verdicted): SplitLegs.Pool {
    if IsLeg(line, a) then
      SplitLegs.Pool(p.legs + [SubsetSearch.Item(line.key, line.amount)], p.date[line.key := line.day],
                     if Strong(line.rzp) then p.strong + {line.key} else p.strong)
    else p
  }

  /** The candidate pool, in statement order. */
  function Legs(lines: seq<BankLine>, attrs: seq<Verdicted>): SplitLegs.Pool
    requires |lines| == |attrs|
  {
    if lines == [] then SplitLegs.Pool([], map[], {})
    else
      var n := |lines| - 1;
      Extend(Legs(lines[..n], attrs[..n]), lines[n], attrs[n])
  }

  /** The item is the leg of some line. */
  ghost predicate IsLegItem(lines: seq<BankLine>, attrs: seq<Verdicted>, x: SubsetSearch.Item)
    requires |lines| == |attrs|
  {
    exists i :: 0 <= i < |lines| && IsLeg(lines[i], attrs[i]) && x == SubsetSearch.Item(lines[i].key, lines[i].amount)
  }

  lemma LegItemStep(lines: seq<BankLine>, attrs: seq<Verdicted>, x: SubsetSearch.Item)
    requires |lines| == |attrs| > 0 && DistinctKeys(lines)
    ensures var n := |lines| - 1;
            && (IsLegItem(lines[..n], attrs[..n], x) ==> x.id != lines[n].key)
            && (IsLegItem(lines, attrs, x) <==>
                  IsLegItem(lines[..n], attrs[..n], x)
                  || (IsLeg(lines[n], attrs[n]) && x == SubsetSearch.Item(lines[n].key, lines[n].amount)))
  {
    hide IsLeg;
    var n := |lines| - 1;
    if IsLegItem(lines[..n], attrs[..n], x) {
      var i :| 0 <= i < n && IsLeg(lines[..n][i], attrs[..n][i])
               && x == SubsetSearch.Item(lines[..n][i].key, lines[..n][i].amount);
      assert IsLeg(lines[i], attrs[i]);
    }
    if i :| 0 <= i < n && IsLeg(lines[i], attrs[i]) && x == SubsetSearch.Item(lines[i].key, lines[i].amount) {
      assert IsLeg(lines[..n][i], attrs[..n][i]);
    }
  }

  lemma {:induction false} LegsAreValid(lines: seq<BankLine>, attrs: seq<Verdicted>)
    requires |lines| == |attrs| && DistinctKeys(lines)
    ensures var p := Legs(lines, attrs);
            SplitLegs.ValidPool(p) && forall x :: x in p.legs <==> IsLegItem(lines, attrs, x)
  {
    hide Leans, Strong, IsLegItem;
    if lines == [] {
      NoLegItems();
    } else {
      var n := |lines| - 1;
      LegsAreValid(lines[..n], attrs[..n]);
      forall x
        ensures IsLegItem(lines[..n], attrs[..n], x) ==> x.id != lines[n].key
        ensures IsLegItem(lines, attrs, x) <==>
                  IsLegItem(lines[..n], attrs[..n], x)
                  || (IsLeg(lines[n], attrs[n]) && x == SubsetSearch.Item(lines[n].key, lines[n].amount))
      {
        LegItemStep(lines, attrs, x);
      }
    }
  }

  lemma NoLegItems()
    ensures forall x :: !IsLegItem([], [], x)
  {
  }

  /** Each leg is dated by its line and strong exactly when its line carries an origin signal. */
  lemma {:induction false} LegsAreDated(lines: seq<BankLine>, attrs: seq<Verdicted>, i: nat)
    requires |lines| == |attrs| && DistinctKeys(lines) && i < |lines|
    ensures var p, k := Legs(lines, attrs), lines[i].key;
            && (IsLeg(lines[i], attrs[i]) ==> k in p.date && p.date[k] == lines[i].day)
            && (k in p.strong <==> IsLeg(lines[i], attrs[i]) && Strong(lines[i].rzp))
  {
    hide Leans, Strong;
    var n := |lines| - 1;
    if i < n {
      LegsAreDated(lines[..n], attrs[..n], i);
    } else {
      NotYetStrong(lines[..n], attrs[..n], lines[n].key);
    }
  }

  lemma {:induction false} NotYetStrong(lines: seq<BankLine>, attrs: seq<Verdicted>, k: int)
    requires |lines| == |attrs| && forall j :: 0 <= j < |lines| ==> lines[j].key != k
    ensures k !in Legs(lines, attrs).strong
  {
    if lines != [] {
      NotYetStrong(lines[..|lines| - 1], attrs[..|lines| - 1], k);
    }
  }

  /** The credit belongs to the one group that explains its settlement. */
  ghost predicate InUnrivalledGroup(p: SplitLegs.Pool, ss: seq<Payout>, k: int) {
    exists s, t :: SplitLegs.Unrivalled(p, ss, s, t) && k in LegacySubsets.IdSet(t)
  }

  function Lifted(line: BankLine, s: Settings): Verdicted {
    Finalized(line, [Evidence(SplitReconstruction, SPLIT_CONFIDENCE)], SPLIT_CONFIDENCE, TierC, s)
  }

  /** `reconstruct_splits`: exactly the credits of unrivalled groups are lifted; every other verdict is untouched. */
  method ReconstructSplits(lines: seq<BankLine>, ss: seq<Payout>, attrs: seq<Verdicted>, s: Settings)
    returns (out: seq<Verdicted>)
    requires |lines| == |attrs| && DistinctKeys(lines) && SplitLegs.DistinctSids(ss)
    ensures |out| == |attrs|
    ensures forall i :: 0 <= i < |lines| ==>
              out[i] == if s.threshold <= SPLIT_CONFIDENCE && InUnrivalledGroup(Legs(lines, attrs), ss, lines[i].key)
                        then Lifted(lines[i], s) else attrs[i]
  {
    hide Finalized, GateMeans, SplitLegs.Unrivalled, LegacySubsets.IdSet, SplitLegs.ValidPool, Extend, DistinctKeys;
    if SPLIT_CONFIDENCE < s.threshold {
      return attrs;
    }
    var p := SplitLegs.Pool([], map[], {});
    for i := 0 to |lines|
      invariant p == Legs(lines[..i], attrs[..i])
    {
      assert lines[..i + 1][..i] == lines[..i] && attrs[..i + 1][..i] == attrs[..i];
      p := Extend(p, lines[i], attrs[i]);
    }
    assert lines[..|lines|] == lines && attrs[..|attrs|] == attrs;
    LegsAreValid(lines, attrs);
    var lifted := SplitLegs.ReconstructGroups(p, ss);
    out := [];
    for i := 0 to |lines|
      invariant |out| == i
      invariant forall j :: 0 <= j < i ==> out[j] == if lines[j].key in lifted then Lifted(lines[j], s) else attrs[j]
    {
      if lines[i].key in lifted {
        var a := Finalize(lines[i], [Evidence(SplitReconstruction, SPLIT_CONFIDENCE)], SPLIT_CONFIDENCE, TierC, s);
        out := out + [a];
      } else {
        out := out + [attrs[i]];
      }
    }
  }

  lemma UnrivalledIsLeg(lines: seq<BankLine>, attrs: seq<Verdicted>, ss: seq<Payout>, i: nat)
    requires |lines| == |attrs| && DistinctKeys(lines) && i < |lines|
    requires InUnrivalledGroup(Legs(lines, attrs), ss, lines[i].key)
    ensures IsLeg(lines[i], attrs[i])
  {
    hide IsLeg, Legs, SplitLegs.Eligible, SplitLegs.Oversized, SplitLegs.Untainted, SplitLegs.OnlyGroupOfItsLegs,
         SplitLegs.OnlyGroupOfItsSettlement, SubsetSearch.Total;
    var p := Legs(lines, attrs);
    LegsAreValid(lines, attrs);
    var s, t :| SplitLegs.Unrivalled(p, ss, s, t) && lines[i].key in LegacySubsets.IdSet(t);
    var x: SubsetSearch.Item :| x in t && x.id == lines[i].key;
    assert SplitLegs.IsGroup(p, s, t);
    assert x in p.legs;
    var j :| 0 <= j < |lines| && IsLeg(lines[j], attrs[j]) && x == SubsetSearch.Item(lines[j].key, lines[j].amount);
    assert j == i;
  }

  // ----- Approved rules

  /** A human-approved rule: the keys its pattern matches are given. */
  datatype Rule = Rule(id: int, approved: bool, target: Rail, hits: set<int>)

  predicate Matches(line: BankLine, r: Rule) {
    r.approved && line.key in r.hits
  }

  function Matched(line: BankLine, rules: seq<Rule>): seq<Rule> {
    Filter(rules, (r: Rule) => Matches(line, r))
  }

  predicate Disagree(rs: seq<Rule>) {
    exists i, j :: 0 <= i < j < |rs| && rs[i].target != rs[j].target
  }

  const RULE_CONFIDENCE: real := 0.95

  function ById(a: Rule, b: Rule): bool { a.id <= b.id }

  /** What the rules say of a line: nothing, a conflict, or their common rail. */
  function RuleVerdict(line: BankLine, rules: seq<Rule>): Option<Verdicted> {
    var matched := Sort(Matched(line, rules), ById);
    if !line.isCredit || matched == [] then None
    else if Disagree(matched) then Some(Abstains(line.key, 0.0, [Evidence(RuleConflict, 0.0)]))
    else Some(Accepted(line.key, matched[0].target, RULE_CONFIDENCE, TierRule, [Evidence(RuleMatch, RULE_CONFIDENCE)]))
  }

  function TargetsOf(rs: seq<Rule>): set<Rail> {
    set r | r in rs :: r.target
  }

  lemma DisagreeAsTargets(rs: seq<Rule>)
    ensures Disagree(rs) <==> |TargetsOf(rs)| > 1
    ensures rs != [] ==> rs[0].target in TargetsOf(rs) && |TargetsOf(rs)| >= 1
  {
    var ts := TargetsOf(rs);
    if rs != [] {
      assert rs[0] in rs;
      assert {rs[0].target} <= ts;
      if Disagree(rs) {
        var i, j :| 0 <= i < j < |rs| && rs[i].target != rs[j].target;
        assert rs[i] in rs && rs[j] in rs;
        var pair := {rs[i].target, rs[j].target};
        assert pair <= ts && |pair| == 2;
        SubsetSize(pair, ts);
      } else {
        forall r | r in rs
          ensures r.target == rs[0].target
        {
          var i :| 0 <= i < |rs| && rs[i] == r;
          assert i == 0 || rs[0].target == rs[i].target;
        }
        assert ts == {rs[0].target};
      }
    } else {
      assert ts == {};
    }
  }

  method ApplyRules(lines: seq<BankLine>, rules: seq<Rule>) returns (out: map<int, Verdicted>)
    requires DistinctKeys(lines)
    ensures forall i :: 0 <= i < |lines| ==> (if lines[i].key in out then Some(out[lines[i].key]) else None)
                                             == RuleVerdict(lines[i], rules)
  {
    hide Sort, Filter;
    out := map[];
    var approved := Filter(rules, (r: Rule) => r.approved);
    for i := 0 to |lines|
      invariant forall k :: k in out ==> exists j :: 0 <= j < i && lines[j].key == k
      invariant forall j :: 0 <= j < i ==> (if lines[j].key in out then Some(out[lines[j].key]) else None)
                                           == RuleVerdict(lines[j], rules)
    {
      var line := lines[i];
      if line.isCredit {
        var matched := Sort(Filter(approved, (r: Rule) => line.key in r.hits), ById);
        FilterTwice(rules, line);
        if matched != [] {
          var targets := TargetsOf(matched);
          DisagreeAsTargets(matched);
          if |targets| > 1 {
            out := out[line.key := Abstains(line.key, 0.0, [Evidence(RuleConflict, 0.0)])];
          } else {
            out := out[line.key := Accepted(line.key, matched[0].target, RULE_CONFIDENCE, TierRule,
                                            [Evidence(RuleMatch, RULE_CONFIDENCE)])];
          }
        }
      }
    }
  }

  lemma {:induction false} FilterTwice(rules: seq<Rule>, line: BankLine)
    ensures Filter(Filter(rules, (r: Rule) => r.approved), (r: Rule) => line.key in r.hits) == Matched(line, rules)
  {
    hide Filter;
    var approved, hit, both := (r: Rule) => r.approved, (r: Rule) => line.key in r.hits, (r: Rule) => Matches(line, r);
    FilterUnfold(rules, approved);
    FilterUnfold(rules, both);
    if rules == [] {
      FilterUnfold(Filter(rules, approved), hit);
    } else {
      FilterTwice(rules[1..], line);
      var first, rest := if rules[0].approved then [rules[0]] else [], Filter(rules[1..], approved);
      FilterConcat(first, rest, hit);
      FilterOne(rules[0], hit);
      FilterUnfold([], hit);
    }
  }

  /** Reordering the rules changes no verdict. */
  lemma RuleOrderIsFree(line: BankLine, rules: seq<Rule>, rules': seq<Rule>)
    requires multiset(rules) == multiset(rules')
    ensures RuleVerdict(line, rules) == RuleVerdict(line, rules')
  {
    hide Filter, Sort;
    var m, m' := Sort(Matched(line, rules), ById), Sort(Matched(line, rules'), ById);
    SortMembers(Matched(line, rules), ById);
    SortMembers(Matched(line, rules'), ById);
    forall r
      ensures r in m <==> r in m'
    {
      assert r in rules <==> r in multiset(rules);
      assert r in rules' <==> r in multiset(rules');
    }
    assert TargetsOf(m) == TargetsOf(m');
    DisagreeAsTargets(m);
    DisagreeAsTargets(m');
    NoneIn(m, m');
    if m != [] && |TargetsOf(m)| == 1 {
      OneTarget(TargetsOf(m), m[0].target, m'[0].target);
    }
  }

  /** Some approved rule matches the credit. */
  ghost predicate Ruled(line: BankLine, rules: seq<Rule>) {
    line.isCredit && exists r :: r in rules && Matches(line, r)
  }

  /** Two approved rules that match the credit name different rails. */
  ghost predicate Contradicted(line: BankLine, rules: seq<Rule>) {
    line.isCredit && exists r, q :: r in rules && q in rules && Matches(line, r) && Matches(line, q)
                                    && r.target != q.target
  }

  /** The rules say nothing of a line none of them matches, abstain on one they contradict each other on,
      and give any other the rail they name. */
  lemma RuleDecidesExactlyWhen(line: BankLine, rules: seq<Rule>)
    ensures RuleVerdict(line, rules).Some? <==> Ruled(line, rules)
    ensures RuleVerdict(line, rules).Some? ==>
              var v := RuleVerdict(line, rules).value;
              && v.key == line.key && (v.abstained <==> Contradicted(line, rules))
              && (v.abstained ==> v.rail == Unknown && Carries(v.evidence, RuleConflict))
              && (!v.abstained ==>
                    && (forall r :: r in rules && Matches(line, r) ==> v.rail == r.target)
                    && v.tier == TierRule && !Carries(v.evidence, RuleConflict))
  {
    hide Filter, Sort, Matches;
    var m := Sort(Matched(line, rules), ById);
    SortMembers(Matched(line, rules), ById);
    assert forall r :: r in m <==> r in rules && Matches(line, r);
    if m != [] {
      assert m[0] in m;
      DisagreeMembers(m);
    }
    var conflict := [Evidence(RuleConflict, 0.0)];
    assert conflict[0].signal == RuleConflict;
  }

  lemma DisagreeMembers(rs: seq<Rule>)
    requires rs != []
    ensures Disagree(rs) <==> exists r, q :: r in rs && q in rs && r.target != q.target
    ensures !Disagree(rs) ==> forall r :: r in rs ==> r.target == rs[0].target
  {
    if r, q :| r in rs && q in rs && r.target != q.target {
      var i :| 0 <= i < |rs| && rs[i] == r;
      var j :| 0 <= j < |rs| && rs[j] == q;
      assert i < j || j < i;
    }
    if r :| r in rs && r.target != rs[0].target {
      assert rs[0] in rs;
    }
  }

  lemma NoneIn(a: seq<Rule>, b: seq<Rule>)
    requires forall r :: r in a <==> r in b
    ensures a == [] <==> b == []
  {
    if a != [] {
      assert a[0] in b;
    }
    if b != [] {
      assert b[0] in a;
    }
  }

  lemma OneTarget(ts: set<Rail>, a: Rail, b: Rail)
    requires |ts| == 1 && a in ts && b in ts
    ensures a == b
  {
    if a != b {
      assert {a, b} <= ts;
      SubsetSize({a, b}, ts);
    }
  }

  // ----- The whole statement

  /** A rule resolves an abstention; a conflict between rules overrides all but Tier A. */
  function Merged(a: Verdicted, rule: Option<Verdicted>): Verdicted {
    if rule.None? then a
    else if Carries(rule.value.evidence, RuleConflict) then (if a.tier == TierA then a else rule.value)
    else if a.abstained then rule.value
    else a
  }

  /** What the rules make of a verdict: a contradiction overrides all but Tier A, agreeing rules resolve an
      abstention with their rail, and anything else stays. */
  ghost predicate RuledOver(line: BankLine, rules: seq<Rule>, before: Verdicted, after: Verdicted) {
    if Contradicted(line, rules) then
      if before.tier == TierA then after == before else after.abstained && Carries(after.evidence, RuleConflict)
    else if Ruled(line, rules) && before.abstained then
      !after.abstained && after.tier == TierRule && forall r :: r in rules && Matches(line, r) ==>
        after.rail == r.target
    else after == before
  }

  lemma MergedIsRuledOver(line: BankLine, a: Verdicted, rules: seq<Rule>)
    ensures RuledOver(line, rules, a, Merged(a, RuleVerdict(line, rules)))
  {
    hide RuleVerdict, Matches, Carries;
    RuleDecidesExactlyWhen(line, rules);
    if Contradicted(line, rules) {
      ContradictedIsRuled(line, rules);
    }
  }

  lemma ContradictedIsRuled(line: BankLine, rules: seq<Rule>)
    requires Contradicted(line, rules)
    ensures Ruled(line, rules)
  {
  }

  /** A lifted credit is Razorpay's at Tier C unless a positive margin threshold is not met. */
  lemma LiftedIsRazorpay(line: BankLine, s: Settings)
    ensures s.margin <= 0.0 ==> IsRazorpay(Lifted(line, s))
    ensures IsRazorpay(Lifted(line, s)) ==>
              Lifted(line, s).tier == TierC && Lifted(line, s).confidence == SPLIT_CONFIDENCE
  {
    hide Challenged;
  }

  /** Everything the run promises of one line's verdict. */
  ghost predicate GatedVerdict(line: BankLine, a: Verdicted) {
    a.key == line.key && (IsRazorpay(a) ==>
                            line.isCredit
                            && (Tied(a.evidence) || Carries(a.evidence, SplitReconstruction) || a.tier == TierRule))
  }

  function AttributedAlone(lines: seq<BankLine>, ss: seq<Payout>, s: Settings): (r: seq<Verdicted>)
    ensures |r| == |lines| && forall i :: 0 <= i < |r| ==> r[i] == Attributed(lines[i], ss, s)
  {
    seq(|lines|, i requires 0 <= i < |lines| => Attributed(lines[i], ss, s))
  }

  /** `attribute_all` with the global solver off. */
  method AttributeAll(lines: seq<BankLine>, ss: seq<Payout>, s: Settings, rules: seq<Rule>)
    returns (base: seq<Verdicted>, out: seq<Verdicted>)
    requires DistinctKeys(lines) && SplitLegs.DistinctSids(ss)
    requires forall i :: 0 <= i < |lines| ==> !FiledAsRazorpay(lines[i])
    ensures |out| == |base| == |lines|
    ensures forall i :: 0 <= i < |lines| ==> GatedVerdict(lines[i], base[i]) && GatedVerdict(lines[i], out[i])
    ensures forall i :: 0 <= i < |lines| ==> out[i] == Merged(base[i], RuleVerdict(lines[i], rules))
    ensures forall i :: 0 <= i < |lines| ==> RuledOver(lines[i], rules, base[i], out[i])
    ensures forall i :: 0 <= i < |lines| ==>
              base[i] == if s.threshold <= SPLIT_CONFIDENCE
                            && InUnrivalledGroup(Legs(lines, AttributedAlone(lines, ss, s)), ss, lines[i].key)
                         then Lifted(lines[i], s) else Attributed(lines[i], ss, s)
    ensures forall i :: 0 <= i < |lines| && base[i].tier == TierA && !base[i].abstained ==> out[i] == base[i]
  {
    hide Attributed, RuleVerdict, GatedVerdict, Lifted, DistinctKeys, InUnrivalledGroup, Legs, FiledAsRazorpay,
         RuledOver, NarratesMost, Wins, SumForbids;
    var first: seq<Verdicted> := [];
    for i := 0 to |lines|
      invariant |first| == i && forall j :: 0 <= j < i ==> first[j] == Attributed(lines[j], ss, s)
    {
      var a := AttributeLine(lines[i], ss, s);
      first := first + [a];
    }
    assert first == AttributedAlone(lines, ss, s);
    base := ReconstructSplits(lines, ss, first, s);
    forall i | 0 <= i < |lines|
      ensures GatedVerdict(lines[i], base[i])
    {
      AttributedIsGated(lines[i], ss, s);
      if InUnrivalledGroup(Legs(lines, first), ss, lines[i].key) {
        UnrivalledIsLeg(lines, first, ss, i);
        LiftedIsGated(lines[i], s);
      }
    }
    out := base;
    if rules != [] {
      var ruled := ApplyRules(lines, rules);
      out := [];
      for i := 0 to |lines|
        invariant |out| == i
        invariant forall j :: 0 <= j < i ==> out[j] == Merged(base[j], RuleVerdict(lines[j], rules))
      {
        GatedKey(lines[i], base[i]);
        var k := base[i].key;
        out := out + [Merged(base[i], if k in ruled then Some(ruled[k]) else None)];
      }
    } else {
      forall i | 0 <= i < |lines|
        ensures RuleVerdict(lines[i], rules) == None
      {
        NoRules(lines[i]);
      }
    }
    forall i | 0 <= i < |lines|
      ensures GatedVerdict(lines[i], out[i])
      ensures base[i].tier == TierA && !base[i].abstained ==> out[i] == base[i]
      ensures RuledOver(lines[i], rules, base[i], out[i])
    {
      MergedIsGated(lines[i], base[i], rules);
      MergedIsRuledOver(lines[i], base[i], rules);
    }
  }

  lemma GatedKey(line: BankLine, a: Verdicted)
    requires GatedVerdict(line, a)
    ensures a.key == line.key
  {
  }

  lemma NoRules(line: BankLine)
    ensures RuleVerdict(line, []) == None
  {
  }

  lemma AttributedIsGated(line: BankLine, ss: seq<Payout>, s: Settings)
    requires !FiledAsRazorpay(line)
    ensures GatedVerdict(line, Attributed(line, ss, s))
  {
    hide Tied, FiledAsRazorpay, Attributed;
    GateHolds(line, ss, s);
    AttributedKey(line, ss, s);
  }

  lemma LiftedIsGated(line: BankLine, s: Settings)
    requires line.isCredit
    ensures GatedVerdict(line, Lifted(line, s))
  {
    hide Finalized;
    var ev := [Evidence(SplitReconstruction, SPLIT_CONFIDENCE)];
    FinalizedFacts(line, ev, SPLIT_CONFIDENCE, TierC, s);
    assert ev[0].signal == SplitReconstruction;
  }

  /** Merging the rules keeps the gate, and never changes an accepted Tier A verdict. */
  lemma MergedIsGated(line: BankLine, a: Verdicted, rules: seq<Rule>)
    requires GatedVerdict(line, a)
    ensures GatedVerdict(line, Merged(a, RuleVerdict(line, rules)))
    ensures a.tier == TierA && !a.abstained ==> Merged(a, RuleVerdict(line, rules)) == a
  {
    hide Matched, Sort, Tied;
  }
}
