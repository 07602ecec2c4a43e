/** The adversarial challenger: counterfactual explanations of a Razorpay verdict and its proof margin. */
module Challenger {
  import opened Sequences
  import opened EvidenceScoring

  datatype Rail = Razorpay | OtherGateway | DirectUpi | CodRemittance | Unrelated | Unknown

  datatype Operator = DropAmountTie | DropExactIdentifier | DropSetsum | DropSuffix | DropTimeProximity
                    | ObservedCompetingRail | UnlinkedRzp

  datatype Challenge = Challenge(operator: Operator, rail: Rail, score: real, removed: seq<Signal>)

  /** What the narration says for a rail. A dictionary, so each rail once. */
  datatype Narrated = Narrated(rail: Rail, items: seq<Evidence>)

  ghost predicate OnePerRail(nonRzp: seq<Narrated>) {
    forall i, j :: 0 <= i < j < |nonRzp| ==> nonRzp[i].rail != nonRzp[j].rail
  }

  const MAX_CHALLENGES := 16

  /** The order of the operators' names. */
  function OperatorRank(o: Operator): nat {
    match o
    case DropAmountTie => 0
    case DropExactIdentifier => 1
    case DropSetsum => 2
    case DropSuffix => 3
    case DropTimeProximity => 4
    case ObservedCompetingRail => 5
    case UnlinkedRzp => 6
  }

  /** The order of the rails' names. */
  function RailRank(r: Rail): nat {
    match r
    case Unknown => 0
    case CodRemittance => 1
    case DirectUpi => 2
    case OtherGateway => 3
    case Razorpay => 4
    case Unrelated => 5
  }

  function Rank(c: Challenge): nat {
    6 * OperatorRank(c.operator) + RailRank(c.rail)
  }

  // ----- Observed rails and ablations

  function Observed(nonRzp: seq<Narrated>): seq<Challenge> {
    if nonRzp == [] then []
    else
      var n := nonRzp[|nonRzp| - 1];
      Observed(nonRzp[..|nonRzp| - 1])
      + (if n.rail == Razorpay || n.items == [] then []
         else [Challenge(ObservedCompetingRail, n.rail, Score(n.items), [])])
  }

  function Without(evidence: seq<Evidence>, drop: seq<Signal>): seq<Evidence> {
    Filter(evidence, (e: Evidence) => e.signal !in drop)
  }

  predicate Carries(evidence: seq<Evidence>, s: Signal) {
    exists i :: 0 <= i < |evidence| && evidence[i].signal == s
  }

  function Present(evidence: seq<Evidence>, drop: seq<Signal>): seq<Signal> {
    Filter(drop, (s: Signal) => Carries(evidence, s))
  }

  datatype Ablation = Ablation(operator: Operator, drop: seq<Signal>)

  const UTR_SIGNALS: seq<Signal> := [UtrExact, UtrSuffix, UtrSuffixWeak]
  const AMOUNT_SIGNALS: seq<Signal> := [AmountCorr, AmountCorrMulti]
  const ALL_TIES: seq<Signal> := UTR_SIGNALS + AMOUNT_SIGNALS + [SetSum, SplitReconstruction]

  /** Dropping only the suffix says something new only when there is no exact reference. */
  function Plan(evidence: seq<Evidence>): (plan: seq<Ablation>)
    ensures |plan| <= 6
  {
    [Ablation(DropExactIdentifier, UTR_SIGNALS)]
    + (if Carries(evidence, UtrExact) then [] else [Ablation(DropSuffix, [UtrSuffix, UtrSuffixWeak])])
    + [Ablation(DropAmountTie, AMOUNT_SIGNALS), Ablation(DropSetsum, [SetSum, SplitReconstruction]),
       Ablation(DropTimeProximity, [ValueDateProximity]), Ablation(UnlinkedRzp, ALL_TIES)]
  }

  /** `_ablation`, for each entry of the plan that removes something. */
  function Ablate(evidence: seq<Evidence>, plan: seq<Ablation>): seq<Challenge> {
    if plan == [] then []
    else
      var a := plan[|plan| - 1];
      Ablate(evidence, plan[..|plan| - 1])
      + (if Present(evidence, a.drop) == [] then []
         else [Challenge(a.operator, Razorpay, Score(Without(evidence, a.drop)), Present(evidence, a.drop))])
  }

  function AllChallenges(evidence: seq<Evidence>, nonRzp: seq<Narrated>): seq<Challenge> {
    Observed(nonRzp) + Ablate(evidence, Plan(evidence))
  }

  // ----- The verdict of the challenger

  datatype Verdict = Verdict(
    rzpScore: real, competingScore: real, proofMargin: real, strongest: seq<Challenge>, truncated: bool,
    challenges: seq<Challenge>)

  predicate Before(a: Challenge, b: Challenge) { Rank(a) <= Rank(b) }

  /** The higher score, then the later name. */
  predicate Outranks(a: Challenge, b: Challenge) {
    a.score > b.score || (a.score == b.score && Rank(a) >= Rank(b))
  }

  ghost predicate IsStrongest(c: Challenge, cs: seq<Challenge>) {
    c in cs && forall x :: x in cs ==> Outranks(c, x)
  }

  method CollectObserved(nonRzp: seq<Narrated>) returns (challenges: seq<Challenge>)
    ensures challenges == Observed(nonRzp)
  {
    hide Score;
    challenges := [];
    for i := 0 to |nonRzp|
      invariant challenges == Observed(nonRzp[..i])
    {
      var n := nonRzp[i];
      assert nonRzp[..i + 1][..i] == nonRzp[..i] && nonRzp[..i + 1][i] == n;
      if n.rail != Razorpay && n.items != [] {
        var score := Combine(n.items);
        challenges := challenges + [Challenge(ObservedCompetingRail, n.rail, score, [])];
      }
    }
    assert nonRzp[..|nonRzp|] == nonRzp;
  }

  method CollectAblations(evidence: seq<Evidence>, plan: seq<Ablation>) returns (challenges: seq<Challenge>)
    ensures challenges == Ablate(evidence, plan)
  {
    hide Score, Present, Without;
    challenges := [];
    for i := 0 to |plan|
      invariant challenges == Ablate(evidence, plan[..i])
    {
      var a := plan[i];
      assert plan[..i + 1][..i] == plan[..i] && plan[..i + 1][i] == a;
      var present := Present(evidence, a.drop);
      if present != [] {
        var score := Combine(Without(evidence, a.drop));
        challenges := challenges + [Challenge(a.operator, Razorpay, score, present)];
      }
    }
    assert plan[..|plan|] == plan;
  }

  /** `max` by score, then by name; the earlier of two equals stays. */
  function Stronger(s: seq<Challenge>, c: Challenge): seq<Challenge> {
    if s == [] || c.score > s[0].score || (c.score == s[0].score && Rank(c) > Rank(s[0])) then [c] else s
  }

  /** The strongest challenge; none or one. */
  function StrongestOf(cs: seq<Challenge>): seq<Challenge> {
    if cs == [] then [] else Stronger(StrongestOf(cs[..|cs| - 1]), cs[|cs| - 1])
  }

  lemma {:induction false} StrongestIsStrongest(cs: seq<Challenge>)
    ensures cs == [] ==> StrongestOf(cs) == []
    ensures cs != [] ==> |StrongestOf(cs)| == 1 && IsStrongest(StrongestOf(cs)[0], cs)
  {
    hide Rank;
    if cs != [] {
      StrongestIsStrongest(cs[..|cs| - 1]);
      assert cs == cs[..|cs| - 1] + [cs[|cs| - 1]];
    }
  }

  function Challenged(evidence: seq<Evidence>, nonRzp: seq<Narrated>, rzpScore: real, maxChallenges: nat): Verdict {
    var all := Sort(AllChallenges(evidence, nonRzp), Before);
    var kept := Take(all, maxChallenges);
    var strongest := StrongestOf(kept);
    var competing := if strongest == [] then 0.0 else strongest[0].score;
    Verdict(rzpScore, competing, rzpScore - competing, strongest, |all| > maxChallenges, kept)
  }

  /** `challenge_razorpay`. */
  method ChallengeRazorpay(evidence: seq<Evidence>, nonRzp: seq<Narrated>, rzpScore: real, maxChallenges: nat)
    returns (v: Verdict)
    ensures v == Challenged(evidence, nonRzp, rzpScore, maxChallenges)
  {
    hide Sort, Filter, Score, Observed, Ablate, Plan, Stronger;
    var observed := CollectObserved(nonRzp);
    var ablations := CollectAblations(evidence, Plan(evidence));
    var challenges := Sort(observed + ablations, Before);
    var truncated := |challenges| > maxChallenges;
    challenges := Take(challenges, maxChallenges);
    var strongest: seq<Challenge> := [];
    for i := 0 to |challenges|
      invariant strongest == StrongestOf(challenges[..i])
    {
      assert challenges[..i + 1][..i] == challenges[..i];
      strongest := Stronger(strongest, challenges[i]);
    }
    assert challenges[..|challenges|] == challenges;
    var competing := if strongest == [] then 0.0 else strongest[0].score;
    return Verdict(rzpScore, competing, rzpScore - competing, strongest, truncated, challenges);
  }

  // ----- What the margin can and cannot show

  lemma {:induction false} ObservedMember(nonRzp: seq<Narrated>, c: Challenge)
    ensures c in Observed(nonRzp) <==>
            exists i :: 0 <= i < |nonRzp| && nonRzp[i].rail != Razorpay && nonRzp[i].items != []
              && c == Challenge(ObservedCompetingRail, nonRzp[i].rail, Score(nonRzp[i].items), [])
  {
    hide Score, Observed;
    ObservedUnfold(nonRzp);
    if nonRzp != [] {
      var n := |nonRzp| - 1;
      var front := nonRzp[..n];
      ObservedMember(front, c);
      assert forall i :: 0 <= i < n ==> front[i] == nonRzp[i];
    }
  }

  lemma ObservedUnfold(nonRzp: seq<Narrated>)
    ensures nonRzp == [] ==> Observed(nonRzp) == []
    ensures nonRzp != [] ==>
              var n := nonRzp[|nonRzp| - 1];
              Observed(nonRzp) == Observed(nonRzp[..|nonRzp| - 1])
                + (if n.rail == Razorpay || n.items == [] then []
                   else [Challenge(ObservedCompetingRail, n.rail, Score(n.items), [])])
  {
    hide Score;
  }

  lemma {:induction false} AblateMember(evidence: seq<Evidence>, plan: seq<Ablation>, c: Challenge)
    requires c in Ablate(evidence, plan)
    ensures c.rail == Razorpay && exists a :: a in plan && c.operator == a.operator
                                              && c.score == Score(Without(evidence, a.drop))
  {
    hide Score, Filter;
    var n := |plan| - 1;
    if c in Ablate(evidence, plan[..n]) {
      AblateMember(evidence, plan[..n], c);
      assert forall a :: a in plan[..n] ==> a in plan;
    } else {
      assert plan[n] in plan;
    }
  }

  lemma {:induction false} FilterIsFewer<T>(s: seq<T>, keep: T -> bool)
    ensures Fewer(Filter(s, keep), s)
  {
    if s != [] {
      FilterIsFewer(s[1..], keep);
      assert s == [s[0]] + s[1..];
      FilterUnfold(s, keep);
    }
  }

  /** No ablation beats the verdict it ablates. */
  lemma AblationNeverBeatsVerdict(evidence: seq<Evidence>, plan: seq<Ablation>, c: Challenge)
    requires !Clashes(evidence) && c in Ablate(evidence, plan)
    ensures c.score <= Score(evidence)
  {
    hide Score, Clashes, Filter;
    AblateMember(evidence, plan, c);
    var a :| a in plan && c.operator == a.operator && c.score == Score(Without(evidence, a.drop));
    FilterIsFewer(evidence, (e: Evidence) => e.signal !in a.drop);
    FewerScoresLess(Without(evidence, a.drop), evidence);
  }

  lemma {:induction false} ObservedCount(nonRzp: seq<Narrated>, rails: set<Rail>)
    requires OnePerRail(nonRzp) && (forall i :: 0 <= i < |nonRzp| ==> nonRzp[i].rail in rails)
    ensures |Observed(nonRzp)| <= |rails - {Razorpay}|
    decreases nonRzp
  {
    hide Score;
    if nonRzp != [] {
      var n := |nonRzp| - 1;
      var r := nonRzp[n].rail;
      ObservedCount(nonRzp[..n], rails - {r});
      if r == Razorpay {
        assert rails - {r} - {Razorpay} == rails - {Razorpay};
      } else {
        assert rails - {Razorpay} == (rails - {r} - {Razorpay}) + {r};
      }
    }
  }

  lemma {:induction false} AblateCount(evidence: seq<Evidence>, plan: seq<Ablation>)
    ensures |Ablate(evidence, plan)| <= |plan|
  {
    if plan != [] {
      AblateCount(evidence, plan[..|plan| - 1]);
    }
  }

  /** The bound on challenges is never reached, so no counterfactual is ever dropped. */
  lemma NeverTruncated(evidence: seq<Evidence>, nonRzp: seq<Narrated>)
    requires OnePerRail(nonRzp)
    ensures |AllChallenges(evidence, nonRzp)| <= 11 <= MAX_CHALLENGES
  {
    hide Observed, Ablate, Plan;
    var rails := {Razorpay, OtherGateway, DirectUpi, CodRemittance, Unrelated, Unknown};
    forall r: Rail
      ensures r in rails
    {
      match r {
        case Razorpay => case OtherGateway => case DirectUpi => case CodRemittance => case Unrelated => case Unknown =>
      }
    }
    ObservedCount(nonRzp, rails);
    assert rails - {Razorpay} == {OtherGateway, DirectUpi, CodRemittance, Unrelated, Unknown};
    AblateCount(evidence, Plan(evidence));
  }

  ghost predicate RailBeats(evidence: seq<Evidence>, nonRzp: seq<Narrated>) {
    exists i :: 0 <= i < |nonRzp| && nonRzp[i].rail != Razorpay && nonRzp[i].items != []
      && Score(nonRzp[i].items) > Score(evidence)
  }

  /** A verdict the challenger reached over all its counterfactuals. */
  ghost predicate IsVerdict(v: Verdict, evidence: seq<Evidence>, nonRzp: seq<Narrated>) {
    && v.challenges == Sort(AllChallenges(evidence, nonRzp), Before)
    && v.rzpScore == Score(evidence) && v.proofMargin == v.rzpScore - v.competingScore
    && (v.challenges == [] ==> v.strongest == [] && v.competingScore == 0.0)
    && (v.challenges != [] ==> |v.strongest| == 1 && IsStrongest(v.strongest[0], v.challenges)
                               && v.competingScore == v.strongest[0].score)
  }

  /** Over a dictionary of rails the challenger weighs every counterfactual and reports the strongest. */
  lemma ChallengedIsVerdict(evidence: seq<Evidence>, nonRzp: seq<Narrated>)
    requires OnePerRail(nonRzp)
    ensures IsVerdict(Challenged(evidence, nonRzp, Score(evidence), MAX_CHALLENGES), evidence, nonRzp)
    ensures !Challenged(evidence, nonRzp, Score(evidence), MAX_CHALLENGES).truncated
  {
    hide Score, Sort, AllChallenges, IsStrongest;
    NeverTruncated(evidence, nonRzp);
    StrongestIsStrongest(Sort(AllChallenges(evidence, nonRzp), Before));
  }

  lemma RailBeatsIsNegative(v: Verdict, evidence: seq<Evidence>, nonRzp: seq<Narrated>)
    requires IsVerdict(v, evidence, nonRzp) && RailBeats(evidence, nonRzp)
    ensures v.proofMargin < 0.0
  {
    hide Score, Sort, Plan, Observed, Ablate, Rank;
    SortMembers(AllChallenges(evidence, nonRzp), Before);
    var i :| 0 <= i < |nonRzp| && nonRzp[i].rail != Razorpay && nonRzp[i].items != []
             && Score(nonRzp[i].items) > Score(evidence);
    var c := Challenge(ObservedCompetingRail, nonRzp[i].rail, Score(nonRzp[i].items), []);
    ObservedMember(nonRzp, c);
    assert c in AllChallenges(evidence, nonRzp);
    assert c in v.challenges;
    assert Outranks(v.strongest[0], c);
  }

  /** A negative margin means, exactly, that another rail's narration outscores the verdict, and the
      strongest challenge then names such a rail. */
  lemma NegativeMarginExactlyWhenRailBeats(v: Verdict, evidence: seq<Evidence>, nonRzp: seq<Narrated>)
    requires !Clashes(evidence) && IsVerdict(v, evidence, nonRzp)
    ensures v.proofMargin < 0.0 <==> RailBeats(evidence, nonRzp)
    ensures v.proofMargin < 0.0 ==>
              |v.strongest| == 1 && v.strongest[0].operator == ObservedCompetingRail && v.strongest[0].rail != Razorpay
  {
    hide Score, Clashes, Sort, Plan, Observed, Ablate, Rank;
    ScoreInUnit(evidence);
    SortMembers(AllChallenges(evidence, nonRzp), Before);
    if v.proofMargin < 0.0 {
      assert v.challenges != [];
      var c := v.strongest[0];
      assert c in v.challenges && c in AllChallenges(evidence, nonRzp);
      ObservedMember(nonRzp, c);
      if c in Ablate(evidence, Plan(evidence)) {
        AblationNeverBeatsVerdict(evidence, Plan(evidence), c);
      }
    } else if RailBeats(evidence, nonRzp) {
      RailBeatsIsNegative(v, evidence, nonRzp);
    }
  }

  // ----- What each ablation takes away

  /** The ties an operator is meant to do without. */
  predicate Removes(o: Operator, s: Signal) {
    match s
    case UtrExact => o == DropExactIdentifier || o == UnlinkedRzp
    case UtrSuffix | UtrSuffixWeak => o == DropExactIdentifier || o == DropSuffix || o == UnlinkedRzp
    case AmountCorr | AmountCorrMulti => o == DropAmountTie || o == UnlinkedRzp
    case SetSum | SplitReconstruction => o == DropSetsum || o == UnlinkedRzp
    case ValueDateProximity => o == DropTimeProximity
    case _ => false
  }

  /** An ablation keeps exactly the evidence its operator does not remove, and the suffix alone is
      dropped exactly when there is no exact reference. */
  lemma PlanRemovesExactly(evidence: seq<Evidence>, a: Ablation, e: Evidence)
    requires a in Plan(evidence)
    ensures e in Without(evidence, a.drop) <==> e in evidence && !Removes(a.operator, e.signal)
    ensures a.operator == DropSuffix ==> !Carries(evidence, UtrExact)
  {
    hide Filter, Plan, Removes, Carries;
    PlanOperator(evidence, a);
  }

  // ----- The margin, exactly

  /** The operator removes something, and says something the exact reference does not. */
  ghost predicate Applies(evidence: seq<Evidence>, o: Operator) {
    && (exists i :: 0 <= i < |evidence| && Removes(o, evidence[i].signal))
    && (o == DropSuffix ==> !Carries(evidence, UtrExact))
  }

  function Remaining(evidence: seq<Evidence>, o: Operator): seq<Evidence> {
    Filter(evidence, (e: Evidence) => !Removes(o, e.signal))
  }

  /** The score of some counterfactual: an observed rail, or the evidence without an operator's ties. */
  ghost predicate CounterScore(evidence: seq<Evidence>, nonRzp: seq<Narrated>, score: real) {
    || (exists i :: 0 <= i < |nonRzp| && nonRzp[i].rail != Razorpay && nonRzp[i].items != []
                    && score == Score(nonRzp[i].items))
    || (exists o :: Applies(evidence, o) && score == Score(Remaining(evidence, o)))
  }

  ghost predicate FromPlan(evidence: seq<Evidence>, plan: seq<Ablation>, c: Challenge) {
    exists a :: a in plan && Present(evidence, a.drop) != []
                && c == Challenge(a.operator, Razorpay, Score(Without(evidence, a.drop)), Present(evidence, a.drop))
  }

  lemma {:induction false} AblatedExactly(evidence: seq<Evidence>, plan: seq<Ablation>, c: Challenge)
    ensures c in Ablate(evidence, plan) <==> FromPlan(evidence, plan, c)
  {
    hide Score, Filter, Carries;
    if plan != [] {
      var n := |plan| - 1;
      assert plan == plan[..n] + [plan[n]];
      AblatedExactly(evidence, plan[..n], c);
    }
  }

  lemma PlanOperator(evidence: seq<Evidence>, a: Ablation)
    requires a in Plan(evidence)
    ensures forall s :: s in a.drop <==> Removes(a.operator, s)
    ensures a.operator == DropSuffix ==> !Carries(evidence, UtrExact)
  {
    hide Carries;
    var plan := Plan(evidence);
    var i :| 0 <= i < |plan| && plan[i] == a;
  }

  lemma OperatorPlanned(evidence: seq<Evidence>, o: Operator) returns (a: Ablation)
    requires o != ObservedCompetingRail && (o == DropSuffix ==> !Carries(evidence, UtrExact))
    ensures a in Plan(evidence) && a.operator == o
  {
    hide Carries;
    var plan := Plan(evidence);
    match o {
      case DropExactIdentifier => a := plan[0];
      case DropSuffix => a := plan[1];
      case DropAmountTie => a := plan[|plan| - 4];
      case DropSetsum => a := plan[|plan| - 3];
      case DropTimeProximity => a := plan[|plan| - 2];
      case UnlinkedRzp => a := plan[|plan| - 1];
    }
  }

  /** The plan's entry for an operator leaves what the operator leaves, and tests something when it applies. */
  lemma PlannedLeaves(evidence: seq<Evidence>, a: Ablation)
    requires a in Plan(evidence)
    ensures Without(evidence, a.drop) == Remaining(evidence, a.operator)
    ensures Present(evidence, a.drop) != [] <==> Applies(evidence, a.operator)
  {
    hide Filter, Plan, Removes;
    PlanOperator(evidence, a);
    FilterSame(evidence, (e: Evidence) => e.signal !in a.drop, (e: Evidence) => !Removes(a.operator, e.signal));
    var present := Present(evidence, a.drop);
    if present != [] {
      assert present[0] in present;
    }
    if i :| 0 <= i < |evidence| && Removes(a.operator, evidence[i].signal) {
      assert evidence[i].signal in a.drop && Carries(evidence, evidence[i].signal);
      assert evidence[i].signal in present;
    }
  }

  /** Exactly the counterfactuals are weighed. */
  lemma WeighsExactly(evidence: seq<Evidence>, nonRzp: seq<Narrated>, score: real)
    ensures (exists c :: c in AllChallenges(evidence, nonRzp) && c.score == score) <==>
              CounterScore(evidence, nonRzp, score)
  {
    hide Score, Plan, Observed, Ablate, Applies, Remaining, Without, Present;
    if c :| c in AllChallenges(evidence, nonRzp) && c.score == score {
      ObservedMember(nonRzp, c);
      AblatedExactly(evidence, Plan(evidence), c);
      if FromPlan(evidence, Plan(evidence), c) {
        var a :| a in Plan(evidence) && Present(evidence, a.drop) != []
                 && c == Challenge(a.operator, Razorpay, Score(Without(evidence, a.drop)), Present(evidence, a.drop));
        PlannedLeaves(evidence, a);
      }
    }
    if i :| 0 <= i < |nonRzp| && nonRzp[i].rail != Razorpay && nonRzp[i].items != []
            && score == Score(nonRzp[i].items) {
      var c := Challenge(ObservedCompetingRail, nonRzp[i].rail, score, []);
      ObservedMember(nonRzp, c);
      assert c in AllChallenges(evidence, nonRzp);
    }
    if o :| Applies(evidence, o) && score == Score(Remaining(evidence, o)) {
      AppliesIsPlanned(evidence, o);
      var a := OperatorPlanned(evidence, o);
      PlannedLeaves(evidence, a);
      var c := Challenge(a.operator, Razorpay, Score(Without(evidence, a.drop)), Present(evidence, a.drop));
      AblatedExactly(evidence, Plan(evidence), c);
      assert c in AllChallenges(evidence, nonRzp);
    }
  }

  lemma AppliesIsPlanned(evidence: seq<Evidence>, o: Operator)
    requires Applies(evidence, o)
    ensures o != ObservedCompetingRail && (o == DropSuffix ==> !Carries(evidence, UtrExact))
  {
  }

  /** The margin is the score less the best counterfactual's, or the score itself when there is none. */
  lemma MarginIsAgainstTheBest(v: Verdict, evidence: seq<Evidence>, nonRzp: seq<Narrated>)
    requires IsVerdict(v, evidence, nonRzp)
    ensures v.proofMargin == Score(evidence) - v.competingScore
    ensures forall score :: CounterScore(evidence, nonRzp, score) ==> score <= v.competingScore
    ensures CounterScore(evidence, nonRzp, v.competingScore)
            || (v.competingScore == 0.0 && !exists score :: CounterScore(evidence, nonRzp, score))
  {
    hide Score, Sort, AllChallenges, Rank, CounterScore;
    SortMembers(AllChallenges(evidence, nonRzp), Before);
    forall score
      ensures CounterScore(evidence, nonRzp, score) <==> exists c :: c in v.challenges && c.score == score
    {
      WeighsExactly(evidence, nonRzp, score);
    }
    if v.challenges != [] {
      assert v.strongest[0] in v.challenges;
    }
  }
}
