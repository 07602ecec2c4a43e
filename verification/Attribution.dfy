/** Tiered attribution of one bank line, behind the proof gate and the challenger. */
module Attribution {
  import opened Options
  import opened Sequences
  import opened EvidenceScoring
  import opened Challenger
  import SumEvidence
  import SplitLegs

  type Payout = SplitLegs.Payout

  /** A bank line with the signals found in its text: per other rail, and for Razorpay. */
  datatype BankLine = BankLine(key: int, isCredit: bool, amount: int, day: int, nonRzp: seq<Narrated>,
                               rzp: seq<Evidence>)

  datatype Tier = TierA | TierB | TierC | TierRule | TierNone

  datatype Verdicted = Verdicted(
    key: int, rail: Rail, confidence: real, tier: Tier, evidence: seq<Evidence>, abstained: bool,
    margin: Option<real>, competing: seq<Challenge>)

  /** The run's settings: score threshold, margin threshold, and the display-only challenger pass. */
  datatype Settings = Settings(threshold: real, margin: real, audit: bool)

  function Accepted(key: int, rail: Rail, confidence: real, tier: Tier, evidence: seq<Evidence>): Verdicted {
    Verdicted(key, rail, confidence, tier, evidence, false, None, [])
  }

  function Abstains(key: int, confidence: real, evidence: seq<Evidence>): Verdicted {
    Verdicted(key, Unknown, confidence, TierNone, evidence, true, None, [])
  }

  predicate Hard(ev: seq<Evidence>) {
    Carries(ev, UtrExact) || Carries(ev, UtrSuffix) || Carries(ev, SetSum)
  }

  /** A genuine tie back to the settlement report. */
  predicate Tied(ev: seq<Evidence>) {
    Hard(ev) || Carries(ev, AmountCorr)
  }

  // ----- The challenger's gate

  function Finalized(line: BankLine, ev: seq<Evidence>, score: real, tier: Tier, s: Settings): Verdicted {
    var accept := Accepted(line.key, Razorpay, score, tier, ev);
    var v := Challenged(ev, line.nonRzp, score, MAX_CHALLENGES);
    if s.margin <= 0.0 then
      if s.audit then accept.(margin := Some(v.proofMargin), competing := v.strongest) else accept
    else if v.truncated || v.proofMargin < s.margin then
      Verdicted(line.key, Unknown, score, TierNone, ev + [Evidence(ProofMarginLow, 0.0)], true,
                Some(v.proofMargin), v.strongest)
    else accept.(margin := Some(v.proofMargin), competing := v.strongest)
  }

  /** A rail whose narration outscores the evidence is always enough to abstain at a positive threshold. */
  lemma BeatenIsDemoted(line: BankLine, ev: seq<Evidence>, tier: Tier, s: Settings)
    requires s.margin > 0.0 && OnePerRail(line.nonRzp) && RailBeats(ev, line.nonRzp)
    ensures Finalized(line, ev, Score(ev), tier, s).abstained
  {
    hide Challenged, Score, IsVerdict, RailBeats, OnePerRail;
    ChallengedIsVerdict(ev, line.nonRzp);
    RailBeatsIsNegative(Challenged(ev, line.nonRzp, Score(ev), MAX_CHALLENGES), ev, line.nonRzp);
  }

  /** The verdict is Razorpay on the evidence given, or an abstention; it abstains exactly when a positive
      margin threshold is not met, and always on a credit that another rail's narration outscores. */
  ghost predicate GateMeans(line: BankLine, ev: seq<Evidence>, score: real, tier: Tier, s: Settings, a: Verdicted) {
    && a.key == line.key && (IsRazorpay(a) ==> a.evidence == ev && a.tier == tier && a.confidence == score)
    && (!IsRazorpay(a) ==> a.abstained && a.rail == Unknown && a.tier == TierNone)
    && (var v := Challenged(ev, line.nonRzp, score, MAX_CHALLENGES);
        a.abstained <==> s.margin > 0.0 && (v.truncated || v.proofMargin < s.margin))
    && (s.margin > 0.0 && OnePerRail(line.nonRzp) && score == Score(ev) && RailBeats(ev, line.nonRzp) ==> a.abstained)
  }

  /** `_finalize_razorpay`. */
  method Finalize(line: BankLine, ev: seq<Evidence>, score: real, tier: Tier, s: Settings) returns (a: Verdicted)
    ensures a == Finalized(line, ev, score, tier, s) && GateMeans(line, ev, score, tier, s, a)
  {
    hide Challenged, Score, RailBeats, OnePerRail;
    FinalizedFacts(line, ev, score, tier, s);
    if s.margin > 0.0 && OnePerRail(line.nonRzp) && score == Score(ev) && RailBeats(ev, line.nonRzp) {
      BeatenIsDemoted(line, ev, tier, s);
    }
    a := Accepted(line.key, Razorpay, score, tier, ev);
    if s.margin <= 0.0 {
      if s.audit {
        var v := ChallengeRazorpay(ev, line.nonRzp, score, MAX_CHALLENGES);
        a := a.(margin := Some(v.proofMargin), competing := v.strongest);
      }
      return;
    }
    var v := ChallengeRazorpay(ev, line.nonRzp, score, MAX_CHALLENGES);
    if v.truncated || v.proofMargin < s.margin {
      return Verdicted(line.key, Unknown, score, TierNone, ev + [Evidence(ProofMarginLow, 0.0)], true,
                       Some(v.proofMargin), v.strongest);
    }
    a := a.(margin := Some(v.proofMargin), competing := v.strongest);
  }

  // ----- Rail scores

  datatype Scored = Scored(rail: Rail, score: real, evidence: seq<Evidence>, tier: Tier)

  /** `max` by score, then by the rail's name. */
  function Better(best: seq<Scored>, c: Scored): seq<Scored> {
    if best == [] || c.score > best[0].score
       || (c.score == best[0].score && RailRank(c.rail) > RailRank(best[0].rail)) then [c]
    else best
  }

  function BestOf(cs: seq<Scored>): seq<Scored> {
    if cs == [] then [] else Better(BestOf(cs[..|cs| - 1]), cs[|cs| - 1])
  }

  function RailScores(nonRzp: seq<Narrated>): (r: seq<Scored>)
    ensures |r| == |nonRzp|
    ensures forall i :: 0 <= i < |r| ==> r[i] == Scored(nonRzp[i].rail, Score(nonRzp[i].items), nonRzp[i].items, TierB)
  {
    seq(|nonRzp|, i requires 0 <= i < |nonRzp| =>
      Scored(nonRzp[i].rail, Score(nonRzp[i].items), nonRzp[i].items, TierB))
  }

  /** Assigning a rail's entry replaces an entry it already has. */
  function Put(cs: seq<Scored>, c: Scored): seq<Scored> {
    Filter(cs, (x: Scored) => x.rail != c.rail) + [c]
  }

  method ScoreRails(nonRzp: seq<Narrated>) returns (cs: seq<Scored>)
    ensures cs == RailScores(nonRzp)
  {
    hide Score;
    cs := [];
    for i := 0 to |nonRzp|
      invariant cs == RailScores(nonRzp[..i])
    {
      var score := Combine(nonRzp[i].items);
      cs := cs + [Scored(nonRzp[i].rail, score, nonRzp[i].items, TierB)];
    }
    assert nonRzp[..|nonRzp|] == nonRzp;
  }

  method PickBest(cs: seq<Scored>) returns (best: seq<Scored>)
    ensures best == BestOf(cs)
  {
    best := [];
    for i := 0 to |cs|
      invariant best == BestOf(cs[..i])
    {
      assert cs[..i + 1][..i] == cs[..i];
      best := Better(best, cs[i]);
    }
    assert cs[..|cs|] == cs;
  }

  /** Below in score or, at equal scores, not above in name. */
  predicate AtMost(c: Scored, best: Scored) {
    c.score < best.score || (c.score == best.score && RailRank(c.rail) <= RailRank(best.rail))
  }

  /** The entry chosen is one of the entries, and none is above it by score, then by name. */
  lemma {:induction false} BestIsBest(cs: seq<Scored>)
    ensures cs == [] ==> BestOf(cs) == []
    ensures cs != [] ==> |BestOf(cs)| == 1 && BestOf(cs)[0] in cs
    ensures cs != [] ==> forall c :: c in cs ==> AtMost(c, BestOf(cs)[0])
  {
    if cs != [] {
      BestIsBest(cs[..|cs| - 1]);
      assert cs == cs[..|cs| - 1] + [cs[|cs| - 1]];
    }
  }

  // ----- One line

  function DebitVerdict(line: BankLine, s: Settings): Verdicted {
    BestIsBest(RailScores(line.nonRzp));
    if line.nonRzp == [] then Abstains(line.key, 0.0, [])
    else
      var best := BestOf(RailScores(line.nonRzp))[0];
      if best.score < s.threshold then Abstains(line.key, best.score, best.evidence)
      else Accepted(line.key, best.rail, best.score, TierB, best.evidence)
  }

  /** What Razorpay scores: nothing without a tie, nor against another rail's keyword without a hard tie. */
  function RazorpayScore(line: BankLine, ev: seq<Evidence>, hard: bool): real {
    if (line.nonRzp != [] && !hard) || !Tied(ev) then 0.0 else Score(ev)
  }

  function Entries(line: BankLine, ev: seq<Evidence>, hard: bool, tier: Tier): seq<Scored> {
    var score := RazorpayScore(line, ev, hard);
    if score > 0.0 then Put(RailScores(line.nonRzp), Scored(Razorpay, score, ev, if hard then tier else TierB))
    else RailScores(line.nonRzp)
  }

  function Weighed(line: BankLine, ev: seq<Evidence>, hard: bool, tier: Tier, s: Settings): Verdicted {
    var cs := Entries(line, ev, hard, tier);
    BestIsBest(cs);
    if cs == [] then Abstains(line.key, 0.0, ev)
    else
      var best := BestOf(cs)[0];
      if best.score < s.threshold then Abstains(line.key, best.score, best.evidence)
      else if best.rail == Razorpay then Finalized(line, best.evidence, best.score, best.tier, s)
      else Accepted(line.key, best.rail, best.score, TierB, best.evidence)
  }

  function FindingOf(line: BankLine, ss: seq<Payout>): SumEvidence.Finding {
    if Hard(line.rzp) then SumEvidence.NoSum else SumEvidence.SumFinding(line.isCredit, line.amount, line.day, ss)
  }

  function FindingEvidence(f: SumEvidence.Finding): seq<Evidence> {
    match f
    case NoSum => []
    case SumUnenumerable => [Evidence(SetSumUnenumerable, 0.0)]
    case SumAmbiguous => [Evidence(MultipleSubsets, 0.0)]
    case SumFound => [Evidence(SetSum, 0.55)]
  }

  function CreditVerdict(line: BankLine, f: SumEvidence.Finding, s: Settings): Verdicted {
    if (f.SumUnenumerable? || f.SumAmbiguous?) && line.nonRzp == [] then
      Abstains(line.key, 0.0, line.rzp + FindingEvidence(f))
    else if f.SumFound? && line.rzp != [] && line.nonRzp == [] then
      Weighed(line, line.rzp + FindingEvidence(f), true, TierC, s)
    else Weighed(line, line.rzp, Hard(line.rzp), TierB, s)
  }

  function Attributed(line: BankLine, ss: seq<Payout>, s: Settings): Verdicted {
    if !line.isCredit then DebitVerdict(line, s)
    else if Carries(line.rzp, UtrExact) then Finalized(line, line.rzp, Score(line.rzp), TierA, s)
    else CreditVerdict(line, FindingOf(line, ss), s)
  }

  /** `attribute_line`. */
  method AttributeLine(line: BankLine, ss: seq<Payout>, s: Settings) returns (a: Verdicted)
    ensures a == Attributed(line, ss, s)
    ensures !line.isCredit ==> forall r :: (!a.abstained && a.rail == r) <==> NarratesMost(line, s.threshold, r)
    ensures line.isCredit && !Carries(line.rzp, UtrExact) && s.margin <= 0.0 ==>
              forall r :: (!a.abstained && a.rail == r) <==> !SumForbids(line, ss) && Wins(line, ss, s.threshold, r)
  {
    hide Score, Finalized, GateMeans, Carries, SumEvidence.SumFinding, RailScores, BestOf, Put, NarratesMost, Wins,
         SumForbids;
    WhoIsAccepted(line, ss, s);
    if !line.isCredit {
      var scores := ScoreRails(line.nonRzp);
      if scores == [] {
        return Abstains(line.key, 0.0, []);
      }
      var best := PickBest(scores);
      BestIsBest(scores);
      if best[0].score < s.threshold {
        return Abstains(line.key, best[0].score, best[0].evidence);
      }
      return Accepted(line.key, best[0].rail, best[0].score, TierB, best[0].evidence);
    }
    var ev, hard, tier := line.rzp, Hard(line.rzp), TierB;
    if Carries(ev, UtrExact) {
      var conf := Combine(ev);
      a := Finalize(line, ev, conf, TierA, s);
      return;
    }
    if !hard {
      var f := SumEvidence.FindSum(line.isCredit, line.amount, line.day, ss);
      if f.SumUnenumerable? && line.nonRzp == [] {
        return Abstains(line.key, 0.0, ev + FindingEvidence(f));
      }
      if f.SumAmbiguous? && line.nonRzp == [] {
        return Abstains(line.key, 0.0, ev + FindingEvidence(f));
      }
      if !f.NoSum? && !f.SumAmbiguous? && ev != [] && line.nonRzp == [] {
        ev, hard, tier := ev + FindingEvidence(f), true, TierC;
      }
    }
    a := WeighRails(line, ev, hard, tier, s);
  }

  method WeighRails(line: BankLine, ev: seq<Evidence>, hard: bool, tier: Tier, s: Settings) returns (a: Verdicted)
    ensures a == Weighed(line, ev, hard, tier, s)
  {
    hide Score, Finalized, GateMeans, Carries, RailScores, BestOf, Put, Tied;
    var scores := ScoreRails(line.nonRzp);
    var rzpScore := Combine(ev);
    if line.nonRzp != [] && !hard {
      rzpScore := 0.0;
    }
    if !Tied(ev) {
      rzpScore := 0.0;
    }
    if rzpScore > 0.0 {
      scores := Put(scores, Scored(Razorpay, rzpScore, ev, if hard then tier else TierB));
    }
    if scores == [] {
      return Abstains(line.key, 0.0, ev);
    }
    var best := PickBest(scores);
    BestIsBest(scores);
    if best[0].score < s.threshold {
      return Abstains(line.key, best[0].score, best[0].evidence);
    }
    if best[0].rail == Razorpay {
      a := Finalize(line, best[0].evidence, best[0].score, best[0].tier, s);
      return;
    }
    return Accepted(line.key, best[0].rail, best[0].score, TierB, best[0].evidence);
  }

  // ----- The proof gate

  predicate IsRazorpay(a: Verdicted) {
    !a.abstained && a.rail == Razorpay
  }

  /** A keyword pack that files narration evidence under Razorpay itself; the registered pack has none. */
  predicate FiledAsRazorpay(line: BankLine) {
    exists i :: 0 <= i < |line.nonRzp| && line.nonRzp[i].rail == Razorpay
  }

  lemma FinalizedFacts(line: BankLine, ev: seq<Evidence>, score: real, tier: Tier, s: Settings)
    ensures var a := Finalized(line, ev, score, tier, s);
            && a.key == line.key
            && (IsRazorpay(a) ==> a.evidence == ev && a.tier == tier && a.confidence == score)
            && (!IsRazorpay(a) ==> a.abstained && a.rail == Unknown && a.tier == TierNone)
            && (a.abstained <==>
                  s.margin > 0.0 && (Challenged(ev, line.nonRzp, score, MAX_CHALLENGES).truncated
                                     || Challenged(ev, line.nonRzp, score, MAX_CHALLENGES).proofMargin < s.margin))
  {
    hide Challenged;
  }

  lemma EntriesMember(line: BankLine, ev: seq<Evidence>, hard: bool, tier: Tier, c: Scored)
    requires c in Entries(line, ev, hard, tier)
    ensures c.rail == Razorpay && !FiledAsRazorpay(line) ==>
              c.evidence == ev && c.score == RazorpayScore(line, ev, hard) && c.score > 0.0
              && c.tier == (if hard then tier else TierB)
  {
    hide Score, Tied;
    if c in RailScores(line.nonRzp) {
      var i :| 0 <= i < |line.nonRzp| && RailScores(line.nonRzp)[i] == c;
    }
  }

  lemma WeighedFacts(line: BankLine, ev: seq<Evidence>, hard: bool, tier: Tier, s: Settings)
    ensures var a := Weighed(line, ev, hard, tier, s);
            IsRazorpay(a) && !FiledAsRazorpay(line) ==>
              a.evidence == ev && Tied(ev) && (line.nonRzp != [] ==> hard) && a.tier == (if hard then tier else TierB)
  {
    hide Score, Finalized, Tied, Entries, BestOf, FiledAsRazorpay;
    var cs := Entries(line, ev, hard, tier);
    BestIsBest(cs);
    if cs != [] {
      var best := BestOf(cs)[0];
      EntriesMember(line, ev, hard, tier, best);
      FinalizedFacts(line, best.evidence, best.score, best.tier, s);
    }
  }

  /** The proof gate: a Razorpay verdict is on a credit and rests on a genuine tie. */
  lemma GateHolds(line: BankLine, ss: seq<Payout>, s: Settings)
    requires !FiledAsRazorpay(line)
    ensures var a := Attributed(line, ss, s); IsRazorpay(a) ==> line.isCredit && Tied(a.evidence)
    ensures var a := Attributed(line, ss, s); IsRazorpay(a) && a.tier == TierA ==> Carries(a.evidence, UtrExact)
  {
    hide Score, Finalized, FiledAsRazorpay, Weighed, SumEvidence.SumFinding, Carries;
    if !line.isCredit {
      DebitIsNotRazorpay(line, s);
    } else if Carries(line.rzp, UtrExact) {
      FinalizedFacts(line, line.rzp, Score(line.rzp), TierA, s);
    } else {
      var f := FindingOf(line, ss);
      WeighedFacts(line, line.rzp + FindingEvidence(f), true, TierC, s);
      WeighedFacts(line, line.rzp, Hard(line.rzp), TierB, s);
    }
  }

  lemma AttributedKey(line: BankLine, ss: seq<Payout>, s: Settings)
    ensures Attributed(line, ss, s).key == line.key
  {
    hide Score, Challenged, FindingOf, Carries, RailScores, BestOf, Entries, Hard, FindingEvidence;
  }

  lemma DebitIsNotRazorpay(line: BankLine, s: Settings)
    requires !FiledAsRazorpay(line)
    ensures DebitVerdict(line, s).rail != Razorpay
  {
    hide Score, BestOf;
    var cs := RailScores(line.nonRzp);
    BestIsBest(cs);
    if cs != [] {
      var i :| 0 <= i < |cs| && cs[i] == BestOf(cs)[0];
    }
  }

  /** An amount tie alone never beats another rail's keyword. */
  lemma AmountAloneNeverBeatsKeyword(line: BankLine, ss: seq<Payout>, s: Settings)
    requires !FiledAsRazorpay(line) && line.nonRzp != [] && !Hard(line.rzp)
    ensures !IsRazorpay(Attributed(line, ss, s))
  {
    hide Score, Finalized, FiledAsRazorpay, Weighed, SumEvidence.SumFinding, Carries;
    if !line.isCredit {
      DebitIsNotRazorpay(line, s);
    } else {
      WeighedFacts(line, line.rzp, Hard(line.rzp), TierB, s);
    }
  }

  /** Filing narration under Razorpay would break the gate: a debit becomes a Razorpay verdict with no tie. */
  lemma FiledAsRazorpayBreaksGate(line: BankLine, ss: seq<Payout>, s: Settings)
    requires !line.isCredit && |line.nonRzp| == 1 && line.nonRzp[0].rail == Razorpay
    requires Score(line.nonRzp[0].items) >= s.threshold
    ensures IsRazorpay(Attributed(line, ss, s))
  {
    hide Score;
    var cs := RailScores(line.nonRzp);
    BestIsBest(cs);
    assert cs == [cs[0]];
  }

  // ----- The margin only demotes

  /** What the verdict says, without the challenger's annotations. */
  function Plain(a: Verdicted): Verdicted {
    a.(margin := None, competing := [])
  }

  /** Turning the challenger on, at any threshold, changes a verdict only by abstaining from Razorpay. */
  lemma MarginOnlyDemotes(line: BankLine, ss: seq<Payout>, s: Settings)
    ensures var on, off := Attributed(line, ss, s), Attributed(line, ss, s.(margin := 0.0, audit := false));
            Plain(on) == Plain(off) || (IsRazorpay(off) && on.abstained && on.rail == Unknown && s.margin > 0.0)
  {
    hide Score, Challenged, SumEvidence.SumFinding, Carries, RailScores, BestOf, Entries;
  }

  /** With each rail named once, a reference-tied credit is accepted exactly when its margin reaches the threshold. */
  lemma TierAAcceptedExactlyWhen(line: BankLine, ss: seq<Payout>, s: Settings)
    requires line.isCredit && Carries(line.rzp, UtrExact) && OnePerRail(line.nonRzp)
    ensures IsRazorpay(Attributed(line, ss, s)) <==>
            s.margin <= 0.0 || Challenged(line.rzp, line.nonRzp, Score(line.rzp),
                                          MAX_CHALLENGES).proofMargin >= s.margin
  {
    hide Score, Challenged, Carries, OnePerRail, Finalized;
    ChallengedIsVerdict(line.rzp, line.nonRzp);
    FinalizedFacts(line, line.rzp, Score(line.rzp), TierA, s);
  }

  // ----- Resemblance is not proof

  /** What merely looks like Razorpay: brand words, the settlement IFSC, an unlisted reference, a weak
      suffix, a shared amount, a near date. */
  predicate Resemblance(s: Signal) {
    s == BrandRzp || s == IfscRatn || s == SettlementRef || s == UtrSuffixWeak || s == AmountCorrMulti
    || s == ValueDateProximity
  }

  /** However much a line resembles Razorpay, without a found sum it is never attributed to it. */
  lemma ResemblanceNeverDecides(line: BankLine, ss: seq<Payout>, s: Settings)
    requires !FiledAsRazorpay(line) && !FindingOf(line, ss).SumFound?
    requires forall i :: 0 <= i < |line.rzp| ==> Resemblance(line.rzp[i].signal)
    ensures !IsRazorpay(Attributed(line, ss, s))
  {
    hide Score, Finalized, FiledAsRazorpay, Weighed, SumEvidence.SumFinding;
    if !line.isCredit {
      DebitIsNotRazorpay(line, s);
    } else {
      WeighedFacts(line, line.rzp, Hard(line.rzp), TierB, s);
    }
  }

  // ----- Who is accepted, exactly

  /** What Razorpay is judged on: its own evidence, and a found sum when nothing else speaks. */
  function EvidenceFor(line: BankLine, ss: seq<Payout>): seq<Evidence> {
    if FindingOf(line, ss).SumFound? && line.rzp != [] && line.nonRzp == [] then line.rzp + [Evidence(SetSum, 0.55)]
    else line.rzp
  }

  /** Razorpay competes with a genuine tie and either no other keyword or a hard tie of its own. */
  predicate RazorpayCompetes(line: BankLine, ss: seq<Payout>) {
    && Tied(EvidenceFor(line, ss)) && (line.nonRzp == [] || Hard(line.rzp))
    && Score(EvidenceFor(line, ss)) > 0.0
  }

  /** The narration of one rail, with its score. */
  ghost predicate Narrates(line: BankLine, r: Rail, score: real) {
    exists i :: 0 <= i < |line.nonRzp| && line.nonRzp[i].rail == r && score == Score(line.nonRzp[i].items)
  }

  /** The rail takes part with the score. */
  ghost predicate Entrant(line: BankLine, ss: seq<Payout>, r: Rail, score: real) {
    if r == Razorpay && RazorpayCompetes(line, ss) then score == Score(EvidenceFor(line, ss))
    else Narrates(line, r, score)
  }

  /** A sum that is not the only one, or could not be decided, is a reason to abstain when no other rail speaks. */
  predicate SumForbids(line: BankLine, ss: seq<Payout>) {
    line.nonRzp == [] && (FindingOf(line, ss).SumUnenumerable? || FindingOf(line, ss).SumAmbiguous?)
  }

  predicate Above(r: Rail, score: real, r': Rail, score': real) {
    score' < score || (score' == score && RailRank(r') <= RailRank(r))
  }

  /** The rail takes part, reaches the threshold, and no rail that takes part is above it. */
  ghost predicate Wins(line: BankLine, ss: seq<Payout>, threshold: real, r: Rail) {
    exists score :: Entrant(line, ss, r, score) && score >= threshold
                    && forall r', score' :: Entrant(line, ss, r', score') ==> Above(r, score, r', score')
  }

  ghost predicate NarratesMost(line: BankLine, threshold: real, r: Rail) {
    exists score :: Narrates(line, r, score) && score >= threshold
                    && forall r', score' :: Narrates(line, r', score') ==> Above(r, score, r', score')
  }

  ghost predicate ListsAs(cs: seq<Scored>, r: Rail, score: real) {
    exists c :: c in cs && c.rail == r && c.score == score
  }

  lemma RailScoresList(line: BankLine, r: Rail, score: real)
    ensures ListsAs(RailScores(line.nonRzp), r, score) <==> Narrates(line, r, score)
  {
    hide Score;
    var cs := RailScores(line.nonRzp);
    if i :| 0 <= i < |line.nonRzp| && line.nonRzp[i].rail == r && score == Score(line.nonRzp[i].items) {
      assert cs[i] in cs;
    }
  }

  lemma EntriesList(line: BankLine, ev: seq<Evidence>, hard: bool, tier: Tier, r: Rail, score: real)
    ensures var own := RazorpayScore(line, ev, hard);
            ListsAs(Entries(line, ev, hard, tier), r, score)
            <==> if r == Razorpay && own > 0.0 then score == own else Narrates(line, r, score)
  {
    hide Score, Tied, RailScores, Filter;
    RailScoresList(line, r, score);
    var cs, own := RailScores(line.nonRzp), RazorpayScore(line, ev, hard);
    if own > 0.0 {
      var mine := Scored(Razorpay, own, ev, if hard then tier else TierB);
      var all := Put(cs, mine);
      assert forall c :: c in all <==> (c in cs && c.rail != Razorpay) || c == mine;
      if r == Razorpay {
        assert mine in all;
      }
    }
  }

  lemma RankIsName(r: Rail, r': Rail)
    ensures RailRank(r) == RailRank(r') ==> r == r'
  {
  }

  /** The best entry is the rail that is above all others and reaches the threshold. */
  lemma BestWins(cs: seq<Scored>, threshold: real, r: Rail)
    requires cs != []
    ensures |BestOf(cs)| == 1 && BestOf(cs)[0] in cs
    ensures var best := BestOf(cs)[0];
            best.score >= threshold && best.rail == r
            <==> exists score :: ListsAs(cs, r, score) && score >= threshold
                                 && forall r', score' :: ListsAs(cs, r', score') ==> Above(r, score, r', score')
  {
    hide BestOf;
    BestIsBest(cs);
    var best := BestOf(cs)[0];
    assert ListsAs(cs, best.rail, best.score);
    if best.score >= threshold && best.rail == r {
      assert ListsAs(cs, r, best.score);
    }
    if score :| ListsAs(cs, r, score) && score >= threshold
                && forall r', score' :: ListsAs(cs, r', score') ==> Above(r, score, r', score') {
      var c :| c in cs && c.rail == r && c.score == score;
      assert AtMost(c, best) && Above(r, score, best.rail, best.score);
      RankIsName(r, best.rail);
    }
  }

  /** A debit is accepted for a rail exactly when its narration reaches the threshold and is above all others. */
  lemma DebitAcceptedExactlyWhen(line: BankLine, ss: seq<Payout>, s: Settings, r: Rail)
    requires !line.isCredit
    ensures var a := Attributed(line, ss, s); (!a.abstained && a.rail == r) <==> NarratesMost(line, s.threshold, r)
    ensures var a := Attributed(line, ss, s); a.abstained ==> a.rail == Unknown && a.tier == TierNone
    ensures var a := Attributed(line, ss, s); !a.abstained ==> Narrates(line, a.rail, a.confidence) && a.tier == TierB
  {
    hide Score, BestOf, RailScores, Narrates, ListsAs, Above;
    var cs := RailScores(line.nonRzp);
    forall r', score'
      ensures ListsAs(cs, r', score') <==> Narrates(line, r', score')
    {
      RailScoresList(line, r', score');
    }
    if cs == [] {
      NothingListed();
    } else {
      BestWins(cs, s.threshold, r);
      BestListed(cs);
    }
  }

  lemma NothingListed()
    ensures forall r, score :: !ListsAs([], r, score)
  {
  }

  lemma BestListed(cs: seq<Scored>)
    requires cs != []
    ensures |BestOf(cs)| == 1 && ListsAs(cs, BestOf(cs)[0].rail, BestOf(cs)[0].score)
  {
    hide BestOf;
    BestIsBest(cs);
  }

  /** Weighing with the challenger off, over the rails that take part. */
  lemma WeighedWinner(line: BankLine, ev: seq<Evidence>, hard: bool, tier: Tier, s: Settings, r: Rail)
    requires s.margin <= 0.0
    ensures var a, cs := Weighed(line, ev, hard, tier, s), Entries(line, ev, hard, tier);
            && ((!a.abstained && a.rail == r) <==>
                  exists score :: ListsAs(cs, r, score) && score >= s.threshold
                                  && forall r', score' :: ListsAs(cs, r', score') ==> Above(r, score, r', score'))
            && (a.abstained ==> a.rail == Unknown && a.tier == TierNone)
            && (!a.abstained ==> ListsAs(cs, a.rail, a.confidence))
  {
    hide Score, BestOf, Entries, ListsAs, Above, Challenged;
    var cs := Entries(line, ev, hard, tier);
    if cs == [] {
      NothingListed();
    } else {
      BestWins(cs, s.threshold, r);
      BestListed(cs);
    }
  }

  /** Without an exact reference and with the challenger off, a credit is accepted for a rail exactly when
      the rail takes part, reaches the threshold and is above every other rail that takes part. */
  lemma CreditAcceptedExactlyWhen(line: BankLine, ss: seq<Payout>, s: Settings, r: Rail)
    requires line.isCredit && !Carries(line.rzp, UtrExact) && s.margin <= 0.0
    ensures var a := Attributed(line, ss, s);
            (!a.abstained && a.rail == r) <==> !SumForbids(line, ss) && Wins(line, ss, s.threshold, r)
    ensures var a := Attributed(line, ss, s);
            && (a.abstained ==> a.rail == Unknown && a.tier == TierNone)
            && (!a.abstained ==> Entrant(line, ss, a.rail, a.confidence))
  {
    hide Score, BestOf, Entries, ListsAs, Above, Weighed, FindingOf, Carries, Tied, Hard, Narrates;
    var f := FindingOf(line, ss);
    if !SumForbids(line, ss) {
      var found, ev := f.SumFound? && line.rzp != [] && line.nonRzp == [], EvidenceFor(line, ss);
      var hard, tier := found || Hard(line.rzp), if found then TierC else TierB;
      assert Attributed(line, ss, s) == Weighed(line, ev, hard, tier, s);
      WeighedWinner(line, ev, hard, tier, s, r);
      forall r', score'
        ensures ListsAs(Entries(line, ev, hard, tier), r', score') <==> Entrant(line, ss, r', score')
      {
        EntriesList(line, ev, hard, tier, r', score');
      }
    }
  }

  lemma WhoIsAccepted(line: BankLine, ss: seq<Payout>, s: Settings)
    ensures !line.isCredit ==>
              forall r :: (!Attributed(line, ss, s).abstained && Attributed(line, ss, s).rail == r)
                          <==> NarratesMost(line, s.threshold, r)
    ensures line.isCredit && !Carries(line.rzp, UtrExact) && s.margin <= 0.0 ==>
              forall r :: (!Attributed(line, ss, s).abstained && Attributed(line, ss, s).rail == r)
                          <==> !SumForbids(line, ss) && Wins(line, ss, s.threshold, r)
  {
    hide Attributed, NarratesMost, Wins, SumForbids, Carries;
    forall r: Rail
      ensures !line.isCredit ==>
                ((!Attributed(line, ss, s).abstained && Attributed(line, ss, s).rail == r)
                 <==> NarratesMost(line, s.threshold, r))
      ensures line.isCredit && !Carries(line.rzp, UtrExact) && s.margin <= 0.0 ==>
                ((!Attributed(line, ss, s).abstained && Attributed(line, ss, s).rail == r)
                 <==> !SumForbids(line, ss) && Wins(line, ss, s.threshold, r))
    {
      if !line.isCredit {
        DebitAcceptedExactlyWhen(line, ss, s, r);
      } else if !Carries(line.rzp, UtrExact) && s.margin <= 0.0 {
        CreditAcceptedExactlyWhen(line, ss, s, r);
      }
    }
  }

  /** An accepted Razorpay verdict is abstained from exactly when a positive threshold is not met. */
  lemma DemotedExactlyWhen(line: BankLine, ss: seq<Payout>, s: Settings)
    requires !FiledAsRazorpay(line)
    ensures var on, off := Attributed(line, ss, s), Attributed(line, ss, s.(margin := 0.0, audit := false));
            var v := Challenged(off.evidence, line.nonRzp, off.confidence, MAX_CHALLENGES);
            IsRazorpay(on) <==> IsRazorpay(off) && (s.margin <= 0.0 || (!v.truncated && v.proofMargin >= s.margin))
  {
    hide Score, Challenged, SumEvidence.SumFinding, Carries, RailScores, BestOf, Entries, FiledAsRazorpay;
    if !line.isCredit {
      DebitIsNotRazorpay(line, s);
      DebitIsNotRazorpay(line, s.(margin := 0.0, audit := false));
    }
  }

  /** A Razorpay verdict rests on the evidence it competed with; a found sum makes it Tier C. */
  lemma RazorpayRestsOn(line: BankLine, ss: seq<Payout>, s: Settings)
    requires !FiledAsRazorpay(line) && line.isCredit && !Carries(line.rzp, UtrExact)
    ensures var a := Attributed(line, ss, s);
            IsRazorpay(a) ==>
              && a.evidence == EvidenceFor(line, ss)
              && a.tier == if FindingOf(line, ss).SumFound? && line.rzp != [] && line.nonRzp == [] then TierC else TierB
  {
    hide Score, Finalized, FiledAsRazorpay, Weighed, FindingOf, Carries;
    WeighedFacts(line, line.rzp + FindingEvidence(FindingOf(line, ss)), true, TierC, s);
    WeighedFacts(line, line.rzp, Hard(line.rzp), TierB, s);
  }

  /** Each genuine tie is enough by itself: alone on a credit, at the threshold, it decides for Razorpay. */
  lemma EachTieSuffices(line: BankLine, ss: seq<Payout>, s: Settings, tie: Signal, w: real)
    requires tie == UtrSuffix || tie == SetSum || (tie == AmountCorr && FindingOf(line, ss).NoSum?)
    requires line.isCredit && line.rzp == [Evidence(tie, w)] && line.nonRzp == []
    requires s.margin <= 0.0 && 0.0 < w <= 0.99 && s.threshold <= w
    ensures IsRazorpay(Attributed(line, ss, s)) && Attributed(line, ss, s).confidence == w
  {
    hide Score, Attributed, SumEvidence.SumFinding;
    assert line.rzp[0].signal == tie;
    assert !Carries(line.rzp, UtrExact) && EvidenceFor(line, ss) == line.rzp;
    ScoreOfOne(Evidence(tie, w));
    CreditAcceptedExactlyWhen(line, ss, s, Razorpay);
    assert Entrant(line, ss, Razorpay, w);
  }
}
