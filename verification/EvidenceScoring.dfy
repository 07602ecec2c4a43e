/** Correlation-aware evidence scoring: strongest signal per channel with a bounded boost, noisy-OR across channels. */
module EvidenceScoring {
  import opened Sequences

  datatype Signal =
    | UtrExact | UtrSuffix | UtrSuffixWeak | SettlementRef
    | BrandRzp | IfscRatn | NarrationPattern(name: string)
    | AmountCorr | AmountCorrMulti | ValueDateProximity | SetSum
    | SplitReconstruction | SetSumUnenumerable | MultipleSubsets | ProofMarginLow
    | RuleMatch | RuleConflict | Other(name: string)

  datatype Evidence = Evidence(signal: Signal, weight: real)

  datatype Channel = Identifier | Narration | AmountTime | Own(signal: Signal)

  function ChannelOf(s: Signal): Channel {
    match s
    case UtrExact | UtrSuffix | UtrSuffixWeak | SettlementRef => Identifier
    case BrandRzp | IfscRatn | NarrationPattern(_) => Narration
    case AmountCorr | AmountCorrMulti | ValueDateProximity | SetSum => AmountTime
    case _ => Own(s)
  }

  const CHANNEL_CAP: real := 0.98
  const SCORE_CAP: real := 0.99

  function Min(a: real, b: real): real { if a <= b then a else b }

  function Max(a: real, b: real): real { if a >= b then a else b }

  function Clamp(w: real): real {
    Max(0.0, Min(1.0, w))
  }

  /** Every weight is a probability. */
  ghost predicate Unit(ws: seq<real>) {
    forall w :: w in ws ==> 0.0 <= w <= 1.0
  }

  function MaxOf(ws: seq<real>): (m: real)
    requires ws != []
    ensures m in ws && forall w :: w in ws ==> w <= m
  {
    if |ws| == 1 then ws[0]
    else
      assert ws == ws[..|ws| - 1] + [ws[|ws| - 1]];
      Max(MaxOf(ws[..|ws| - 1]), ws[|ws| - 1])
  }

  function Total(ws: seq<real>): real {
    if ws == [] then 0.0 else Total(ws[..|ws| - 1]) + ws[|ws| - 1]
  }

  /** The corroborating signals of a channel: those below its strongest. */
  function Below(ws: seq<real>, m: real): seq<real> {
    Filter(ws, (w: real) => w != m)
  }

  /** What one channel contributes. */
  function Strength(ws: seq<real>): real {
    if ws == [] then 0.0
    else if |ws| == 1 then ws[0]
    else Min(CHANNEL_CAP, MaxOf(ws) + 0.1 * Total(Below(ws, MaxOf(ws))))
  }

  function Weights(items: seq<Evidence>, c: Channel): (ws: seq<real>)
    ensures Unit(ws)
  {
    if items == [] then []
    else
      var n := |items| - 1;
      Weights(items[..n], c) + (if ChannelOf(items[n].signal) == c then [Clamp(items[n].weight)] else [])
  }

  predicate NoRepeats(cs: seq<Channel>) {
    forall i, j :: 0 <= i < j < |cs| ==> cs[i] != cs[j]
  }

  /** The channels present, in order of first appearance. */
  function Channels(items: seq<Evidence>): (cs: seq<Channel>)
    ensures NoRepeats(cs)
    ensures forall c :: c in cs <==> Weights(items, c) != []
  {
    if items == [] then []
    else
      var n := |items| - 1;
      var before, c := Channels(items[..n]), ChannelOf(items[n].signal);
      if c in before then before else before + [c]
  }

  /** The chance that no channel speaks for the rail. */
  function Doubt(items: seq<Evidence>, cs: seq<Channel>): real {
    if cs == [] then 1.0
    else Doubt(items, cs[..|cs| - 1]) * (1.0 - Strength(Weights(items, cs[|cs| - 1])))
  }

  function Score(items: seq<Evidence>): real {
    if items == [] then 0.0 else Min(SCORE_CAP, 1.0 - Doubt(items, Channels(items)))
  }

  // ----- The scoring as it is computed

  method StrengthOf(ws: seq<real>) returns (s: real)
    requires ws != []
    ensures s == Strength(ws)
  {
    if |ws| == 1 {
      return ws[0];
    }
    var m := ws[0];
    for i := 1 to |ws|
      invariant m == MaxOf(ws[..i])
    {
      assert ws[..i + 1][..i] == ws[..i];
      if ws[i] > m {
        m := ws[i];
      }
    }
    assert ws[..|ws|] == ws;
    var boost := 0.0;
    for i := 0 to |ws|
      invariant boost == 0.1 * Total(Below(ws[..i], m))
    {
      BelowStep(ws, i, m);
      if ws[i] != m {
        boost := boost + ws[i] * 0.1;
      }
    }
    return Min(CHANNEL_CAP, m + boost);
  }

  lemma BelowStep(ws: seq<real>, i: nat, m: real)
    requires i < |ws|
    ensures Total(Below(ws[..i + 1], m)) == Total(Below(ws[..i], m)) + (if ws[i] != m then ws[i] else 0.0)
  {
    FilterStep(ws, i, (w: real) => w != m);
    if ws[i] != m {
      TotalStep(Below(ws[..i], m), ws[i]);
    } else {
      assert Below(ws[..i + 1], m) == Below(ws[..i], m);
    }
  }

  lemma TotalStep(ws: seq<real>, w: real)
    ensures Total(ws + [w]) == Total(ws) + w
  {
    assert (ws + [w])[..|ws|] == ws;
  }

  ghost predicate Grouped(items: seq<Evidence>, cs: seq<Channel>, byChannel: map<Channel, seq<real>>) {
    && cs == Channels(items)
    && (forall c :: c in byChannel <==> c in cs)
    && (forall c :: c in byChannel ==> byChannel[c] == Weights(items, c))
  }

  lemma GroupedStep(items: seq<Evidence>, i: nat, cs: seq<Channel>, byChannel: map<Channel, seq<real>>)
    requires i < |items| && Grouped(items[..i], cs, byChannel)
    ensures var c := ChannelOf(items[i].signal);
            Grouped(items[..i + 1], if c in byChannel then cs else cs + [c],
                    byChannel[c := (if c in byChannel then byChannel[c] else []) + [Clamp(items[i].weight)]])
  {
    hide Clamp, Weights, Channels, ChannelOf;
    var c := ChannelOf(items[i].signal);
    ChannelsStep(items, i);
    forall d
      ensures Weights(items[..i + 1], d) == Weights(items[..i], d) + (if c == d then [Clamp(items[i].weight)] else [])
    {
      WeightsStep(items, i, d);
    }
    assert c !in byChannel ==> Weights(items[..i], c) == [];
  }

  lemma ChannelsStep(items: seq<Evidence>, i: nat)
    requires i < |items|
    ensures var before, c := Channels(items[..i]), ChannelOf(items[i].signal);
            Channels(items[..i + 1]) == if c in before then before else before + [c]
  {
    hide ChannelOf, Weights;
    assert items[..i + 1][..i] == items[..i];
  }

  lemma WeightsStep(items: seq<Evidence>, i: nat, c: Channel)
    requires i < |items|
    ensures Weights(items[..i + 1], c) == Weights(items[..i], c)
              + (if ChannelOf(items[i].signal) == c then [Clamp(items[i].weight)] else [])
  {
    hide Clamp, ChannelOf;
    assert items[..i + 1][..i] == items[..i];
  }

  lemma DoubtStep(items: seq<Evidence>, cs: seq<Channel>, i: nat)
    requires i < |cs|
    ensures Doubt(items, cs[..i + 1]) == Doubt(items, cs[..i]) * (1.0 - Strength(Weights(items, cs[i])))
  {
    hide Strength, Weights;
    assert cs[..i + 1][..i] == cs[..i];
  }

  /** `_combine`: group by channel, weigh each channel, multiply the doubts. */
  method Combine(items: seq<Evidence>) returns (score: real)
    ensures score == Score(items)
  {
    hide Channels, Weights, Strength, Doubt, Clamp, ChannelOf;
    if items == [] {
      return 0.0;
    }
    var cs: seq<Channel>, byChannel: map<Channel, seq<real>> := [], map[];
    NothingGrouped();
    for i := 0 to |items|
      invariant Grouped(items[..i], cs, byChannel)
    {
      GroupedStep(items, i, cs, byChannel);
      var c := ChannelOf(items[i].signal);
      cs := if c in byChannel then cs else cs + [c];
      byChannel := byChannel[c := (if c in byChannel then byChannel[c] else []) + [Clamp(items[i].weight)]];
    }
    assert items[..|items|] == items;
    var acc := 1.0;
    NoDoubt(items);
    for i := 0 to |cs|
      invariant acc == Doubt(items, cs[..i])
    {
      DoubtStep(items, cs, i);
      assert cs[i] in cs && byChannel[cs[i]] == Weights(items, cs[i]);
      var s := StrengthOf(byChannel[cs[i]]);
      acc := acc * (1.0 - s);
    }
    assert cs[..|cs|] == cs;
    return Min(SCORE_CAP, 1.0 - acc);
  }

  lemma NothingGrouped()
    ensures Grouped([], [], map[])
  {
  }

  lemma NoDoubt(items: seq<Evidence>)
    ensures Doubt(items, []) == 1.0
  {
  }

  // ----- Monotonicity: less evidence never scores higher

  /** Nothing here is counted that is not counted there. */
  ghost predicate Fewer<T>(a: seq<T>, b: seq<T>) {
    multiset(a) <= multiset(b)
  }

  lemma {:induction false} TotalConcat(a: seq<real>, b: seq<real>)
    ensures Total(a + b) == Total(a) + Total(b)
  {
    if b == [] {
      assert a + b == a;
    } else {
      TotalConcat(a, b[..|b| - 1]);
      assert (a + b)[..|a + b| - 1] == a + b[..|b| - 1];
    }
  }

  lemma TotalDrop(a: seq<real>, i: nat)
    requires i < |a|
    ensures Total(a) == a[i] + Total(Drop(a, i))
  {
    SplitAt(a, i);
    TotalConcat(a[..i], [a[i]] + a[i + 1..]);
    TotalConcat([a[i]], a[i + 1..]);
    TotalConcat(a[..i], a[i + 1..]);
    assert [a[i]][..0] == [] && Total([a[i]]) == a[i];
  }

  lemma {:induction false} TotalNonNegative(a: seq<real>)
    requires Unit(a)
    ensures Total(a) >= 0.0
  {
    if a != [] {
      assert a[|a| - 1] in a;
      UnitPart(a, a[..|a| - 1]);
      TotalNonNegative(a[..|a| - 1]);
    }
  }

  lemma UnitPart(a: seq<real>, part: seq<real>)
    requires Unit(a) && forall i :: 0 <= i < |part| ==> part[i] in a
    ensures Unit(part)
  {
  }

  lemma UnitBelow(a: seq<real>, m: real)
    requires Unit(a)
    ensures Unit(Below(a, m))
  {
    var b := Below(a, m);
    assert forall i :: 0 <= i < |b| ==> b[i] in b;
    UnitPart(a, b);
  }

  lemma FewerDrop<T>(a: seq<T>, b: seq<T>) returns (i: nat)
    requires a != [] && Fewer(a, b)
    ensures i < |b| && b[i] == a[0] && Fewer(Drop(a, 0), Drop(b, i))
    ensures forall x :: x in Drop(b, i) ==> x in b
  {
    assert a[0] in multiset(b);
    i :| 0 <= i < |b| && b[i] == a[0];
    DropMembers(a, 0);
    DropMembers(b, i);
    CancelSubset(a[0], multiset(Drop(a, 0)), multiset(Drop(b, i)));
  }

  lemma {:induction false} FewerTotal(a: seq<real>, b: seq<real>)
    requires Fewer(a, b) && Unit(b)
    ensures Total(a) <= Total(b)
    decreases |a|
  {
    hide Total;
    if a == [] {
      EmptyTotal();
      TotalNonNegative(b);
    } else {
      var i := FewerDrop(a, b);
      TotalDrop(a, 0);
      TotalDrop(b, i);
      FewerTotal(Drop(a, 0), Drop(b, i));
    }
  }

  lemma EmptyTotal()
    ensures Total([]) == 0.0
  {
  }

  lemma FewerMembers<T>(a: seq<T>, b: seq<T>)
    requires Fewer(a, b)
    ensures (forall x :: x in a ==> x in b) && |a| <= |b|
  {
    forall x | x in a
      ensures x in b
    {
      assert x in multiset(a);
    }
    assert |multiset(a)| == |a| && |multiset(b)| == |b|;
    assert multiset(b) == multiset(a) + (multiset(b) - multiset(a));
  }

  lemma {:induction false} BelowCount(ws: seq<real>, m: real, x: real)
    ensures multiset(Below(ws, m))[x] == if x != m then multiset(ws)[x] else 0
  {
    var keep := (w: real) => w != m;
    if ws != [] {
      BelowCount(ws[1..], m, x);
      assert ws == [ws[0]] + ws[1..];
      FilterUnfold(ws, keep);
    }
  }

  /** The corroboration below a stronger signal counts at least what corroborates a weaker one. */
  lemma FewerBelow(a: seq<real>, b: seq<real>, m: real, n: real)
    requires Fewer(a, b) && m <= n && forall w :: w in a ==> w <= m
    ensures Fewer(Below(a, m), Below(b, n))
  {
    hide Below;
    forall x: real
      ensures multiset(Below(a, m))[x] <= multiset(Below(b, n))[x]
    {
      BelowCount(a, m, x);
      BelowCount(b, n, x);
      assert x in a <==> x in multiset(a);
    }
  }

  /** No signal above the channel cap shares its channel. */
  ghost predicate Tame(ws: seq<real>) {
    |ws| <= 1 || forall w :: w in ws ==> w <= CHANNEL_CAP
  }

  lemma StrengthInUnit(ws: seq<real>)
    requires Unit(ws)
    ensures 0.0 <= Strength(ws) <= 1.0
  {
    if |ws| > 1 {
      UnitBelow(ws, MaxOf(ws));
      TotalNonNegative(Below(ws, MaxOf(ws)));
    } else if |ws| == 1 {
      assert ws[0] in ws;
    }
  }

  lemma StrengthFewer(a: seq<real>, b: seq<real>)
    requires Fewer(a, b) && Unit(b) && Tame(b)
    ensures Strength(a) <= Strength(b)
  {
    hide Below, MaxOf, Total;
    FewerMembers(a, b);
    StrengthInUnit(b);
    if a != [] {
      assert a[0] in b;
      var m, n := MaxOf(a), MaxOf(b);
      assert m in b;
      UnitBelow(b, n);
      if |b| == 1 {
        assert a == [a[0]] && b == [b[0]];
      } else if |a| == 1 {
        assert a[0] == m;
        TotalNonNegative(Below(b, n));
      } else {
        FewerBelow(a, b, m, n);
        FewerTotal(Below(a, m), Below(b, n));
      }
    }
  }

  // Weights by channel

  lemma {:induction false} WeightsConcat(a: seq<Evidence>, b: seq<Evidence>, c: Channel)
    ensures Weights(a + b, c) == Weights(a, c) + Weights(b, c)
  {
    hide Clamp, ChannelOf;
    if b == [] {
      assert a + b == a;
    } else {
      var n := |b| - 1;
      WeightsConcat(a, b[..n], c);
      assert (a + b)[..|a + b| - 1] == a + b[..n];
    }
  }

  function WeightIn(x: Evidence, c: Channel): seq<real> {
    if ChannelOf(x.signal) == c then [Clamp(x.weight)] else []
  }

  lemma WeightsDrop(a: seq<Evidence>, i: nat, c: Channel)
    requires i < |a|
    ensures multiset(Weights(a, c)) == multiset(WeightIn(a[i], c)) + multiset(Weights(Drop(a, i), c))
  {
    hide Weights, WeightIn;
    SplitAt(a, i);
    WeightsConcat(a[..i], [a[i]] + a[i + 1..], c);
    WeightsConcat([a[i]], a[i + 1..], c);
    WeightsConcat(a[..i], a[i + 1..], c);
    WeightsOfOne(a[i], c);
  }

  lemma WeightsOfOne(x: Evidence, c: Channel)
    ensures Weights([x], c) == WeightIn(x, c)
  {
    hide Clamp, ChannelOf;
    assert [x][..0] == [];
  }

  lemma {:induction false} FewerWeights(a: seq<Evidence>, b: seq<Evidence>, c: Channel)
    requires Fewer(a, b)
    ensures Fewer(Weights(a, c), Weights(b, c))
    decreases |a|
  {
    hide Weights, WeightIn;
    if a == [] {
      NoWeights(c);
    } else {
      var i := FewerDrop(a, b);
      WeightsDrop(a, 0, c);
      WeightsDrop(b, i, c);
      FewerWeights(Drop(a, 0), Drop(b, i), c);
    }
  }

  lemma NoWeights(c: Channel)
    ensures Weights([], c) == []
  {
  }

  // Products over channels

  lemma ScaleDown(a: real, b: real, p: real, q: real)
    requires 0.0 <= b <= a && 0.0 <= q <= p
    ensures 0.0 <= b * q <= a * p
  {
    assert b * q <= a * q;
    assert a * q <= a * p;
  }

  /** The factor a channel leaves. */
  function Factor(items: seq<Evidence>, c: Channel): (f: real)
    ensures 0.0 <= f <= 1.0
  {
    StrengthInUnit(Weights(items, c));
    1.0 - Strength(Weights(items, c))
  }

  lemma {:induction false} DoubtInUnit(items: seq<Evidence>, cs: seq<Channel>)
    ensures 0.0 <= Doubt(items, cs) <= 1.0
  {
    hide Strength, Weights;
    if cs != [] {
      var front, c := cs[..|cs| - 1], cs[|cs| - 1];
      DoubtInUnit(items, front);
      assert Doubt(items, cs) == Doubt(items, front) * Factor(items, c);
      ScaleDown(1.0, Doubt(items, front), 1.0, Factor(items, c));
    }
  }

  lemma {:induction false} DoubtConcat(items: seq<Evidence>, a: seq<Channel>, b: seq<Channel>)
    ensures Doubt(items, a + b) == Doubt(items, a) * Doubt(items, b)
  {
    hide Doubt, Factor;
    if b == [] {
      assert a + b == a;
      NoDoubt(items);
    } else {
      var front, c := b[..|b| - 1], b[|b| - 1];
      DoubtConcat(items, a, front);
      assert b == front + [c] && a + b == (a + front) + [c];
      DoubtLast(items, a + front, c);
      DoubtLast(items, front, c);
      Associate(Doubt(items, a), Doubt(items, front), Factor(items, c));
    }
  }

  lemma DoubtLast(items: seq<Evidence>, cs: seq<Channel>, c: Channel)
    ensures Doubt(items, cs + [c]) == Doubt(items, cs) * Factor(items, c)
  {
    hide Strength, Weights;
    assert (cs + [c])[..|cs|] == cs;
  }

  lemma Associate(a: real, b: real, c: real)
    ensures (a * b) * c == a * (b * c)
  {
  }

  lemma DoubtDrop(items: seq<Evidence>, cs: seq<Channel>, i: nat)
    requires i < |cs|
    ensures Doubt(items, cs) == Factor(items, cs[i]) * Doubt(items, Drop(cs, i))
  {
    hide Doubt, Factor;
    SplitAt(cs, i);
    DoubtConcat(items, cs[..i], [cs[i]] + cs[i + 1..]);
    DoubtConcat(items, [cs[i]], cs[i + 1..]);
    DoubtConcat(items, cs[..i], cs[i + 1..]);
    DoubtOfOne(items, cs[i]);
    Rotate(Doubt(items, cs[..i]), Factor(items, cs[i]), Doubt(items, cs[i + 1..]));
  }

  lemma Rotate(a: real, b: real, c: real)
    ensures a * (b * c) == b * (a * c)
  {
  }

  lemma DoubtOfOne(items: seq<Evidence>, c: Channel)
    ensures Doubt(items, [c]) == Factor(items, c)
  {
    hide Strength, Weights;
    assert [c][..0] == [];
  }

  lemma DropChannel(cs: seq<Channel>, i: nat)
    requires NoRepeats(cs) && i < |cs|
    ensures NoRepeats(Drop(cs, i)) && forall c :: c in Drop(cs, i) <==> c in cs && c != cs[i]
  {
    var d := Drop(cs, i);
    forall c
      ensures c in d <==> c in cs && c != cs[i]
    {
      if c in cs && c != cs[i] {
        var j :| 0 <= j < |cs| && cs[j] == c;
        assert d[if j < i then j else j - 1] == c;
      }
      if c in d {
        var j :| 0 <= j < |d| && d[j] == c;
        assert c == cs[if j < i then j else j + 1];
      }
    }
  }

  lemma NoneWithin(ca: seq<Channel>, cb: seq<Channel>)
    requires forall c :: c in ca ==> c in cb
    ensures cb == [] ==> ca == []
  {
    if ca != [] {
      assert ca[0] in cb;
    }
  }

  /** Over more channels, each at least as strong, less doubt remains. */
  lemma {:induction false} DoubtFewer(a: seq<Evidence>, b: seq<Evidence>, ca: seq<Channel>, cb: seq<Channel>)
    requires NoRepeats(ca) && NoRepeats(cb) && forall c :: c in ca ==> c in cb
    requires forall c :: c in cb ==> Factor(b, c) <= Factor(a, c)
    ensures Doubt(b, cb) <= Doubt(a, ca)
    decreases |cb|
  {
    hide Doubt, Factor;
    if cb == [] {
      NoneWithin(ca, cb);
      NoDoubt(a);
      NoDoubt(b);
    } else {
      var c := cb[0];
      DropChannel(cb, 0);
      DoubtDrop(b, cb, 0);
      DoubtInUnit(b, Drop(cb, 0));
      if c in ca {
        var i :| 0 <= i < |ca| && ca[i] == c;
        DropChannel(ca, i);
        DoubtDrop(a, ca, i);
        DoubtFewer(a, b, Drop(ca, i), Drop(cb, 0));
        ScaleDown(Factor(a, c), Factor(b, c), Doubt(a, Drop(ca, i)), Doubt(b, Drop(cb, 0)));
      } else {
        DoubtFewer(a, b, ca, Drop(cb, 0));
        ScaleDown(1.0, Factor(b, c), Doubt(b, Drop(cb, 0)), Doubt(b, Drop(cb, 0)));
      }
    }
  }

  /** Two pieces of evidence on one channel, one of them above the channel cap. */
  ghost predicate Clashes(items: seq<Evidence>) {
    exists i, j :: 0 <= i < |items| && 0 <= j < |items| && i != j
      && ChannelOf(items[i].signal) == ChannelOf(items[j].signal) && Clamp(items[i].weight) > CHANNEL_CAP
  }

  lemma {:induction false} WeightSource(items: seq<Evidence>, c: Channel, k: nat) returns (i: nat)
    requires k < |Weights(items, c)|
    ensures i < |items| && ChannelOf(items[i].signal) == c && Clamp(items[i].weight) == Weights(items, c)[k]
    ensures |Weights(items[..i], c)| == k
  {
    hide Clamp, ChannelOf;
    var n := |items| - 1;
    if k < |Weights(items[..n], c)| {
      i := WeightSource(items[..n], c, k);
      assert items[..n][..i] == items[..i];
    } else {
      i := n;
    }
  }

  lemma TameChannels(items: seq<Evidence>, c: Channel)
    requires !Clashes(items)
    ensures Tame(Weights(items, c))
  {
    hide Clamp, ChannelOf;
    var ws := Weights(items, c);
    if |ws| > 1 {
      forall w | w in ws
        ensures w <= CHANNEL_CAP
      {
        var k :| 0 <= k < |ws| && ws[k] == w;
        var i := WeightSource(items, c, k);
        var j := WeightSource(items, c, if k == 0 then 1 else 0);
        assert i != j;
      }
    }
  }

  /** Removing evidence never raises the score while no strong signal shares its channel. */
  lemma FewerScoresLess(a: seq<Evidence>, b: seq<Evidence>)
    requires Fewer(a, b) && !Clashes(b)
    ensures Score(a) <= Score(b)
  {
    hide Doubt, Weights, Strength, Channels, Clashes;
    var ca, cb := Channels(a), Channels(b);
    forall c: Channel
      ensures Factor(b, c) <= Factor(a, c) && (Weights(a, c) != [] ==> Weights(b, c) != [])
    {
      FewerWeights(a, b, c);
      TameChannels(b, c);
      StrengthFewer(Weights(a, c), Weights(b, c));
      FewerMembers(Weights(a, c), Weights(b, c));
    }
    DoubtFewer(a, b, ca, cb);
    DoubtInUnit(b, cb);
    FewerMembers(a, b);
  }

  // ----- The exact condition

  /** Some two pieces of the evidence clash. */
  lemma ClashPair(items: seq<Evidence>, x: Evidence, y: Evidence)
    requires multiset{x, y} <= multiset(items) && ChannelOf(x.signal) == ChannelOf(y.signal)
    requires Clamp(x.weight) > CHANNEL_CAP
    ensures Clashes(items)
  {
    hide Clamp, ChannelOf;
    assert x in multiset(items);
    var i :| 0 <= i < |items| && items[i] == x;
    DropMembers(items, i);
    CancelSubset(x, multiset{y}, multiset(Drop(items, i)));
    assert y in multiset(Drop(items, i));
    var k :| 0 <= k < |Drop(items, i)| && Drop(items, i)[k] == y;
    var j := if k < i then k else k + 1;
    assert items[j] == y && i != j;
  }

  lemma PairWithin(items: seq<Evidence>, i: nat, j: nat)
    requires i < |items| && j < |items| && i != j
    ensures multiset{items[i], items[j]} <= multiset(items)
  {
    DropMembers(items, i);
    assert Drop(items, i)[if j < i then j else j - 1] == items[j];
    assert items[j] in multiset(Drop(items, i));
  }

  lemma FewerClashes(a: seq<Evidence>, b: seq<Evidence>)
    requires Fewer(a, b) && Clashes(a)
    ensures Clashes(b)
  {
    hide Clamp, ChannelOf;
    var i, j :| 0 <= i < |a| && 0 <= j < |a| && i != j
      && ChannelOf(a[i].signal) == ChannelOf(a[j].signal) && Clamp(a[i].weight) > CHANNEL_CAP;
    PairWithin(a, i, j);
    ClashPair(b, a[i], a[j]);
  }

  lemma WeightsOfPair(x: Evidence, y: Evidence)
    ensures Weights([x], ChannelOf(x.signal)) == [Clamp(x.weight)]
    ensures Weights([x, y], ChannelOf(x.signal)) == [Clamp(x.weight)] + WeightIn(y, ChannelOf(x.signal))
    ensures forall d :: d != ChannelOf(x.signal) && d != ChannelOf(y.signal) ==>
              Weights([x], d) == [] && Weights([x, y], d) == []
  {
    hide Clamp, ChannelOf;
    assert [x][..0] == [] && [x, y][..1] == [x];
  }

  lemma TwoDiffer(cs: seq<Channel>)
    requires NoRepeats(cs)
    ensures |cs| > 1 ==> exists a, b :: a in cs && b in cs && a != b
  {
    if |cs| > 1 {
      assert cs[0] in cs && cs[1] in cs && cs[0] != cs[1];
    }
  }

  lemma OneChannel(items: seq<Evidence>, c: Channel)
    requires Weights(items, c) != [] && forall d :: d != c ==> Weights(items, d) == []
    ensures Channels(items) == [c]
  {
    hide Weights, Channels;
    var cs := Channels(items);
    assert c in cs;
    assert forall d :: d in cs ==> d == c;
    TwoDiffer(cs);
  }

  lemma StrengthOfOne(w: real)
    ensures Strength([w]) == w
  {
  }

  /** A signal above the channel cap scores higher alone than with company on its channel. */
  lemma CompanyLowersScore(x: Evidence, y: Evidence)
    requires ChannelOf(x.signal) == ChannelOf(y.signal) && Clamp(x.weight) > CHANNEL_CAP
    ensures Score([x]) > CHANNEL_CAP && Score([x, y]) == CHANNEL_CAP
  {
    hide Clamp, ChannelOf, Weights, Channels, Doubt, Strength;
    var c, w, v := ChannelOf(x.signal), Clamp(x.weight), Clamp(y.weight);
    WeightsOfPair(x, y);
    assert [w] + [v] == [w, v] && Weights([x, y], c) == [w, v];
    OneChannel([x], c);
    OneChannel([x, y], c);
    StrengthOfOne(w);
    DoubtOfOne([x], c);
    DoubtOfOne([x, y], c);
    PairIsCapped(w, v);
  }

  lemma PairIsCapped(w: real, v: real)
    requires w > CHANNEL_CAP && Unit([w, v])
    ensures Strength([w, v]) == CHANNEL_CAP
  {
    assert w in [w, v] && MaxOf([w, v]) >= w;
    UnitBelow([w, v], MaxOf([w, v]));
    TotalNonNegative(Below([w, v], MaxOf([w, v])));
  }

  ghost predicate MonotoneWithin(items: seq<Evidence>) {
    forall sub: seq<Evidence>, sup: seq<Evidence> :: Fewer(sub, sup) && Fewer(sup, items) ==> Score(sub) <= Score(sup)
  }

  /** Scoring is monotone over everything a pool of evidence can show, if and only if the pool has no clash. */
  lemma MonotoneExactlyWhenNoClash(items: seq<Evidence>)
    ensures MonotoneWithin(items) <==> !Clashes(items)
  {
    hide Clamp, ChannelOf, Score;
    if Clashes(items) {
      var i, j :| 0 <= i < |items| && 0 <= j < |items| && i != j
        && ChannelOf(items[i].signal) == ChannelOf(items[j].signal) && Clamp(items[i].weight) > CHANNEL_CAP;
      var x, y := items[i], items[j];
      PairWithin(items, i, j);
      CompanyLowersScore(x, y);
      assert multiset([x]) <= multiset([x, y]) && multiset([x, y]) == multiset{x, y};
      assert Fewer([x], [x, y]) && Fewer([x, y], items);
    } else {
      forall sub: seq<Evidence>, sup: seq<Evidence> | Fewer(sub, sup) && Fewer(sup, items)
        ensures Score(sub) <= Score(sup)
      {
        if Clashes(sup) {
          FewerClashes(sup, items);
        }
        FewerScoresLess(sub, sup);
      }
    }
  }

  lemma ScoreInUnit(items: seq<Evidence>)
    ensures 0.0 <= Score(items) <= SCORE_CAP
  {
    DoubtInUnit(items, Channels(items));
  }

  // ----- The scores of one and of two signals

  lemma ScoreOfOne(x: Evidence)
    ensures Score([x]) == Min(0.99, Clamp(x.weight))
  {
    hide Clamp, ChannelOf, Weights, Channels, Doubt, Strength;
    var c := ChannelOf(x.signal);
    WeightsOfPair(x, x);
    OneChannel([x], c);
    StrengthOfOne(Clamp(x.weight));
    DoubtOfOne([x], c);
  }

  lemma StrengthOfTwo(w: real, v: real)
    requires w >= v
    ensures Strength([w, v]) == Min(0.98, if w == v then w else w + 0.1 * v)
  {
    assert [w, v][..1] == [w];
    assert MaxOf([w, v]) == w;
    var keep := (u: real) => u != w;
    FilterUnfold([w, v], keep);
    assert [w, v][1..] == [v];
    FilterOne(v, keep);
    assert Below([w, v], w) == if w == v then [] else [v];
    assert Total([v]) == Total([v][..0]) + v && [v][..0] == [];
    assert Total([]) == 0.0;
  }

  /** On one channel the stronger signal counts whole and the weaker one by a tenth, up to 0.98. */
  lemma ScoreOnOneChannel(x: Evidence, y: Evidence)
    requires ChannelOf(x.signal) == ChannelOf(y.signal) && Clamp(x.weight) >= Clamp(y.weight)
    ensures var w, v := Clamp(x.weight), Clamp(y.weight);
            Score([x, y]) == Min(0.98, if w == v then w else w + 0.1 * v)
  {
    hide Clamp, ChannelOf, Weights, Channels, Doubt, Strength;
    var c, w, v := ChannelOf(x.signal), Clamp(x.weight), Clamp(y.weight);
    WeightsOfPair(x, y);
    assert [w] + [v] == [w, v] && Weights([x, y], c) == [w, v];
    OneChannel([x, y], c);
    StrengthOfTwo(w, v);
    DoubtOfOne([x, y], c);
  }

  /** Signals of two channels count as independent: their doubts multiply, up to 0.99. */
  lemma ScoreOnTwoChannels(x: Evidence, y: Evidence)
    requires ChannelOf(x.signal) != ChannelOf(y.signal)
    ensures Score([x, y]) == Min(0.99, 1.0 - (1.0 - Clamp(x.weight)) * (1.0 - Clamp(y.weight)))
  {
    hide Clamp, ChannelOf, Weights, Doubt, Strength;
    var items, c, d := [x, y], ChannelOf(x.signal), ChannelOf(y.signal);
    TwoChannelWeights(x, y);
    assert items[..1] == [x] && items[..1][..0] == [];
    assert Channels(items) == [c, d];
    StrengthOfOne(Clamp(x.weight));
    StrengthOfOne(Clamp(y.weight));
    DoubtOfOne(items, c);
    DoubtLast(items, [c], d);
  }

  lemma TwoChannelWeights(x: Evidence, y: Evidence)
    requires ChannelOf(x.signal) != ChannelOf(y.signal)
    ensures Weights([x, y], ChannelOf(x.signal)) == [Clamp(x.weight)]
    ensures Weights([x, y], ChannelOf(y.signal)) == [Clamp(y.weight)]
    ensures Channels([x]) == [ChannelOf(x.signal)]
  {
    hide Clamp, ChannelOf;
    assert [x, y][..1] == [x] && [x][..0] == [];
    var c, d := ChannelOf(x.signal), ChannelOf(y.signal);
    assert Weights([], c) == [] && Weights([], d) == [];
    assert Weights([x], c) == Weights([x][..0], c) + [Clamp(x.weight)] == [Clamp(x.weight)];
    assert Weights([x], d) == Weights([x][..0], d) + [] == [];
    assert Weights([x, y], c) == Weights([x, y][..1], c) + [];
    assert Weights([x, y], d) == Weights([x, y][..1], d) + [Clamp(y.weight)];
  }
}
