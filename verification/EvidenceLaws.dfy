/** What holds of every verdict the evidence engine reaches: it depends on the
    admissible entries alone, stays put while nothing is filed, never lets peers
    reach an external resolution's authority, and keeps its expiry bounded. */
module EvidenceLaws {
  import opened Basics
  import opened Evidence

  // --- replay stability ---

  lemma {:induction false} AdmitCounts(entries: seq<Entry>, now: Option<int>, e: Entry)
    ensures multiset(Admit(entries, now))[e] == if Admissible(e, now) then multiset(entries)[e] else 0
  {
    if entries != [] {
      assert entries == [entries[0]] + entries[1..];
      AdmitCounts(entries[1..], now, e);
    }
  }

  /** The order of the ledger and its entries after `now` change nothing. */
  lemma {:induction false} ReplayStability(l1: Ledger, l2: Ledger, p: Policy)
    requires l1.now == l2.now && l1.reporterLowerBound == l2.reporterLowerBound
    requires forall e :: Admissible(e, l1.now) ==> multiset(l1.entries)[e] == multiset(l2.entries)[e]
    ensures Evaluate(l1, p) == Evaluate(l2, p)
  {
    var a, b := multiset(Admit(l1.entries, l1.now)), multiset(Admit(l2.entries, l2.now));
    hide Admit, Verdicts, PolicyFault;
    forall e ensures a[e] == b[e] {
      AdmitCounts(l1.entries, l1.now, e);
      AdmitCounts(l2.entries, l2.now, e);
    }
    assert a == b;
  }

  lemma {:induction false} AdmitUnchanged(entries: seq<Entry>, now1: int, now2: int)
    requires now1 <= now2
    requires forall e :: e in entries && e.at.Some? ==> !(now1 < e.at.value <= now2)
    ensures Admit(entries, Some(now1)) == Admit(entries, Some(now2))
  {
    if entries != [] {
      assert entries[0] in entries;
      AdmitUnchanged(entries[1..], now1, now2);
    }
  }

  lemma {:induction false} ConcludeLater(s: Summary, now1: int, now2: int, bound: Option<real>, p: Policy)
    requires now1 <= now2
    ensures var r1, r2 := Conclude(s, now1, bound, p), Conclude(s, now2, bound, p);
      match r1
      case Err(e) => r2 == r1
      case Ok(v1) =>
        && r2.Ok?
        && r2.value.expiresAt == v1.expiresAt
        && (r2 == r1 || (!v1.state.Negated? && !v1.state.Expired? && r2.value.state.Expired?))
  {
  }

  /** Evaluated again later with nothing filed in between: the same error, or the
      same expiry and a state that can only have decayed. */
  lemma {:induction false} LaterReplay(entries: seq<Entry>, now1: int, now2: int, bound: Option<real>, p: Policy)
    requires now1 <= now2
    requires forall e :: e in entries && e.at.Some? ==> !(now1 < e.at.value <= now2)
    ensures var r1, r2 := Evaluate(Ledger(entries, Some(now1), bound), p), Evaluate(Ledger(entries, Some(now2), bound), p);
      match r1
      case Err(e) => r2 == r1
      case Ok(v1) =>
        && r2.Ok?
        && r2.value.expiresAt == v1.expiresAt
        && (r2 == r1 || (!v1.state.Negated? && !v1.state.Expired? && r2.value.state.Expired?))
  {
    AdmitUnchanged(entries, now1, now2);
    var bag := multiset(Admit(entries, Some(now1)));
    var A := set e | e in bag;
    if PolicyFault(bound, p).None? && DistinctIds(bag) && Reports(A) != {} {
      ConcludeLater(Summarise(A), now1, now2, bound, p);
    }
  }

  // --- what peers can reach ---

  ghost predicate Valid(p: Policy) { PolicyFault(None, p).None? }

  lemma {:induction false} BlendRises(base: real, gap: real, k: real, x: real, x': real, y: real)
    requires x' < x
    ensures Blend(base, gap, k, x, y) < Blend(base, gap, k, x', y) <==> 0.0 < gap
  {
    var d := x - x';
    var step, penalty := gap * d, k * gap * (1.0 - y);
    assert gap * (1.0 - x') - gap * (1.0 - x) == step;
    assert Blend(base, gap, k, x', y) == base + gap * (1.0 - x') - penalty;
    assert Blend(base, gap, k, x, y) == base + gap * (1.0 - x) - penalty;
    if 0.0 < gap {
      ScaledUp(0.0, gap, d);
      assert 0.0 < step;
    } else {
      ScaledUpTo(gap, 0.0, d);
      assert step <= 0.0;
    }
  }

  lemma {:induction false} BlendErodes(base: real, gap: real, k: real, x: real, y: real, y': real)
    requires y' < y && 0.0 <= k
    ensures Blend(base, gap, k, x, y') < Blend(base, gap, k, x, y) <==> 0.0 < gap && 0.0 < k
    ensures Blend(base, gap, k, x, y) < Blend(base, gap, k, x, y') <==> gap < 0.0 && 0.0 < k
  {
    var d, w := y - y', k * gap;
    assert w * (1.0 - y') - w * (1.0 - y) == w * d;
    if 0.0 < k && 0.0 < gap {
      ScaledUp(0.0, k, gap);
      ScaledUp(0.0, w, d);
    } else if 0.0 < k && gap < 0.0 {
      ScaledUp(gap, 0.0, k);
      ScaledUp(w, 0.0, d);
    } else {
      assert w == 0.0;
    }
  }

  lemma {:induction false} BlendBelow(base: real, gap: real, k: real, x: real, y: real)
    requires 0.0 < gap && 0.0 <= k && 0.0 < x && y <= 1.0
    ensures Blend(base, gap, k, x, y) < base + gap
  {
  }

  /** Another confirming key raises the score before clamping exactly when the base stands below the cap. */
  lemma {:induction false} ConfirmationsRaise(p: Policy, c: nat, n: nat)
    requires Valid(p)
    ensures RawCrowdConfidence(p, c, n) < RawCrowdConfidence(p, c + 1, n)
       <==> p.scoreByState.selfReported < p.peerConfidenceCap
  {
    PowStep(p.confirmDecay, c);
    BlendRises(p.scoreByState.selfReported, p.peerConfidenceCap - p.scoreByState.selfReported, p.negateAsymmetry,
      Pow(p.confirmDecay, c), Pow(p.confirmDecay, c + 1), Pow(p.confirmDecay, n));
  }

  /** Where negations weigh at all, another negating key lowers it exactly if the base
      stands below the cap, and raises it exactly if the base stands above. */
  lemma {:induction false} NegationsErode(p: Policy, c: nat, n: nat)
    requires Valid(p)
    ensures RawCrowdConfidence(p, c, n + 1) < RawCrowdConfidence(p, c, n)
       <==> p.scoreByState.selfReported < p.peerConfidenceCap && 0.0 < p.negateAsymmetry
    ensures RawCrowdConfidence(p, c, n) < RawCrowdConfidence(p, c, n + 1)
       <==> p.peerConfidenceCap < p.scoreByState.selfReported && 0.0 < p.negateAsymmetry
  {
    PowStep(p.confirmDecay, n);
    BlendErodes(p.scoreByState.selfReported, p.peerConfidenceCap - p.scoreByState.selfReported, p.negateAsymmetry,
      Pow(p.confirmDecay, c), Pow(p.confirmDecay, n), Pow(p.confirmDecay, n + 1));
  }

  lemma {:induction false} RawBelowCap(p: Policy, c: nat, n: nat)
    requires Valid(p) && p.scoreByState.selfReported < p.peerConfidenceCap
    ensures RawCrowdConfidence(p, c, n) < p.peerConfidenceCap
  {
    PowInUnit(p.confirmDecay, c);
    PowInUnit(p.confirmDecay, n);
    BlendBelow(p.scoreByState.selfReported, p.peerConfidenceCap - p.scoreByState.selfReported, p.negateAsymmetry,
      Pow(p.confirmDecay, c), Pow(p.confirmDecay, n));
  }

  /** No number of peers brings the crowd score to the cap, exactly when the base
      stands below the cap (or the cap above every score): `evaluateEvidence`
      checks neither. */
  lemma {:induction false} CeilingExactly(p: Policy)
    requires Valid(p)
    ensures (forall c: nat, n: nat :: CrowdConfidence(p, c, n) < p.peerConfidenceCap)
       <==> (p.scoreByState.selfReported < p.peerConfidenceCap || 1.0 < p.peerConfidenceCap)
  {
    if p.scoreByState.selfReported < p.peerConfidenceCap {
      forall c: nat, n: nat ensures CrowdConfidence(p, c, n) < p.peerConfidenceCap {
        RawBelowCap(p, c, n);
      }
    } else if p.peerConfidenceCap <= 1.0 {
      assert RawCrowdConfidence(p, 0, 0) == p.scoreByState.selfReported;
      assert CrowdConfidence(p, 0, 0) >= p.peerConfidenceCap;
    }
  }

  // --- what the reporter's own standing adds ---

  function AdjustedScore(p: Policy, bound: Option<real>, confirmers: nat, negators: nat): real {
    Clamp01(CrowdConfidence(p, confirmers, negators) + Adjustment(bound, p))
  }

  /** Where negations lead a base that stands above the cap. */
  function Top(p: Policy): real {
    p.scoreByState.selfReported + p.negateAsymmetry * (p.scoreByState.selfReported - p.peerConfidenceCap)
  }

  /** What a policy and a reporter's lower bound have to meet for the peer ceiling to hold. */
  predicate HoldsCeiling(p: Policy, bound: Option<real>) {
    var (base, cap, added) := (p.scoreByState.selfReported, p.peerConfidenceCap, Adjustment(bound, p));
    if 1.0 < cap then true
    else if base < cap then added <= 0.0
    else if 1.0 < Top(p) then 1.0 + added < cap
    else if Top(p) == base then base + added < cap
    else Top(p) + added <= cap
  }

  /** A score short of its limit by a vanishing share comes above anything below the limit. */
  lemma {:induction false} ComesNear(limit: real, w: real, x: real, t: real) returns (n: nat)
    requires 0.0 < w && 0.0 < x < 1.0 && t < limit
    ensures t < limit - w * Pow(x, n)
  {
    var bound := (limit - t) / w;
    assert bound * w == limit - t;
    assert 0.0 < bound by {
      if bound <= 0.0 { ScaledUpTo(bound, 0.0, w); }
    }
    n := PowVanishes(x, bound);
    ScaledUp(Pow(x, n), bound, w);
  }

  /** Confirmations alone bring the score as near the cap as one likes. */
  lemma {:induction false} ConfirmedNearCap(p: Policy, t: real) returns (c: nat)
    requires Valid(p) && p.scoreByState.selfReported < p.peerConfidenceCap && t < p.peerConfidenceCap
    ensures t < RawCrowdConfidence(p, c, 0)
  {
    var base, gap := p.scoreByState.selfReported, p.peerConfidenceCap - p.scoreByState.selfReported;
    c := ComesNear(p.peerConfidenceCap, gap, p.confirmDecay, t);
    var x := Pow(p.confirmDecay, c);
    assert RawCrowdConfidence(p, c, 0) == base + gap * (1.0 - x) - p.negateAsymmetry * gap * (1.0 - Pow(p.confirmDecay, 0));
    assert p.negateAsymmetry * gap * (1.0 - Pow(p.confirmDecay, 0)) == 0.0;
    assert gap * (1.0 - x) == gap - gap * x;
  }

  /** Negations alone bring a base above the cap as near its top as one likes. */
  lemma {:induction false} NegatedNearTop(p: Policy, t: real) returns (n: nat)
    requires Valid(p) && p.scoreByState.selfReported < Top(p) && p.peerConfidenceCap <= p.scoreByState.selfReported && t < Top(p)
    ensures t < RawCrowdConfidence(p, 0, n)
  {
    var base, gap := p.scoreByState.selfReported, p.peerConfidenceCap - p.scoreByState.selfReported;
    var w := p.negateAsymmetry * (base - p.peerConfidenceCap);
    assert p.negateAsymmetry * gap == -w;
    n := ComesNear(Top(p), w, p.confirmDecay, t);
    var y := Pow(p.confirmDecay, n);
    assert RawCrowdConfidence(p, 0, n) == base + gap * (1.0 - Pow(p.confirmDecay, 0)) - p.negateAsymmetry * gap * (1.0 - y);
    assert gap * (1.0 - Pow(p.confirmDecay, 0)) == 0.0;
    assert p.negateAsymmetry * gap * (1.0 - y) == -(w - w * y);
  }

  /** The score before clamping in terms of the distance `g` of the base above the cap,
      `w` being what negations weigh it by. */
  lemma {:induction false} RawAbove(p: Policy, c: nat, n: nat, g: real, w: real, gx: real, wy: real)
    requires g == p.scoreByState.selfReported - p.peerConfidenceCap && w == p.negateAsymmetry * g
    requires gx == g * Pow(p.confirmDecay, c) && wy == w * Pow(p.confirmDecay, n)
    ensures RawCrowdConfidence(p, c, n) == p.scoreByState.selfReported - (g - gx) + (w - wy)
  {
    var x, y := Pow(p.confirmDecay, c), Pow(p.confirmDecay, n);
    hide Pow;
    assert p.negateAsymmetry * -g == -w;
    assert -g * (1.0 - x) == -(g - gx);
    assert -w * (1.0 - y) == -(w - wy);
  }

  lemma {:induction false} LeftOver(x: real, w: real, wx: real)
    requires 0.0 < x <= 1.0 && 0.0 <= w && wx == w * x
    ensures 0.0 <= wx <= w && (0.0 < w ==> 0.0 < wx)
  {
    ScaledUpTo(x, 1.0, w);
    ScaledUpTo(0.0, x, w);
    if 0.0 < w { ScaledUp(0.0, x, w); }
  }

  /** A base at or above the cap is never taken above its top, nor to it but where it starts. */
  lemma {:induction false} RawBelowTop(p: Policy, c: nat, n: nat)
    requires Valid(p) && p.peerConfidenceCap <= p.scoreByState.selfReported
    ensures RawCrowdConfidence(p, c, n) <= Top(p)
    ensures p.scoreByState.selfReported < Top(p) ==> RawCrowdConfidence(p, c, n) < Top(p)
  {
    var g := p.scoreByState.selfReported - p.peerConfidenceCap;
    var w := p.negateAsymmetry * g;
    var gx, wy := g * Pow(p.confirmDecay, c), w * Pow(p.confirmDecay, n);
    PowInUnit(p.confirmDecay, c);
    PowInUnit(p.confirmDecay, n);
    ScaledUpTo(0.0, p.negateAsymmetry, g);
    RawAbove(p, c, n, g, w, gx, wy);
    LeftOver(Pow(p.confirmDecay, c), g, gx);
    LeftOver(Pow(p.confirmDecay, n), w, wy);
    hide RawCrowdConfidence, Pow;
  }

  lemma {:induction false} CeilingHolds(p: Policy, bound: Option<real>, c: nat, n: nat)
    requires Valid(p) && HoldsCeiling(p, bound)
    ensures AdjustedScore(p, bound, c, n) < p.peerConfidenceCap
  {
    hide RawCrowdConfidence, Top, Adjustment;
    if p.scoreByState.selfReported < p.peerConfidenceCap {
      RawBelowCap(p, c, n);
    } else {
      RawBelowTop(p, c, n);
      TopAbove(p);
    }
  }

  lemma {:induction false} ConfirmedPastCap(p: Policy, bound: Option<real>) returns (c: nat)
    requires Valid(p) && p.scoreByState.selfReported < p.peerConfidenceCap && !HoldsCeiling(p, bound)
    ensures p.peerConfidenceCap <= AdjustedScore(p, bound, c, 0)
  {
    c := ConfirmedNearCap(p, Max(p.peerConfidenceCap - Adjustment(bound, p), 0.0));
    hide RawCrowdConfidence;
  }

  /** Some counts break the ceiling where the condition fails. */
  lemma {:induction false} CeilingBreaks(p: Policy, bound: Option<real>) returns (c: nat, n: nat)
    requires Valid(p) && !HoldsCeiling(p, bound)
    ensures p.peerConfidenceCap <= AdjustedScore(p, bound, c, n)
  {
    var base, cap, added := p.scoreByState.selfReported, p.peerConfidenceCap, Adjustment(bound, p);
    c, n := 0, 0;
    if base < cap {
      c := ConfirmedPastCap(p, bound);
    } else if base == Top(p) {
      assert RawCrowdConfidence(p, 0, 0) == base;
    } else {
      TopAbove(p);
      n := NegatedNearTop(p, if 1.0 < Top(p) then Max(1.0, base) else cap - added);
    }
    hide RawCrowdConfidence, Top;
  }

  function Max(a: real, b: real): real { if a <= b then b else a }

  lemma {:induction false} TopAbove(p: Policy)
    requires Valid(p) && p.peerConfidenceCap <= p.scoreByState.selfReported
    ensures p.scoreByState.selfReported <= Top(p)
  {
    ScaledUpTo(0.0, p.negateAsymmetry, p.scoreByState.selfReported - p.peerConfidenceCap);
  }

  /** The ceiling holds with any reporter's adjustment, for every number of confirming and
      negating keys, exactly under the stated condition: for a base below a cap of 1 at
      most, exactly if the adjustment is not positive. */
  lemma {:induction false} AdjustedCeilingExactly(p: Policy, bound: Option<real>)
    requires PolicyFault(bound, p).None?
    ensures (forall c: nat, n: nat :: AdjustedScore(p, bound, c, n) < p.peerConfidenceCap) <==> HoldsCeiling(p, bound)
    ensures p.scoreByState.selfReported < p.peerConfidenceCap <= 1.0 ==> (HoldsCeiling(p, bound) <==> Adjustment(bound, p) <= 0.0)
  {
    hide AdjustedScore, HoldsCeiling;
    if HoldsCeiling(p, bound) {
      forall c: nat, n: nat ensures AdjustedScore(p, bound, c, n) < p.peerConfidenceCap {
        CeilingHolds(p, bound, c, n);
      }
    } else {
      var c, n := CeilingBreaks(p, bound);
    }
    ConditionBelowCap(p, bound);
  }

  lemma {:induction false} ConditionBelowCap(p: Policy, bound: Option<real>)
    ensures p.scoreByState.selfReported < p.peerConfidenceCap <= 1.0 ==> (HoldsCeiling(p, bound) <==> Adjustment(bound, p) <= 0.0)
  {
  }

  lemma {:induction false} AdmitIsSubset(entries: seq<Entry>, now: Option<int>)
    ensures forall e :: e in Admit(entries, now) <==> e in entries && Admissible(e, now)
  {
    if entries != [] {
      AdmitIsSubset(entries[1..], now);
      assert entries == [entries[0]] + entries[1..];
    }
  }

  ghost predicate NoExternal(entries: seq<Entry>) {
    forall e :: e in entries ==> !e.kind.External?
  }

  /** The entries of a ledger that count. */
  ghost function Admitted(input: Ledger): set<Entry> { set e | e in input.entries && Admissible(e, input.now) }

  /** An evaluation that ends well concludes from what is admitted. */
  lemma {:induction false} ConcludesFrom(input: Ledger, p: Policy)
    requires Evaluate(input, p).Ok?
    ensures var A := Admitted(input);
      && Reports(A) != {} && (forall e, f :: e in A && f in A && e.id == f.id ==> e == f)
      && Conclude(Summarise(A), input.now.GetOr(0), input.reporterLowerBound, p) == Evaluate(input, p)
      && PolicyFault(input.reporterLowerBound, p).None?
  {
    AdmitIsSubset(input.entries, input.now);
    var bag := multiset(Admit(input.entries, input.now));
    assert (set e | e in bag) == Admitted(input);
    hide Conclude, Summarise;
  }

  predicate IsCrowdState(state: State) { state.SelfReported? || state.Corroborated? }

  lemma {:induction false} ConcludedCrowd(s: Summary, now: int, bound: Option<real>, p: Policy)
    requires Conclude(s, now, bound, p).Ok?
    ensures var v := Conclude(s, now, bound, p).value;
      && (IsCrowdState(v.state) ==> v.confidenceScore == AdjustedScore(p, bound, s.confirmers, s.negators))
      && (s.lastExternal.None? ==> !v.routingEligible && !v.state.ExternallyResolved?)
      && (s.lastExternal.None? && s.retractionAt.None? && s.negators < p.peerNegationMinKeys ==> !v.state.Negated?)
  {
    hide CrowdConfidence, Adjustment, Deadline;
  }

  /** Peers alone never make an observation routing-eligible, and a live crowd score
      stays below the cap whatever the ledger holds, whenever the policy and the
      reporter's lower bound hold the ceiling. */
  lemma {:induction false} PeerCeiling(input: Ledger, p: Policy)
    requires NoExternal(input.entries) && Evaluate(input, p).Ok?
    ensures var v := Evaluate(input, p).value;
      && !v.routingEligible && !v.state.ExternallyResolved?
      && (IsCrowdState(v.state) && HoldsCeiling(p, input.reporterLowerBound)
          ==> v.confidenceScore < p.peerConfidenceCap < p.scoreByState.externallyResolved)
  {
    ConcludesFrom(input, p);
    var A := Admitted(input);
    assert Externals(A) == {};
    var s := Summarise(A);
    assert s.lastExternal.None?;
    hide HoldsCeiling, Summarise, AdjustedScore, Conclude, Evaluate;
    ConcludedCrowd(s, input.now.GetOr(0), input.reporterLowerBound, p);
    if HoldsCeiling(p, input.reporterLowerBound) {
      CeilingHolds(p, input.reporterLowerBound, s.confirmers, s.negators);
    }
  }

  /** Every key other than the originator's that filed anything. */
  ghost function PeerKeys(A: set<Entry>, first: Entry): set<string> {
    Keys(set e | e in A && e.reporterKey != first.reporterKey)
  }

  lemma {:induction false} PeerCounts(A: set<Entry>, p: Policy)
    requires Reports(A) != {}
    ensures var first, s := Earliest(Reports(A)), Summarise(A);
      s.confirmers <= |PeerKeys(A, first)| && s.negators <= |PeerKeys(A, first)|
  {
    var first := Earliest(Reports(A));
    assert Keys(Confirmations(A, first)) <= PeerKeys(A, first);
    assert Keys(PeerNegations(A, first.reporterKey)) <= PeerKeys(A, first) by {
      forall k | k in Keys(PeerNegations(A, first.reporterKey)) ensures k in PeerKeys(A, first) {
        var e :| e in PeerNegations(A, first.reporterKey) && e.reporterKey == Some(k);
        assert e in A && e.reporterKey != first.reporterKey;
      }
    }
    SubsetSize(Keys(Confirmations(A, first)), PeerKeys(A, first));
    SubsetSize(Keys(PeerNegations(A, first.reporterKey)), PeerKeys(A, first));
  }

  /** The score of a crowd state is one that some counts of keys give, no more of either than there are peers. */
  ghost predicate IsScoreOf(score: real, p: Policy, bound: Option<real>, peers: nat) {
    exists c: nat, n: nat :: c <= peers && n <= peers && score == AdjustedScore(p, bound, c, n)
  }

  /** What a ledger's peers can do is bounded by how many they are, however much they file:
      a live crowd score is that of counts no higher, and fewer than `peerNegationMinKeys`
      of them negate nothing without word from the originator or outside. */
  lemma {:induction false} KeysBoundCounts(input: Ledger, p: Policy)
    requires Evaluate(input, p).Ok?
    ensures var A, v := Admitted(input), Evaluate(input, p).value;
      && Reports(A) != {}
      && var first := Earliest(Reports(A));
      && (IsCrowdState(v.state) ==> IsScoreOf(v.confidenceScore, p, input.reporterLowerBound, |PeerKeys(A, first)|))
      && (|PeerKeys(A, first)| < p.peerNegationMinKeys && Externals(A) == {} && Retractions(A, first.reporterKey) == {}
          ==> !v.state.Negated?)
  {
    ConcludesFrom(input, p);
    var A := Admitted(input);
    PeerCounts(A, p);
    var s, v := Summarise(A), Evaluate(input, p).value;
    assert Retractions(A, Earliest(Reports(A)).reporterKey) == {} ==> s.retractionAt.None?;
    assert Externals(A) == {} ==> s.lastExternal.None?;
    hide Summarise, AdjustedScore, Evaluate, Conclude, PeerKeys, Reports, Admitted, Externals, Retractions;
    ConcludedCrowd(s, input.now.GetOr(0), input.reporterLowerBound, p);
  }

  predicate IsSighting(e: Entry) { e.kind.Report? || e.kind.Confirm? }

  /** `y` already said for its key what `x` says: that the thing is there, or that it is gone. */
  predicate SaysTheSame(x: Entry, y: Entry) {
    && x.reporterKey == y.reporterKey
    && (x.kind == y.kind || (IsAllClear(x) && IsAllClear(y)) || (IsSighting(x) && IsSighting(y)))
  }

  lemma {:induction false} SameConfirmers(A: set<Entry>, x: Entry, y: Entry, first: Entry, first': Entry)
    requires x !in A && y in A && SaysTheSame(x, y) && !x.kind.External?
    requires IsEarliest(first, Reports(A)) && IsEarliest(first', Reports(A + {x}))
    requires first' == first || (first' == x && x.reporterKey == first.reporterKey)
    ensures Keys(Confirmations(A + {x}, first')) == Keys(Confirmations(A, first))
  {
    var c, c' := Confirmations(A, first), Confirmations(A + {x}, first');
    forall k ensures k in Keys(c') <==> k in Keys(c) {
      if k in Keys(c') {
        var e :| e in c' && e.reporterKey == Some(k);
        if e == x { assert y in c; } else { assert e in c; }
      }
      if k in Keys(c) {
        var e :| e in c && e.reporterKey == Some(k);
        assert e in c';
      }
    }
  }

  /** A report refiled is later than the first, or the originator's own. */
  lemma {:induction false} FirstAfter(A: set<Entry>, x: Entry)
    requires Reports(A) != {} && forall e, f :: e in A + {x} && f in A + {x} && e.id == f.id ==> e == f
    requires x.kind.Report? ==> NoLater(Earliest(Reports(A)), x) || x.reporterKey == Earliest(Reports(A)).reporterKey
    ensures Reports(A + {x}) != {}
    ensures var (first, first') := (Earliest(Reports(A)), Earliest(Reports(A + {x})));
      first' == first || (first' == x && x.reporterKey == first.reporterKey)
  {
    var B := A + {x};
    assert Reports(B) == Reports(A) + (if x.kind.Report? then {x} else {});
    var first, first' := Earliest(Reports(A)), Earliest(Reports(B));
    if first' != x {
      assert first' in Reports(A) && first in Reports(B);
      EarliestIsUnique(first, first', Reports(A));
    } else if NoLater(first, x) {
      assert IsEarliest(first, Reports(B));
      EarliestIsUnique(first, first', Reports(B));
    }
  }

  lemma {:induction false} SameAllClears(A: set<Entry>, x: Entry, y: Entry, origin: Option<string>)
    requires x !in A && y in A && SaysTheSame(x, y) && !x.kind.External?
    ensures Externals(A + {x}) == Externals(A)
    ensures Keys(PeerNegations(A + {x}, origin)) == Keys(PeerNegations(A, origin))
    ensures PeerNegations(A + {x}, origin) == {} <==> PeerNegations(A, origin) == {}
    ensures Retractions(A + {x}, origin) == {} <==> Retractions(A, origin) == {}
  {
    var n, n' := PeerNegations(A, origin), PeerNegations(A + {x}, origin);
    var r, r' := Retractions(A, origin), Retractions(A + {x}, origin);
    if IsAllClear(x) && Own(x, origin) {
      assert r' == r + {x} && n' == n && y in r;
    } else if IsAllClear(x) && x.reporterKey.Some? {
      assert n' == n + {x} && r' == r && y in n;
    } else {
      assert n' == n && r' == r;
    }
  }

  /** Refiled by a key, the same words add no confirmer, no negator, and nothing the standing turns on. */
  lemma {:induction false} RefilingKeepsStanding(A: set<Entry>, x: Entry, y: Entry, p: Policy)
    requires forall e, f :: e in A + {x} && f in A + {x} && e.id == f.id ==> e == f
    requires Reports(A) != {} && x !in A
    requires y in A && SaysTheSame(x, y) && !x.kind.External?
    requires x.kind.Report? ==> NoLater(Earliest(Reports(A)), x) || x.reporterKey == Earliest(Reports(A)).reporterKey
    ensures Reports(A + {x}) != {}
    ensures Summarise(A + {x}).confirmers == Summarise(A).confirmers
    ensures Summarise(A + {x}).negators == Summarise(A).negators
    ensures Standing(Summarise(A + {x}), p) == Standing(Summarise(A), p)
  {
    FirstAfter(A, x);
    SameConfirmers(A, x, y, Earliest(Reports(A)), Earliest(Reports(A + {x})));
    SameAllClears(A, x, y, Earliest(Reports(A)).reporterKey);
    hide Summarise, Reports, Confirmations, PeerNegations, Retractions, Keys, Externals, SaysTheSame, IsEarliest, Standing;
    SummaryParts(A);
    SummaryParts(A + {x});
    StandingAlike(Summarise(A), Summarise(A + {x}), p);
  }

  ghost function LastWord(ext: set<Entry>): Option<(int, Outcome)>
    requires forall e :: e in ext ==> e.external.Some?
  {
    if ext == {} then None else Some((Latest(ext).At(), Latest(ext).external.value))
  }

  lemma {:induction false} SummaryParts(A: set<Entry>)
    requires Reports(A) != {}
    ensures var (first, s) := (Earliest(Reports(A)), Summarise(A));
      && s.confirmers == |Keys(Confirmations(A, first))| && s.negators == |Keys(PeerNegations(A, first.reporterKey))|
      && (s.retractionAt.None? <==> Retractions(A, first.reporterKey) == {})
      && (s.lastPeerNegateAt.None? <==> PeerNegations(A, first.reporterKey) == {})
      && s.lastExternal == LastWord(Externals(A))
  {
  }

  lemma {:induction false} StandingAlike(s: Summary, s': Summary, p: Policy)
    requires s'.confirmers == s.confirmers && s'.negators == s.negators && s'.lastExternal == s.lastExternal
    requires s'.retractionAt.None? <==> s.retractionAt.None?
    requires s'.lastPeerNegateAt.None? <==> s.lastPeerNegateAt.None?
    ensures Standing(s', p) == Standing(s, p)
  {
  }

  /** Summaries of one standing and the same counts conclude alike but for what has expired. */
  lemma {:induction false} ConcludeAlike(s: Summary, s': Summary, now: int, bound: Option<real>, p: Policy)
    requires s'.confirmers == s.confirmers && s'.negators == s.negators && Standing(s', p) == Standing(s, p)
    requires Conclude(s, now, bound, p).Ok? && Conclude(s', now, bound, p).Ok?
    ensures ConcludedAlike(Conclude(s, now, bound, p).value, Conclude(s', now, bound, p).value)
  {
    hide Standing, Deadline, CrowdConfidence;
  }

  predicate ConcludedAlike(v: Verdict, v': Verdict) {
    && (v'.state == v.state || v.state.Expired? || v'.state.Expired?)
    && (v'.state == v.state ==> v'.confidenceScore == v.confidenceScore && v'.routingEligible == v.routingEligible)
  }

  /** A report is not before the first, but for the originator's own. */
  ghost predicate LeavesTheOriginator(A: set<Entry>, x: Entry) {
    Reports(A) != {} && x.kind.Report? ==> NoLater(Earliest(Reports(A)), x) || x.reporterKey == Earliest(Reports(A)).reporterKey
  }

  lemma {:induction false} AdmittedWith(input: Ledger, refiled: Ledger, x: Entry)
    requires refiled.now == input.now && multiset(refiled.entries) == multiset(input.entries) + multiset{x}
    ensures Admitted(refiled) == Admitted(input) + if Admissible(x, input.now) then {x} else {}
  {
    forall e ensures e in refiled.entries <==> e in input.entries || e == x {
      assert e in multiset(refiled.entries) <==> e in multiset(input.entries) + multiset{x};
    }
  }

  /** A key that files the same again can only move the expiry: the state is the same but
      for what has expired, and in one state the score and the routing flag are. */
  lemma {:induction false} RefilingCountsOnce(input: Ledger, refiled: Ledger, x: Entry, y: Entry, p: Policy)
    requires refiled.now == input.now && refiled.reporterLowerBound == input.reporterLowerBound
    requires multiset(refiled.entries) == multiset(input.entries) + multiset{x}
    requires Evaluate(input, p).Ok? && Evaluate(refiled, p).Ok?
    requires y in input.entries && Admissible(y, input.now) && SaysTheSame(x, y) && !x.kind.External?
    requires Admissible(x, input.now) ==> LeavesTheOriginator(Admitted(input), x)
    ensures ConcludedAlike(Evaluate(input, p).value, Evaluate(refiled, p).value)
  {
    hide Summarise, Conclude, Standing, Evaluate, SaysTheSame, ConcludedAlike, Reports;
    ConcludesFrom(input, p);
    ConcludesFrom(refiled, p);
    AdmittedWith(input, refiled, x);
    if Admissible(x, input.now) {
      NotThereYet(input, refiled, x, p);
      RefilingKeepsStanding(Admitted(input), x, y, p);
    } else {
      assert Admitted(refiled) == Admitted(input);
    }
    ConcludeAlike(Summarise(Admitted(input)), Summarise(Admitted(refiled)), input.now.GetOr(0), input.reporterLowerBound, p);
  }

  /** Ids do not repeat, so an entry filed once more was not there before. */
  lemma {:induction false} NotThereYet(input: Ledger, refiled: Ledger, x: Entry, p: Policy)
    requires refiled.now == input.now && multiset(refiled.entries) == multiset(input.entries) + multiset{x}
    requires Evaluate(refiled, p).Ok? && Admissible(x, input.now)
    ensures x !in Admitted(input)
  {
    AdmitCounts(refiled.entries, refiled.now, x);
    var bag := multiset(Admit(refiled.entries, refiled.now));
    assert DistinctIds(bag) && x in bag && bag[x] == 1;
    assert multiset(refiled.entries)[x] == multiset(input.entries)[x] + 1;
    assert x in input.entries <==> x in multiset(input.entries);
  }

  // --- expiry ---

  lemma {:induction false} ShrunkBetween(expiry: real, negateAt: real, negators: nat, factor: real)
    requires 0.0 <= factor <= 1.0
    ensures Min(expiry, negateAt) <= ShrinkExpiry(expiry, negateAt, negators, factor) <= expiry
  {
    if negators > 0 && negateAt < expiry {
      PowInUnit(factor, negators);
      var left, power := expiry - negateAt, Pow(factor, negators);
      Scaled(power, left, power * left);
    }
  }

  /** A crowd deadline lies between the last negation and the decay expiry, and
      is the decay expiry when nobody negated. */
  lemma {:induction false} CrowdDeadline(s: Summary, p: Policy)
    requires Valid(p) && s.lastExternal.None? && s.retractionAt.None? && !PeersNegate(s, p)
    ensures Deadline(s, p) <= DecayExpiry(s, p)
    ensures s.lastPeerNegateAt.Some? ==> Min(DecayExpiry(s, p), s.lastPeerNegateAt.value as real) <= Deadline(s, p)
    ensures s.negators == 0 || s.lastPeerNegateAt.None? ==> Deadline(s, p) == DecayExpiry(s, p)
  {
    var decay := DecayExpiry(s, p);
    var anchor := if s.lastPeerNegateAt.Some? then s.lastPeerNegateAt.value as real else decay;
    ShrunkBetween(decay, anchor, s.negators, p.negateShrinkFactor);
  }

  lemma {:induction false} TruncatedBelow(ms: real, bound: int)
    requires ms <= bound as real
    ensures Truncated(ms) <= bound
  {
  }

  lemma {:induction false} DeadlineBounds(s: Summary, p: Policy, t: int)
    requires Valid(p) && s.lastPositiveAt <= t
    requires s.retractionAt.Some? ==> s.retractionAt.value <= t
    requires s.lastPeerNegateAt.Some? ==> s.lastPeerNegateAt.value <= t
    requires s.lastExternal.Some? ==> s.lastExternal.value.0 <= t
    ensures if Standing(s, p).Negated? then Deadline(s, p) <= t as real
            else Deadline(s, p) <= t as real + p.ttlSec * 1000.0 && Deadline(s, p) <= LifetimeEnd(s, p)
  {
    if s.lastExternal.None? && s.retractionAt.None? && !PeersNegate(s, p) {
      CrowdDeadline(s, p);
    }
  }

  /** A ledger filed by `t` that is negated has ended by `t`; any other ends by `t` plus
      the time to live, whatever that is, and by the end of its first report's lifetime. */
  lemma {:induction false} ExpiryBounds(input: Ledger, p: Policy, t: int, first: Entry, end: int, life: int)
    requires Evaluate(input, p).Ok?
    requires forall e :: e in input.entries && Admissible(e, input.now) ==> e.At() <= t
    requires first in input.entries && Admissible(first, input.now) && first.kind.Report?
    requires t as real + p.ttlSec * 1000.0 <= end as real
    requires first.At() as real + p.maxLifetimeSec * 1000.0 <= life as real
    ensures var v := Evaluate(input, p).value;
      if v.state.Negated? then v.expiresAt <= t else v.expiresAt <= end && v.expiresAt <= life
  {
    AdmitIsSubset(input.entries, input.now);
    var bag := multiset(Admit(input.entries, input.now));
    var A := set e | e in bag;
    assert first in Reports(A);
    SummaryWithin(A, t, first);
    var s := Summarise(A);
    DeadlineBounds(s, p, t);
    if Standing(s, p).Negated? {
      TruncatedBelow(Deadline(s, p), t);
    } else {
      TruncatedBelow(Deadline(s, p), end);
      TruncatedBelow(Deadline(s, p), life);
    }
  }

  lemma {:induction false} SummaryWithin(A: set<Entry>, t: int, first: Entry)
    requires first in Reports(A) && forall e :: e in A ==> e.At() <= t
    ensures var s := Summarise(A);
      && s.firstReportAt <= first.At() && s.lastPositiveAt <= t
      && (s.retractionAt.Some? ==> s.retractionAt.value <= t)
      && (s.lastPeerNegateAt.Some? ==> s.lastPeerNegateAt.value <= t)
      && (s.lastExternal.Some? ==> s.lastExternal.value.0 <= t)
  {
  }
}
