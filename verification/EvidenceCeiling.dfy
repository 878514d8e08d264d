/** How far peers alone can take a score: which counts of confirming and negating keys a
    live ledger can have, ledgers that have them, and where the ceiling gives way. */
module EvidenceCeiling {
  import opened Basics
  import opened Evidence
  import opened EvidenceLaws

  /** Whether so many confirming and negating keys leave an observation live: they negate
      nothing, and where no lifetime outlasts a negation there is none. */
  predicate CanBeLive(p: Policy, confirmers: nat, negators: nat) {
    && (negators < p.peerNegationMinKeys || negators <= confirmers)
    && (negators == 0 || 0.0 < p.negateShrinkFactor)
  }

  // --- a ledger of a report, confirmations and negations ---

  function Name(i: nat): string { seq(i + 1, _ => 'k') }

  function Filed(c: nat, i: nat): Entry {
    Entry(Name(i), Some(0), if i == 0 then Report else if i <= c then Confirm else Negate, Some(Name(i)), None)
  }

  function Crowd(c: nat, n: nat): seq<Entry> { seq(c + n + 1, i requires 0 <= i <= c + n => Filed(c, i)) }

  function CrowdLedger(c: nat, n: nat, bound: Option<real>): Ledger { Ledger(Crowd(c, n), Some(0), bound) }

  lemma {:induction false} NamesDiffer(i: nat, j: nat)
    requires i != j
    ensures Name(i) != Name(j)
  {
    assert |Name(i)| != |Name(j)|;
  }

  lemma {:induction false} AllAdmitted(entries: seq<Entry>)
    requires forall e :: e in entries ==> Admissible(e, Some(0))
    ensures Admit(entries, Some(0)) == entries
  {
    if entries != [] {
      assert entries[0] in entries;
      AllAdmitted(entries[1..]);
    }
  }

  function NamesFrom(from: nat, n: nat): set<string> { set i | from < i <= from + n :: Name(i) }

  lemma {:induction false} CountNames(from: nat, n: nat)
    ensures |NamesFrom(from, n)| == n
  {
    if n > 0 {
      CountNames(from, n - 1);
      forall i: nat | i < from + n ensures Name(i) != Name(from + n) { NamesDiffer(i, from + n); }
      hide Name;
      assert NamesFrom(from, n) == NamesFrom(from, n - 1) + {Name(from + n)};
    }
  }

  ghost function CrowdSet(c: nat, n: nat): set<Entry> { set e | e in Crowd(c, n) }

  lemma {:induction false} InCrowd(c: nat, n: nat, e: Entry)
    ensures e in Crowd(c, n) <==> exists i: nat :: i <= c + n && e == Filed(c, i)
  {
    if e in Crowd(c, n) {
      var i :| 0 <= i <= c + n && Crowd(c, n)[i] == e;
      assert e == Filed(c, i);
    }
    if i: nat :| i <= c + n && e == Filed(c, i) {
      assert Crowd(c, n)[i] == e;
    }
  }

  /** The entries filed from `from` on, some of the crowd. */
  lemma {:induction false} KeysFiled(c: nat, B: set<Entry>, from: nat, n: nat)
    requires forall e :: e in B <==> exists i: nat :: from < i <= from + n && e == Filed(c, i)
    ensures Keys(B) == NamesFrom(from, n) && |Keys(B)| == n && (n == 0 <==> B == {})
  {
    CountNames(from, n);
    hide Name;
    forall k | k in NamesFrom(from, n) ensures k in Keys(B) {
      var i :| from < i <= from + n && k == Name(i);
      assert Filed(c, i) in B;
    }
    if n > 0 {
      assert Filed(c, from + 1) in B;
    }
  }

  lemma {:induction false} CrowdConfirms(c: nat, n: nat)
    ensures |Keys(Confirmations(CrowdSet(c, n), Filed(c, 0)))| == c
  {
    var B := Confirmations(CrowdSet(c, n), Filed(c, 0));
    forall e ensures e in B <==> exists i: nat :: 0 < i <= c && e == Filed(c, i) {
      InCrowd(c, n, e);
      if i: nat :| 0 < i <= c && e == Filed(c, i) {
        NamesDiffer(0, i);
        assert i <= c + n;
      }
    }
    KeysFiled(c, B, 0, c);
  }

  lemma {:induction false} CrowdNegates(c: nat, n: nat)
    ensures var B := PeerNegations(CrowdSet(c, n), Filed(c, 0).reporterKey);
      |Keys(B)| == n && (n == 0 <==> B == {}) && forall e :: e in B ==> e.At() == 0
  {
    var B := PeerNegations(CrowdSet(c, n), Filed(c, 0).reporterKey);
    forall e ensures e in B <==> exists i: nat :: c < i <= c + n && e == Filed(c, i) {
      InCrowd(c, n, e);
      if i: nat :| c < i <= c + n && e == Filed(c, i) {
        NamesDiffer(0, i);
      }
    }
    KeysFiled(c, B, c, n);
  }

  lemma {:induction false} CrowdHasNoOther(c: nat, n: nat)
    ensures Reports(CrowdSet(c, n)) == {Filed(c, 0)} && Externals(CrowdSet(c, n)) == {}
    ensures Retractions(CrowdSet(c, n), Filed(c, 0).reporterKey) == {}
    ensures forall e :: e in CrowdSet(c, n) ==> e.At() == 0
  {
    var A := CrowdSet(c, n);
    forall e ensures e in A <==> exists i: nat :: i <= c + n && e == Filed(c, i) { InCrowd(c, n, e); }
    assert Filed(c, 0) in A;
    forall i: nat | i != 0 ensures Name(i) != Name(0) { NamesDiffer(i, 0); }
    hide Name;
  }

  function CrowdCounts(c: nat, n: nat): Summary {
    Summary(0, 0, c, n, None, if n == 0 then None else Some(0), None)
  }

  /** What such a ledger comes to: as many confirmers as confirmed and negators as negated. */
  lemma {:induction false} CrowdSummary(c: nat, n: nat)
    ensures Reports(CrowdSet(c, n)) != {} && Summarise(CrowdSet(c, n)) == CrowdCounts(c, n)
  {
    CrowdHasNoOther(c, n);
    CrowdConfirms(c, n);
    CrowdNegates(c, n);
    hide CrowdSet, Filed, Retractions, Externals, Confirmations, PeerNegations, Keys;
  }

  lemma {:induction false} CrowdIdsDiffer(c: nat, n: nat)
    ensures DistinctIds(multiset(Crowd(c, n))) && (set e | e in multiset(Crowd(c, n))) == CrowdSet(c, n)
  {
    forall i, j | 0 <= i < j <= c + n ensures Crowd(c, n)[i].id != Crowd(c, n)[j].id { NamesDiffer(i, j); }
    hide Name, Filed;
    CountsOfDistinct(Crowd(c, n));
  }

  lemma {:induction false} CrowdAdmitted(c: nat, n: nat)
    ensures Admit(Crowd(c, n), Some(0)) == Crowd(c, n)
  {
    forall e | e in Crowd(c, n) ensures Admissible(e, Some(0)) { InCrowd(c, n, e); }
    AllAdmitted(Crowd(c, n));
  }

  /** How long a report lives unconfirmed, in milliseconds. */
  function Lifetime(p: Policy): real { Min(p.ttlSec * 1000.0, p.maxLifetimeSec * 1000.0) }

  /** Such a ledger, just filed, is live, and has the score of its confirmers and negators. */
  lemma {:induction false} CrowdScore(p: Policy, bound: Option<real>, c: nat, n: nat)
    requires PolicyFault(bound, p).None? && 0.0 < Lifetime(p) <= MAX_TIME && CanBeLive(p, c, n)
    ensures var r := Evaluate(CrowdLedger(c, n, bound), p);
      && r.Ok? && r.value.state == (if 1 + c >= p.corroborationMinDistinctKeys then Corroborated else SelfReported)
      && r.value.confidenceScore == AdjustedScore(p, bound, c, n)
  {
    hide *;
    CrowdAdmitted(c, n);
    CrowdIdsDiffer(c, n);
    CrowdSummary(c, n);
    CrowdEvaluates(p, bound, c, n);
    CrowdVerdict(p, bound, c, n);
  }

  lemma {:induction false} CrowdEvaluates(p: Policy, bound: Option<real>, c: nat, n: nat)
    requires PolicyFault(bound, p).None? && Admit(Crowd(c, n), Some(0)) == Crowd(c, n) && DistinctIds(multiset(Crowd(c, n)))
    requires (set e | e in multiset(Crowd(c, n))) == CrowdSet(c, n)
    requires Reports(CrowdSet(c, n)) != {} && Summarise(CrowdSet(c, n)) == CrowdCounts(c, n)
    ensures Evaluate(CrowdLedger(c, n, bound), p) == Conclude(CrowdCounts(c, n), 0, bound, p)
  {
    hide Crowd, CrowdSet, Summarise, DistinctIds, Conclude, Reports, PolicyFault, Admit, CrowdCounts;
  }

  lemma {:induction false} ShrunkStaysAhead(life: real, n: nat, factor: real)
    requires 0.0 < life && 0.0 <= factor <= 1.0 && (n == 0 || 0.0 < factor)
    ensures 0.0 < ShrinkExpiry(life, 0.0, n, factor) <= life
  {
    var share := Pow(factor, n);
    PowInUnit(factor, n);
    if n > 0 {
      ScaledUp(0.0, life, share);
    }
    hide Pow;
  }

  lemma {:induction false} CrowdDeadline(p: Policy, c: nat, n: nat)
    requires Valid(p) && 0.0 < Lifetime(p) <= MAX_TIME && CanBeLive(p, c, n)
    ensures 0.0 < Deadline(CrowdCounts(c, n), p) <= MAX_TIME
  {
    assert DecayExpiry(CrowdCounts(c, n), p) == Lifetime(p);
    if n == 0 || p.negateShrinkFactor > 0.0 {
      ShrunkStaysAhead(Lifetime(p), n, p.negateShrinkFactor);
    }
    hide ShrinkExpiry, Lifetime, DecayExpiry;
    assert n == 0 ==> Deadline(CrowdCounts(c, n), p) == ShrinkExpiry(Lifetime(p), Lifetime(p), 0, p.negateShrinkFactor);
    assert n > 0 ==> Deadline(CrowdCounts(c, n), p) == ShrinkExpiry(Lifetime(p), 0.0, n, p.negateShrinkFactor);
    NothingShrunk(Lifetime(p), p.negateShrinkFactor);
  }

  lemma {:induction false} NothingShrunk(life: real, factor: real)
    ensures ShrinkExpiry(life, life, 0, factor) == life
  {
  }

  lemma {:induction false} CrowdVerdict(p: Policy, bound: Option<real>, c: nat, n: nat)
    requires PolicyFault(bound, p).None? && 0.0 < Lifetime(p) <= MAX_TIME && CanBeLive(p, c, n)
    ensures var r := Conclude(CrowdCounts(c, n), 0, bound, p);
      && r.Ok? && r.value.state == (if 1 + c >= p.corroborationMinDistinctKeys then Corroborated else SelfReported)
      && r.value.confidenceScore == AdjustedScore(p, bound, c, n)
  {
    CrowdDeadline(p, c, n);
    hide CrowdConfidence, Adjustment, Deadline, Lifetime, PolicyFault;
  }

  lemma {:induction false} CrowdHasNoExternal(c: nat, n: nat, bound: Option<real>)
    ensures NoExternal(CrowdLedger(c, n, bound).entries)
  {
    forall e | e in Crowd(c, n) ensures !e.kind.External? { InCrowd(c, n, e); }
  }

  // --- what a live ledger can count ---

  lemma {:induction false} DeadlineBeforeDecay(s: Summary, p: Policy)
    requires Valid(p) && IsCrowdState(Standing(s, p))
    ensures Deadline(s, p) <= DecayExpiry(s, p)
    ensures s.negators > 0 && s.lastPeerNegateAt.Some? && p.negateShrinkFactor == 0.0 ==>
      Deadline(s, p) <= s.lastPeerNegateAt.value as real
  {
    hide DecayExpiry;
    if s.negators > 0 {
      assert Pow(0.0, s.negators) == 0.0 * Pow(0.0, s.negators - 1) == 0.0;
    }
  }

  /** Live counts are those that negate nothing, and no report outlives a policy that gives no time. */
  lemma {:induction false} LiveConclusion(s: Summary, now: int, bound: Option<real>, p: Policy)
    requires Valid(p) && s.lastExternal.None? && (s.negators > 0 <==> s.lastPeerNegateAt.Some?)
    requires s.firstReportAt <= now && s.lastPositiveAt <= now
    requires s.lastPeerNegateAt.Some? ==> s.lastPeerNegateAt.value <= now
    requires Conclude(s, now, bound, p).Ok? && IsCrowdState(Conclude(s, now, bound, p).value.state)
    ensures CanBeLive(p, s.confirmers, s.negators) && 0.0 < Lifetime(p)
    ensures Conclude(s, now, bound, p).value.confidenceScore == AdjustedScore(p, bound, s.confirmers, s.negators)
  {
    DeadlineBeforeDecay(s, p);
    hide CrowdConfidence, Adjustment, Deadline;
  }

  lemma {:induction false} SummaryOfPeers(A: set<Entry>, now: int)
    requires Reports(A) != {} && Externals(A) == {} && forall e :: e in A ==> e.At() <= now
    ensures var s := Summarise(A);
      && s.lastExternal.None? && (s.negators > 0 <==> s.lastPeerNegateAt.Some?)
      && s.firstReportAt <= now && s.lastPositiveAt <= now
      && (s.lastPeerNegateAt.Some? ==> s.lastPeerNegateAt.value <= now)
  {
    var peer := PeerNegations(A, Earliest(Reports(A)).reporterKey);
    if peer != {} {
      var e :| e in peer;
      assert e.reporterKey.value in Keys(peer);
    } else {
      assert Keys(peer) == {};
    }
  }

  /** A ledger of peers that is live: its score is that of counts that can be live. */
  ghost predicate HasLiveScore(score: real, p: Policy, bound: Option<real>) {
    exists c: nat, n: nat :: CanBeLive(p, c, n) && score == AdjustedScore(p, bound, c, n)
  }

  ghost predicate IsPeerLedger(input: Ledger, p: Policy, bound: Option<real>) {
    && NoExternal(input.entries) && input.reporterLowerBound == bound
    && Evaluate(input, p).Ok? && IsCrowdState(Evaluate(input, p).value.state)
  }

  lemma {:induction false} LiveLedger(input: Ledger, p: Policy, bound: Option<real>)
    requires IsPeerLedger(input, p, bound)
    ensures 0.0 < Lifetime(p) && HasLiveScore(Evaluate(input, p).value.confidenceScore, p, bound)
  {
    ConcludesFrom(input, p);
    var A, now := Admitted(input), input.now.GetOr(0);
    assert Externals(A) == {};
    SummaryOfPeers(A, now);
    var s := Summarise(A);
    hide Summarise, Evaluate, Conclude, AdjustedScore, CanBeLive, Lifetime;
    LiveConclusion(s, now, bound, p);
  }

  /** Whether every live crowd score that some ledger of peers gives stays below the cap. */
  ghost predicate PeersStayBelow(p: Policy, bound: Option<real>) {
    forall input :: IsPeerLedger(input, p, bound) ==> Evaluate(input, p).value.confidenceScore < p.peerConfidenceCap
  }

  ghost predicate CountsStayBelow(p: Policy, bound: Option<real>) {
    forall c: nat, n: nat :: CanBeLive(p, c, n) ==> AdjustedScore(p, bound, c, n) < p.peerConfidenceCap
  }

  /** What ledgers of peers can reach is what counts that can be live can. */
  lemma {:induction false} LedgersAreCounts(p: Policy, bound: Option<real>)
    requires PolicyFault(bound, p).None? && Lifetime(p) <= MAX_TIME
    ensures PeersStayBelow(p, bound) <==> Lifetime(p) <= 0.0 || CountsStayBelow(p, bound)
  {
    hide Lifetime, CanBeLive, AdjustedScore, Evaluate, PolicyFault, NoExternal;
    if Lifetime(p) <= 0.0 || CountsStayBelow(p, bound) {
      forall input | IsPeerLedger(input, p, bound) ensures Evaluate(input, p).value.confidenceScore < p.peerConfidenceCap {
        LiveLedger(input, p, bound);
      }
    } else {
      var c: nat, n: nat :| CanBeLive(p, c, n) && p.peerConfidenceCap <= AdjustedScore(p, bound, c, n);
      CrowdScore(p, bound, c, n);
      CrowdHasNoExternal(c, n, bound);
      assert IsPeerLedger(CrowdLedger(c, n, bound), p, bound);
    }
  }

  // --- the exact condition ---

  /** The most keys that can negate without a confirmation and leave the observation live. */
  function Quiet(p: Policy): nat {
    if p.negateShrinkFactor == 0.0 || p.peerNegationMinKeys <= 0 then 0 else p.peerNegationMinKeys - 1
  }

  /** Where equally many confirmations and negations lead. */
  function Balance(p: Policy): real {
    p.scoreByState.selfReported + (p.negateAsymmetry - 1.0) * (p.scoreByState.selfReported - p.peerConfidenceCap)
  }

  /** What a policy and a reporter's lower bound have to meet for live scores to stay below the cap. */
  predicate HoldsLiveCeiling(p: Policy, bound: Option<real>) {
    var (base, cap, added) := (p.scoreByState.selfReported, p.peerConfidenceCap, Adjustment(bound, p));
    if 1.0 < cap then true
    else if base < cap then added <= 0.0
    else
      && AdjustedScore(p, bound, 0, Quiet(p)) < cap
      && (p.negateShrinkFactor == 0.0 || if 1.0 < Balance(p) then 1.0 + added < cap else Balance(p) + added <= cap)
  }

  lemma {:induction false} AdjustedBelow(p: Policy, bound: Option<real>, c: nat, n: nat)
    requires 0.0 < p.peerConfidenceCap <= 1.0
    ensures AdjustedScore(p, bound, c, n) < p.peerConfidenceCap
       <==> Clamp01(RawCrowdConfidence(p, c, n)) + Adjustment(bound, p) < p.peerConfidenceCap
  {
    hide RawCrowdConfidence, Adjustment;
  }

  lemma {:induction false} RawAtStart(p: Policy)
    ensures RawCrowdConfidence(p, 0, 0) == p.scoreByState.selfReported
  {
  }

  /** From a base at or above the cap, confirmations lower the score and negations raise it. */
  lemma {:induction false} RawOrder(p: Policy, c: nat, n: nat, d: nat, m: nat)
    requires Valid(p) && p.peerConfidenceCap <= p.scoreByState.selfReported && d <= c && n <= m
    ensures RawCrowdConfidence(p, c, n) <= RawCrowdConfidence(p, d, m)
  {
    hide RawCrowdConfidence, Pow;
    if d < c { PowDecreases(p.confirmDecay, d, c); }
    if n < m { PowDecreases(p.confirmDecay, n, m); }
    var g := p.scoreByState.selfReported - p.peerConfidenceCap;
    var w := p.negateAsymmetry * g;
    ScaledUpTo(0.0, p.negateAsymmetry, g);
    RawInOrder(p, c, n, d, m, g, w);
  }

  lemma {:induction false} RawInOrder(p: Policy, c: nat, n: nat, d: nat, m: nat, g: real, w: real)
    requires g == p.scoreByState.selfReported - p.peerConfidenceCap && w == p.negateAsymmetry * g && 0.0 <= g && 0.0 <= w
    requires Pow(p.confirmDecay, c) <= Pow(p.confirmDecay, d) && Pow(p.confirmDecay, m) <= Pow(p.confirmDecay, n)
    ensures RawCrowdConfidence(p, c, n) <= RawCrowdConfidence(p, d, m)
  {
    hide RawCrowdConfidence, Pow;
    var gc, gd, wn, wm := g * Pow(p.confirmDecay, c), g * Pow(p.confirmDecay, d), w * Pow(p.confirmDecay, n), w * Pow(p.confirmDecay, m);
    RawAbove(p, c, n, g, w, gc, wn);
    RawAbove(p, d, m, g, w, gd, wm);
    ScaledUpTo(Pow(p.confirmDecay, c), Pow(p.confirmDecay, d), g);
    ScaledUpTo(Pow(p.confirmDecay, m), Pow(p.confirmDecay, n), w);
  }

  lemma {:induction false} AdjustedOrder(p: Policy, bound: Option<real>, c: nat, n: nat, d: nat, m: nat)
    requires RawCrowdConfidence(p, c, n) <= RawCrowdConfidence(p, d, m)
    ensures AdjustedScore(p, bound, c, n) <= AdjustedScore(p, bound, d, m)
  {
    hide RawCrowdConfidence, Adjustment;
  }

  /** With confirmations at least as many, negations come to no more than the balance. */
  lemma {:induction false} RawBalanced(p: Policy, n: nat, left: real)
    requires Valid(p) && p.peerConfidenceCap <= p.scoreByState.selfReported
    requires left == (Balance(p) - p.scoreByState.selfReported) * Pow(p.confirmDecay, n)
    ensures RawCrowdConfidence(p, n, n) == Balance(p) - left
    ensures 0.0 < Balance(p) - p.scoreByState.selfReported ==> 0.0 < left <= Balance(p) - p.scoreByState.selfReported
    ensures Balance(p) - p.scoreByState.selfReported <= 0.0 ==> left <= 0.0 && Balance(p) - p.scoreByState.selfReported <= left
  {
    var g := p.scoreByState.selfReported - p.peerConfidenceCap;
    var w, y := p.negateAsymmetry * g, Pow(p.confirmDecay, n);
    var gy, wy := g * y, w * y;
    PowInUnit(p.confirmDecay, n);
    RawAbove(p, n, n, g, w, gy, wy);
    var gain := Balance(p) - p.scoreByState.selfReported;
    assert gain == w - g;
    hide RawCrowdConfidence, Pow, Balance;
    assert left == wy - gy;
    if 0.0 < gain {
      LeftOver(y, gain, left);
    } else {
      LeftOver(y, -gain, -left);
    }
  }

  lemma {:induction false} UnderBalance(p: Policy, bound: Option<real>, n: nat)
    requires 0.0 < p.peerConfidenceCap <= p.scoreByState.selfReported && p.peerConfidenceCap <= 1.0
    requires if 1.0 < Balance(p) then 1.0 + Adjustment(bound, p) < p.peerConfidenceCap
             else Balance(p) + Adjustment(bound, p) <= p.peerConfidenceCap
    requires p.scoreByState.selfReported < Balance(p) && RawCrowdConfidence(p, n, n) < Balance(p)
    ensures AdjustedScore(p, bound, n, n) < p.peerConfidenceCap
  {
    AdjustedBelow(p, bound, n, n);
    hide RawCrowdConfidence, Adjustment, Balance, AdjustedScore;
  }

  /** Where negations are met by as many confirmations. */
  lemma {:induction false} BalancedBelow(p: Policy, bound: Option<real>, n: nat)
    requires Valid(p) && HoldsLiveCeiling(p, bound) && 0.0 < p.negateShrinkFactor
    requires p.peerConfidenceCap <= p.scoreByState.selfReported && p.peerConfidenceCap <= 1.0
    ensures AdjustedScore(p, bound, n, n) < p.peerConfidenceCap
  {
    hide RawCrowdConfidence, Pow, AdjustedScore, Adjustment, Balance;
    var gain := Balance(p) - p.scoreByState.selfReported;
    var left := gain * Pow(p.confirmDecay, n);
    RawBalanced(p, n, left);
    if 0.0 < gain {
      UnderBalance(p, bound, n);
    } else {
      RawAtStart(p);
      RawOrder(p, 0, 0, 0, Quiet(p));
      AdjustedOrder(p, bound, n, n, 0, Quiet(p));
    }
  }

  lemma {:induction false} LiveStaysBelow(p: Policy, bound: Option<real>, c: nat, n: nat)
    requires Valid(p) && HoldsLiveCeiling(p, bound) && CanBeLive(p, c, n)
    requires p.peerConfidenceCap <= p.scoreByState.selfReported && p.peerConfidenceCap <= 1.0
    ensures AdjustedScore(p, bound, c, n) < p.peerConfidenceCap
  {
    hide RawCrowdConfidence, AdjustedScore, Adjustment, Balance;
    if n <= Quiet(p) {
      RawOrder(p, c, n, 0, Quiet(p));
      AdjustedOrder(p, bound, c, n, 0, Quiet(p));
    } else {
      RawOrder(p, c, n, n, n);
      AdjustedOrder(p, bound, c, n, n, n);
      BalancedBelow(p, bound, n);
    }
  }

  lemma {:induction false} BalanceApproached(p: Policy, bound: Option<real>) returns (n: nat)
    requires Valid(p) && 0.0 < p.peerConfidenceCap <= p.scoreByState.selfReported && p.peerConfidenceCap <= 1.0
    requires if 1.0 < Balance(p) then p.peerConfidenceCap <= 1.0 + Adjustment(bound, p)
             else p.peerConfidenceCap < Balance(p) + Adjustment(bound, p)
    ensures p.peerConfidenceCap <= AdjustedScore(p, bound, n, n)
  {
    var base, gain := p.scoreByState.selfReported, Balance(p) - p.scoreByState.selfReported;
    n := 0;
    if 0.0 < gain {
      n := ComesNear(Balance(p), gain, p.confirmDecay, if 1.0 < Balance(p) then 1.0 else p.peerConfidenceCap - Adjustment(bound, p));
    }
    var left := gain * Pow(p.confirmDecay, n);
    RawBalanced(p, n, left);
    RawAtStart(p);
    AdjustedBelow(p, bound, n, n);
    hide RawCrowdConfidence, Adjustment, Balance, Pow;
  }

  lemma {:induction false} LiveCountsPass(p: Policy, bound: Option<real>) returns (c: nat, n: nat)
    requires Valid(p) && !HoldsLiveCeiling(p, bound)
    ensures CanBeLive(p, c, n) && p.peerConfidenceCap <= AdjustedScore(p, bound, c, n)
  {
    hide AdjustedScore, Adjustment, Balance;
    if p.scoreByState.selfReported < p.peerConfidenceCap {
      c := ConfirmedPastCap(p, bound);
      n := 0;
    } else if p.peerConfidenceCap <= AdjustedScore(p, bound, 0, Quiet(p)) {
      c, n := 0, Quiet(p);
    } else {
      n := BalanceApproached(p, bound);
      c := n;
    }
  }

  lemma {:induction false} CountsStayBelowExactly(p: Policy, bound: Option<real>)
    requires Valid(p)
    ensures CountsStayBelow(p, bound) <==> HoldsLiveCeiling(p, bound)
  {
    hide CanBeLive;
    if HoldsLiveCeiling(p, bound) {
      forall c: nat, n: nat | CanBeLive(p, c, n) ensures AdjustedScore(p, bound, c, n) < p.peerConfidenceCap {
        if p.scoreByState.selfReported < p.peerConfidenceCap || 1.0 < p.peerConfidenceCap {
          hide RawCrowdConfidence, Adjustment;
          if p.scoreByState.selfReported < p.peerConfidenceCap { RawBelowCap(p, c, n); }
        } else {
          LiveStaysBelow(p, bound, c, n);
        }
      }
    } else {
      var c, n := LiveCountsPass(p, bound);
    }
  }

  lemma {:induction false} UnadjustedCondition(p: Policy)
    requires Valid(p)
    ensures HoldsLiveCeiling(p, None) <==> p.scoreByState.selfReported < p.peerConfidenceCap || 1.0 < p.peerConfidenceCap
  {
    if p.peerConfidenceCap <= p.scoreByState.selfReported && p.peerConfidenceCap <= 1.0 {
      RawOrder(p, 0, 0, 0, Quiet(p));
      RawAtStart(p);
      AdjustedBelow(p, None, 0, Quiet(p));
    }
    hide RawCrowdConfidence, Balance, AdjustedScore;
  }

  /** Over all ledgers of peers, whatever policy the code accepts whose lifetimes a date can
      hold: live scores stay below the cap exactly if nothing lives, or policy and lower
      bound meet `HoldsLiveCeiling`. For a base below a cap of 1 at most that is an
      adjustment that is not positive; without an adjustment, a base below the cap or a cap
      above every score. */
  lemma {:induction false} PeerCeilingExactly(p: Policy, bound: Option<real>)
    requires PolicyFault(bound, p).None? && Lifetime(p) <= MAX_TIME
    ensures PeersStayBelow(p, bound) <==> Lifetime(p) <= 0.0 || HoldsLiveCeiling(p, bound)
    ensures p.scoreByState.selfReported < p.peerConfidenceCap <= 1.0 ==> (HoldsLiveCeiling(p, bound) <==> Adjustment(bound, p) <= 0.0)
    ensures HoldsLiveCeiling(p, None) <==> p.scoreByState.selfReported < p.peerConfidenceCap || 1.0 < p.peerConfidenceCap
  {
    LedgersAreCounts(p, bound);
    CountsStayBelowExactly(p, bound);
    UnadjustedCondition(p);
    hide Lifetime, PeersStayBelow, CountsStayBelow, AdjustedScore, Balance;
  }

  /** In numbers: a well-trusted reporter's single report scores above the cap. */
  lemma {:induction false} AdjustmentCanPassTheCap()
    ensures exists input: Ledger, p: Policy ::
      && NoExternal(input.entries) && Evaluate(input, p).Ok?
      && p.scoreByState.selfReported < p.peerConfidenceCap
      && Evaluate(input, p).value.state.SelfReported?
      && Evaluate(input, p).value.confidenceScore > p.peerConfidenceCap
  {
    var p := Policy(2, 2, 600.0, 3600.0, Scores(0.74, 0.6, 0.9, 0.1, 0.0), 0.1, 0.75, 0.5, 2.0, 0.5);
    SingleReport(p);
    hide Evaluate, CrowdLedger, PolicyFault, AdjustedScore, CanBeLive, Lifetime;
    CrowdScore(p, Some(1.0), 0, 0);
    CrowdHasNoExternal(0, 0, Some(1.0));
    var input := CrowdLedger(0, 0, Some(1.0));
    assert Evaluate(input, p).value.confidenceScore == 0.79;
  }

  lemma {:induction false} SingleReport(p: Policy)
    requires p.scoreByState.selfReported == 0.74 && p.reliabilityWeight == 0.1
    ensures AdjustedScore(p, Some(1.0), 0, 0) == 0.79
  {
    RawAtStart(p);
    hide RawCrowdConfidence;
  }
}
