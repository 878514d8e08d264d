/** What each verdict means of the entries filed: when a record is resolved, negated,
    expired, corroborated or only reported, with which score, until when, and when there
    is no verdict at all. Said of the ledger's entries, without the engine's own terms. */
module EvidenceVerdict {
  import opened Basics
  import opened Evidence
  import opened EvidenceLaws

  // --- the entries that count, and what they say ---

  ghost function Counted(input: Ledger): (A: set<Entry>)
    ensures AreTimed(A)
  {
    set e | e in input.entries && e.at.Some? && input.now.Some? && e.at.value <= input.now.value
  }

  /** In ledger order: by time, and by id at one time. */
  predicate NotAfter(a: Entry, b: Entry)
    requires a.at.Some? && b.at.Some?
  {
    a.at.value < b.at.value || (a.at.value == b.at.value && !StringBefore(b.id, a.id))
  }

  ghost predicate AreTimed(A: set<Entry>) { forall e :: e in A ==> e.at.Some? }

  ghost predicate IsFirstReport(A: set<Entry>, first: Entry)
    requires AreTimed(A)
  {
    first in A && first.kind == Report && forall e :: e in A && e.kind == Report ==> NotAfter(first, e)
  }

  predicate IsOutcome(e: Entry) { e.kind == External && e.external.Some? }

  ghost predicate IsLastOutcome(A: set<Entry>, last: Entry)
    requires AreTimed(A)
  {
    last in A && IsOutcome(last) && forall e :: e in A && IsOutcome(e) ==> NotAfter(e, last)
  }

  ghost predicate HasOutcome(A: set<Entry>) { exists e :: e in A && IsOutcome(e) }

  ghost predicate LastOutcomeIs(A: set<Entry>, outcome: Outcome)
    requires AreTimed(A)
  {
    exists e :: IsLastOutcome(A, e) && e.external == Some(outcome)
  }

  function Sightings(A: set<Entry>): set<Entry> { set e | e in A && (e.kind == Report || e.kind == Confirm) }

  function PeersGone(A: set<Entry>, first: Entry): set<Entry> {
    set e | e in A && (e.kind == Cancel || e.kind == Negate) && e.reporterKey.Some? && e.reporterKey != first.reporterKey
  }

  function NegatingKeys(A: set<Entry>, first: Entry): set<string> { set e | e in PeersGone(A, first) :: e.reporterKey.value }

  function ConfirmingKeys(A: set<Entry>, first: Entry): set<string> {
    set e | e in Sightings(A) && e != first && e.reporterKey.Some? && e.reporterKey != first.reporterKey :: e.reporterKey.value
  }

  /** The originator's own word that it is gone. */
  predicate TakesBack(e: Entry, first: Entry) {
    first.reporterKey.Some? && (e.kind == Cancel || e.kind == Negate) && e.reporterKey == first.reporterKey
  }

  ghost predicate IsRetracted(A: set<Entry>, first: Entry) { exists e :: e in A && TakesBack(e, first) }

  ghost predicate IsRetractedAt(A: set<Entry>, first: Entry, t: int) {
    (exists e :: e in A && TakesBack(e, first) && e.at == Some(t)) && forall e :: e in A && TakesBack(e, first) && e.at.Some? ==> t <= e.at.value
  }

  /** Enough peers say it is gone, and more than say it is there. */
  predicate IsOutvoted(A: set<Entry>, first: Entry, p: Policy) {
    |NegatingKeys(A, first)| >= p.peerNegationMinKeys && |NegatingKeys(A, first)| > |ConfirmingKeys(A, first)|
  }

  ghost predicate IsCalledOff(A: set<Entry>, first: Entry, p: Policy) { IsRetracted(A, first) || IsOutvoted(A, first, p) }

  // --- until when it holds ---

  ghost predicate IsLastAt(B: set<Entry>, t: int) {
    (exists e :: e in B && e.at == Some(t)) && forall e :: e in B && e.at.Some? ==> e.at.value <= t
  }

  lemma {:induction false} LatestIsLastAt(B: set<Entry>)
    requires B != {} && AreTimed(B)
    ensures IsLastAt(B, Latest(B).At())
  {
    assert Latest(B).at == Some(Latest(B).At());
  }

  ghost function LastAt(B: set<Entry>): (t: int)
    requires B != {} && AreTimed(B)
    ensures IsLastAt(B, t)
  {
    LatestIsLastAt(B);
    var t :| IsLastAt(B, t); t
  }

  function Sooner(a: real, b: real): real { if a <= b then a else b }

  /** A lifetime from a sighting on, cut at the end of the first report's. */
  function HoldsFrom(t: int, first: Entry, p: Policy): real
    requires first.at.Some?
  {
    Sooner(t as real + p.ttlSec * 1000.0, first.at.value as real + p.maxLifetimeSec * 1000.0)
  }

  /** Until when a record lives that nobody called off: negations shrink what is left after the last of them. */
  ghost function CrowdUntil(A: set<Entry>, first: Entry, p: Policy): real
    requires AreTimed(A) && first in A && first.kind == Report
  {
    assert first in Sightings(A);
    var whole := HoldsFrom(LastAt(Sightings(A)), first, p);
    if PeersGone(A, first) == {} then whole
    else
      var gone := LastAt(PeersGone(A, first)) as real;
      if whole <= gone then whole
      else Sooner(whole, gone + (whole - gone) * Pow(p.negateShrinkFactor, |NegatingKeys(A, first)|))
  }

  // --- scores ---

  /** A score held between 0 and 1. */
  predicate IsHeld(score: real, raw: real) {
    && 0.0 <= score <= 1.0
    && (0.0 <= raw <= 1.0 ==> score == raw) && (raw < 0.0 ==> score == 0.0) && (1.0 < raw ==> score == 1.0)
  }

  /** A score with what the reporter's standing adds: above one half, or takes below it. */
  predicate IsAdjusted(score: real, base: real, p: Policy, bound: Option<real>) {
    IsHeld(score, base + if bound.Some? then p.reliabilityWeight * (bound.value - 0.5) else 0.0)
  }

  /** From the base towards the cap with each confirming key, and back with each negating one. */
  function RawScore(A: set<Entry>, first: Entry, p: Policy): real {
    var (base, gap) := (p.scoreByState.selfReported, p.peerConfidenceCap - p.scoreByState.selfReported);
    base + gap * (1.0 - Pow(p.confirmDecay, |ConfirmingKeys(A, first)|))
    - p.negateAsymmetry * gap * (1.0 - Pow(p.confirmDecay, |NegatingKeys(A, first)|))
  }

  // --- the engine's summary, in these terms ---

  lemma {:induction false} FirstIsEarliest(A: set<Entry>, first: Entry)
    requires AreTimed(A) && IsFirstReport(A, first) && forall e, f :: e in A && f in A && e.id == f.id ==> e == f
    ensures Reports(A) != {} && Earliest(Reports(A)) == first
  {
    assert first in Reports(A);
    assert IsEarliest(first, Reports(A));
    EarliestIsUnique(first, Earliest(Reports(A)), Reports(A));
  }

  lemma {:induction false} LastOutcomeIsLatest(A: set<Entry>)
    requires AreTimed(A) && forall e, f :: e in A && f in A && e.id == f.id ==> e == f
    ensures Externals(A) == {} <==> !HasOutcome(A)
    ensures Externals(A) != {} ==> forall e :: IsLastOutcome(A, e) <==> e == Latest(Externals(A))
  {
    if Externals(A) != {} {
      var latest := Latest(Externals(A));
      forall e ensures IsLastOutcome(A, e) <==> e == latest {
        if IsLastOutcome(A, e) {
          assert IsLatest(e, Externals(A));
          LatestIsUnique(e, latest, Externals(A));
        }
        if e == latest {
          forall f | f in A && IsOutcome(f) ensures NotAfter(f, latest) {
            assert f in Externals(A) && NoLater(f, latest);
          }
        }
      }
    } else {
      forall e | e in A ensures !IsOutcome(e) { assert e !in Externals(A); }
    }
  }

  lemma {:induction false} PartsAgree(A: set<Entry>, first: Entry)
    ensures Positives(A) == Sightings(A) && PeerNegations(A, first.reporterKey) == PeersGone(A, first)
    ensures Keys(PeerNegations(A, first.reporterKey)) == NegatingKeys(A, first)
    ensures Keys(Confirmations(A, first)) == ConfirmingKeys(A, first)
    ensures Retractions(A, first.reporterKey) == {} <==> !IsRetracted(A, first)
    ensures PeersGone(A, first) == {} <==> |NegatingKeys(A, first)| == 0
  {
    RetractedExactly(A, first);
    if PeersGone(A, first) != {} {
      var e :| e in PeersGone(A, first);
      assert e.reporterKey.value in NegatingKeys(A, first);
    } else {
      assert NegatingKeys(A, first) == {};
    }
    KeysMatch(A, first);
  }

  lemma {:induction false} RetractedExactly(A: set<Entry>, first: Entry)
    ensures Retractions(A, first.reporterKey) == {} <==> !IsRetracted(A, first)
  {
    if Retractions(A, first.reporterKey) != {} {
      var e :| e in Retractions(A, first.reporterKey);
      assert e in A && TakesBack(e, first);
    }
    if IsRetracted(A, first) {
      var e :| e in A && TakesBack(e, first);
      assert e in Retractions(A, first.reporterKey);
    }
  }

  lemma {:induction false} KeysMatch(A: set<Entry>, first: Entry)
    ensures Keys(Confirmations(A, first)) == ConfirmingKeys(A, first)
  {
    forall k | k in Keys(Confirmations(A, first)) ensures k in ConfirmingKeys(A, first) {
      var e :| e in Confirmations(A, first) && e.reporterKey == Some(k);
      assert e in Sightings(A);
    }
    forall k | k in ConfirmingKeys(A, first) ensures k in Keys(Confirmations(A, first)) {
      var e :| e in Sightings(A) && e != first && e.reporterKey == Some(k) && e.reporterKey != first.reporterKey;
      assert e in Confirmations(A, first);
    }
  }

  lemma {:induction false} LastAtIsLatest(B: set<Entry>)
    requires B != {} && AreTimed(B)
    ensures LastAt(B) == Latest(B).At()
  {
    LatestIsLastAt(B);
  }

  /** What the engine's summary holds of the crowd is what the entries say. */
  ghost predicate Says(A: set<Entry>, first: Entry, s: Summary)
    requires AreTimed(A) && first in A && first.kind == Report
  {
    && s.firstReportAt == first.at.value
    && Sightings(A) != {} && s.lastPositiveAt == LastAt(Sightings(A))
    && s.confirmers == |ConfirmingKeys(A, first)| && s.negators == |NegatingKeys(A, first)|
    && (s.retractionAt.Some? <==> IsRetracted(A, first))
    && (s.retractionAt.Some? ==> IsRetractedAt(A, first, s.retractionAt.value))
    && s.lastPeerNegateAt == (if PeersGone(A, first) == {} then None else Some(LastAt(PeersGone(A, first))))
    && (PeersGone(A, first) == {} <==> s.negators == 0)
  }

  /** And of outcomes. */
  ghost predicate SaysLast(A: set<Entry>, s: Summary)
    requires AreTimed(A)
  {
    if s.lastExternal.None? then !HasOutcome(A)
    else
      && HasOutcome(A) && (exists e :: IsLastOutcome(A, e))
      && forall e :: IsLastOutcome(A, e) ==> s.lastExternal.value == (e.at.value, e.external.value)
  }

  lemma {:induction false} SummaryFields(A: set<Entry>, first: Entry)
    requires Reports(A) != {} && Earliest(Reports(A)) == first
    ensures var (s, peer, ext) := (Summarise(A), PeerNegations(A, first.reporterKey), Externals(A));
      && s.firstReportAt == first.At() && Positives(A) != {} && s.lastPositiveAt == Latest(Positives(A)).At()
      && s.confirmers == |Keys(Confirmations(A, first))| && s.negators == |Keys(peer)|
      && s.retractionAt == (if Retractions(A, first.reporterKey) == {} then None else Some(Earliest(Retractions(A, first.reporterKey)).At()))
      && s.lastPeerNegateAt == (if peer == {} then None else Some(Latest(peer).At()))
      && (s.lastExternal.None? <==> ext == {})
      && (ext != {} ==> s.lastExternal == Some((Latest(ext).At(), Latest(ext).external.value)))
  {
    assert first in Positives(A);
    hide Reports, Confirmations, PeerNegations, Retractions, Keys, Positives;
  }

  lemma {:induction false} RetractedFirst(A: set<Entry>, first: Entry)
    requires AreTimed(A)
    ensures var own := Retractions(A, first.reporterKey); own != {} ==> IsRetractedAt(A, first, Earliest(own).At())
  {
    var own := Retractions(A, first.reporterKey);
    if own != {} {
      var e := Earliest(own);
      assert e in own && e.at == Some(e.At()) && TakesBack(e, first);
      forall f | f in A && TakesBack(f, first) && f.at.Some? ensures e.At() <= f.at.value {
        assert f in own && NoLater(e, f);
      }
    }
  }

  lemma {:induction false} CrowdSays(A: set<Entry>, first: Entry)
    requires AreTimed(A) && first in A && first.kind == Report && Reports(A) != {} && Earliest(Reports(A)) == first
    ensures Says(A, first, Summarise(A))
  {
    PartsAgree(A, first);
    SummaryFields(A, first);
    TimedParts(A, first);
    RetractedFirst(A, first);
    hide Reports, Sightings, PeersGone, Externals, Positives, PeerNegations, Confirmations, Retractions, Keys, ConfirmingKeys, NegatingKeys,
      IsRetracted, IsRetractedAt, IsEarliest, IsLatest, AreTimed, Summarise, IsLastAt;
    LastAtIsLatest(Sightings(A));
    if PeersGone(A, first) != {} { LastAtIsLatest(PeersGone(A, first)); }
  }

  lemma {:induction false} OutcomeSays(A: set<Entry>, first: Entry)
    requires AreTimed(A) && Reports(A) != {} && Earliest(Reports(A)) == first
    requires forall e, f :: e in A && f in A && e.id == f.id ==> e == f
    ensures SaysLast(A, Summarise(A))
  {
    LastOutcomeIsLatest(A);
    SummaryFields(A, first);
    OutcomesAre(A);
    hide Reports, Summarise, Positives, PeerNegations, Confirmations, Retractions, Keys, IsLastOutcome, HasOutcome, IsEarliest, IsLatest;
    if Externals(A) != {} {
      assert IsLastOutcome(A, Latest(Externals(A)));
    }
  }

  lemma {:induction false} SummarySays(A: set<Entry>, first: Entry)
    requires AreTimed(A) && IsFirstReport(A, first) && forall e, f :: e in A && f in A && e.id == f.id ==> e == f
    ensures Reports(A) != {} && Says(A, first, Summarise(A)) && SaysLast(A, Summarise(A))
  {
    FirstIsEarliest(A, first);
    CrowdSays(A, first);
    OutcomeSays(A, first);
  }

  lemma {:induction false} TimedParts(A: set<Entry>, first: Entry)
    requires AreTimed(A)
    ensures AreTimed(Sightings(A)) && AreTimed(PeersGone(A, first))
    ensures first in A ==> first.at == Some(first.At())
  {
  }

  lemma {:induction false} OutcomesAre(A: set<Entry>)
    requires AreTimed(A)
    ensures forall e :: e in Externals(A) ==> e.at == Some(e.At()) && e.external.Some?
  {
  }

  // --- the verdict ---

  lemma {:induction false} CountedIsAdmitted(input: Ledger)
    ensures Counted(input) == Admitted(input)
    ensures forall e :: e in Counted(input) ==> input.now.Some? && e.at.value <= input.now.value
  {
  }

  lemma {:induction false} HeldExactly(raw: real)
    ensures IsHeld(Clamp01(raw), raw)
  {
  }

  ghost predicate IsCrowd(state: State) { state == SelfReported || state == Corroborated }

  lemma {:induction false} DeadlineSays(A: set<Entry>, first: Entry, s: Summary, p: Policy)
    requires AreTimed(A) && first in A && first.kind == Report && Says(A, first, s)
    requires s.lastExternal.None? && s.retractionAt.None? && !PeersNegate(s, p)
    ensures Deadline(s, p) == CrowdUntil(A, first, p)
  {
    hide Sightings, PeersGone, NegatingKeys, ConfirmingKeys, IsRetracted, AreTimed, Pow, IsLastAt;
  }

  lemma {:induction false} NegatedSays(A: set<Entry>, first: Entry, s: Summary, p: Policy)
    requires AreTimed(A) && first in A && first.kind == Report && Says(A, first, s)
    ensures s.retractionAt.Some? || PeersNegate(s, p) <==> IsCalledOff(A, first, p)
  {
    hide Sightings, PeersGone, NegatingKeys, ConfirmingKeys, IsRetracted, AreTimed, IsLastAt;
  }

  /** What state a conclusion reaches, in terms of the entries. */
  ghost predicate StateIs(A: set<Entry>, first: Entry, p: Policy, now: int, state: State)
    requires AreTimed(A) && first in A && first.kind == Report
  {
    var crowd := !HasOutcome(A) && !IsCalledOff(A, first, p) && (now as real) < CrowdUntil(A, first, p);
    && (state == ExternallyResolved
        <==> exists e :: IsLastOutcome(A, e) && e.external == Some(Confirmed) && (now as real) < HoldsFrom(e.at.value, first, p))
    && (state == Negated <==> LastOutcomeIs(A, Rejected) || (!HasOutcome(A) && IsCalledOff(A, first, p)))
    && (state == Corroborated <==> crowd && 1 + |ConfirmingKeys(A, first)| >= p.corroborationMinDistinctKeys)
    && (state == SelfReported <==> crowd && 1 + |ConfirmingKeys(A, first)| < p.corroborationMinDistinctKeys)
  }

  lemma {:induction false} StateSays(A: set<Entry>, first: Entry, s: Summary, p: Policy, now: int)
    requires AreTimed(A) && first in A && first.kind == Report && Says(A, first, s) && SaysLast(A, s)
    ensures StateIs(A, first, p, now, StateAt(s, p, now))
  {
    NegatedSays(A, first, s, p);
    if s.lastExternal.Some? {
      var e :| IsLastOutcome(A, e);
      hide PeersGone, NegatingKeys, ConfirmingKeys, IsRetracted, AreTimed, IsLastAt, IsCalledOff, IsLastOutcome, CrowdUntil, PeersNegate;
    } else {
      if s.retractionAt.None? && !PeersNegate(s, p) {
        DeadlineSays(A, first, s, p);
      }
      NoLastOutcome(A);
      hide PeersGone, NegatingKeys, ConfirmingKeys, IsRetracted, AreTimed, IsLastAt, IsCalledOff, IsLastOutcome, CrowdUntil, PeersNegate;
    }
  }

  lemma {:induction false} NoLastOutcome(A: set<Entry>)
    requires AreTimed(A) && !HasOutcome(A)
    ensures forall e :: !IsLastOutcome(A, e)
  {
  }

  /** What the score of a state starts from. */
  function BaseOf(A: set<Entry>, first: Entry, p: Policy, state: State): real {
    match state
    case ExternallyResolved => p.scoreByState.externallyResolved
    case Negated => p.scoreByState.negated
    case Expired => p.scoreByState.expired
    case _ => var raw := RawScore(A, first, p); if raw < 0.0 then 0.0 else if 1.0 < raw then 1.0 else raw
  }

  lemma {:induction false} RawSays(A: set<Entry>, first: Entry, s: Summary, p: Policy)
    requires s.confirmers == |ConfirmingKeys(A, first)| && s.negators == |NegatingKeys(A, first)|
    ensures RawCrowdConfidence(p, s.confirmers, s.negators) == RawScore(A, first, p)
  {
    hide ConfirmingKeys, NegatingKeys, Pow;
  }

  lemma {:induction false} ScoreSays(A: set<Entry>, first: Entry, s: Summary, p: Policy, now: int, bound: Option<real>)
    requires AreTimed(A) && first in A && first.kind == Report && Says(A, first, s)
    requires Conclude(s, now, bound, p).Ok?
    ensures var v := Conclude(s, now, bound, p).value;
      IsAdjusted(v.confidenceScore, BaseOf(A, first, p, v.state), p, bound)
  {
    var v := Conclude(s, now, bound, p).value;
    HeldExactly(BaseScore(s, p, v.state) + Adjustment(bound, p));
    RawSays(A, first, s, p);
    hide Sightings, PeersGone, NegatingKeys, ConfirmingKeys, IsRetracted, AreTimed, IsLastAt, StateAt, Deadline, RawCrowdConfidence, RawScore;
  }

  /** Every verdict, said of the entries that count and their first report: which state it
      gives, that routing goes by external resolution alone, and the score. A record is
      resolved exactly while the last external outcome confirms it and its lifetime lasts;
      negated exactly if that outcome rejects it or, without one, if its originator took it
      back or enough peers, and more than confirm it, say it is gone; live on the crowd's
      word until its deadline; and expired otherwise. */
  lemma {:induction false} VerdictMeans(input: Ledger, p: Policy, first: Entry)
    requires Evaluate(input, p).Ok?
    requires IsFirstReport(Counted(input), first)
    ensures input.now.Some?
    ensures var (A, v) := (Counted(input), Evaluate(input, p).value);
      && StateIs(A, first, p, input.now.value, v.state)
      && (v.routingEligible <==> v.state == ExternallyResolved)
      && IsAdjusted(v.confidenceScore, BaseOf(A, first, p, v.state), p, input.reporterLowerBound)
  {
    CountedIsAdmitted(input);
    ConcludesFrom(input, p);
    var A := Counted(input);
    assert first in A;
    SummarySays(A, first);
    hide Counted, Admitted, Evaluate, Summarise, Says, SaysLast, StateIs, IsAdjusted, BaseOf, AreTimed, IsFirstReport, Reports;
    StateSays(A, first, Summarise(A), p, input.now.value);
    ScoreSays(A, first, Summarise(A), p, input.now.value, input.reporterLowerBound);
    hide StateAt, Deadline, BaseScore, Adjustment, Clamp01;
  }

  /** When a record ends: a resolved one with its lifetime, a rejected one with the rejection,
      a retracted one with the first retraction, one voted down with the last negation, and
      any other at the crowd's deadline. */
  ghost predicate EndsAt(A: set<Entry>, first: Entry, p: Policy, end: real)
    requires AreTimed(A) && first in A && first.kind == Report
  {
    && (forall e :: IsLastOutcome(A, e) ==>
          end == if e.external == Some(Confirmed) then HoldsFrom(e.at.value, first, p) else e.at.value as real)
    && (!HasOutcome(A) && IsRetracted(A, first) ==> exists t :: IsRetractedAt(A, first, t) && end == t as real)
    && (!HasOutcome(A) && !IsRetracted(A, first) && IsOutvoted(A, first, p) ==>
          PeersGone(A, first) != {} && end == LastAt(PeersGone(A, first)) as real)
    && (!HasOutcome(A) && !IsCalledOff(A, first, p) ==> end == CrowdUntil(A, first, p))
  }

  /** An instant written in whole milliseconds, the rest dropped towards zero. */
  predicate IsWrittenAs(end: real, at: int) {
    if 0.0 <= end then at as real <= end < at as real + 1.0 else end <= at as real < end + 1.0
  }

  lemma {:induction false} TruncatedIsWritten(end: real)
    ensures IsWrittenAs(end, Truncated(end))
  {
  }

  lemma {:induction false} EndSays(A: set<Entry>, first: Entry, s: Summary, p: Policy)
    requires AreTimed(A) && first in A && first.kind == Report && Says(A, first, s) && SaysLast(A, s)
    ensures EndsAt(A, first, p, Deadline(s, p))
  {
    NegatedSays(A, first, s, p);
    if s.lastExternal.None? {
      NoLastOutcome(A);
      if s.retractionAt.None? && !PeersNegate(s, p) {
        DeadlineSays(A, first, s, p);
      }
      hide NegatingKeys, ConfirmingKeys, Sightings, PeersGone, IsRetracted, IsRetractedAt, AreTimed, IsLastAt, IsLastOutcome, CrowdUntil;
    } else {
      hide NegatingKeys, ConfirmingKeys, Sightings, PeersGone, IsRetracted, IsRetractedAt, AreTimed, IsLastAt, IsLastOutcome, CrowdUntil,
        IsCalledOff, IsOutvoted;
    }
  }

  /** The expiry of every verdict, which a date can hold. */
  lemma {:induction false} ExpiryMeans(input: Ledger, p: Policy, first: Entry)
    requires Evaluate(input, p).Ok? && IsFirstReport(Counted(input), first)
    ensures exists end: real ::
      && EndsAt(Counted(input), first, p, end) && IsWrittenAs(end, Evaluate(input, p).value.expiresAt)
      && -8_640_000_000_000_000.0 <= end <= 8_640_000_000_000_000.0
  {
    CountedIsAdmitted(input);
    ConcludesFrom(input, p);
    var A := Counted(input);
    SummarySays(A, first);
    var s := Summarise(A);
    EndSays(A, first, s, p);
    TruncatedIsWritten(Deadline(s, p));
    hide Counted, Admitted, Evaluate, Summarise, Says, SaysLast, EndsAt, AreTimed, IsFirstReport, Reports, Deadline, StateAt, BaseScore;
    var end := Deadline(s, p);
    assert EndsAt(Counted(input), first, p, end);
  }

  // --- resolution outranks the crowd ---

  /** At one lower bound a resolved record never scores below a live one of the crowd whose
      score, before the reporter's standing, is under the cap. */
  lemma {:induction false} ResolvedOutscores(one: Ledger, other: Ledger, p: Policy, first: Entry, first': Entry)
    requires Evaluate(one, p).Ok? && Evaluate(other, p).Ok? && one.reporterLowerBound == other.reporterLowerBound
    requires IsFirstReport(Counted(one), first) && IsFirstReport(Counted(other), first')
    requires Evaluate(one, p).value.state == ExternallyResolved && IsCrowd(Evaluate(other, p).value.state)
    requires RawScore(Counted(other), first', p) < p.peerConfidenceCap
    ensures Evaluate(other, p).value.confidenceScore <= Evaluate(one, p).value.confidenceScore
  {
    hide *;
    CapBelowResolved(one, p);
    VerdictMeans(one, p, first);
    VerdictMeans(other, p, first');
    ResolvedBase(Counted(one), first, Counted(other), first', p, Evaluate(other, p).value.state);
    AdjustedOrder(Evaluate(other, p).value.confidenceScore, BaseOf(Counted(other), first', p, Evaluate(other, p).value.state),
                  Evaluate(one, p).value.confidenceScore, BaseOf(Counted(one), first, p, ExternallyResolved), p, one.reporterLowerBound);
  }

  lemma {:induction false} CapBelowResolved(input: Ledger, p: Policy)
    requires Evaluate(input, p).Ok?
    ensures 0.0 < p.peerConfidenceCap < p.scoreByState.externallyResolved
  {
    hide Verdicts;
  }

  lemma {:induction false} ResolvedBase(A: set<Entry>, first: Entry, B: set<Entry>, first': Entry, p: Policy, state: State)
    requires IsCrowd(state) && RawScore(B, first', p) < p.peerConfidenceCap && 0.0 < p.peerConfidenceCap < p.scoreByState.externallyResolved
    ensures BaseOf(B, first', p, state) <= BaseOf(A, first, p, ExternallyResolved)
  {
    hide RawScore;
  }

  lemma {:induction false} AdjustedOrder(s: real, base: real, s': real, base': real, p: Policy, bound: Option<real>)
    requires IsAdjusted(s, base, p, bound) && IsAdjusted(s', base', p, bound) && base <= base'
    ensures s <= s'
  {
  }

  // --- when there is no verdict ---

  predicate Counts(e: Entry, now: Option<int>) { e.at.Some? && now.Some? && e.at.value <= now.value }

  /** Two entries of a list that count share an id. */
  ghost predicate RepeatsAnId(entries: seq<Entry>, now: Option<int>) {
    exists i, j :: 0 <= i < j < |entries| && Counts(entries[i], now) && Counts(entries[j], now) && entries[i].id == entries[j].id
  }

  lemma {:induction false} RepeatsNext(e: Entry, rest: seq<Entry>, now: Option<int>)
    ensures RepeatsAnId([e] + rest, now)
       <==> RepeatsAnId(rest, now) || (Counts(e, now) && exists f :: f in rest && Counts(f, now) && f.id == e.id)
  {
    var all := [e] + rest;
    if RepeatsAnId(all, now) {
      var i, j :| 0 <= i < j < |all| && Counts(all[i], now) && Counts(all[j], now) && all[i].id == all[j].id;
      if i == 0 { assert rest[j - 1] in rest; } else { assert rest[i - 1] == all[i] && rest[j - 1] == all[j]; }
    }
    if RepeatsAnId(rest, now) {
      var i, j :| 0 <= i < j < |rest| && Counts(rest[i], now) && Counts(rest[j], now) && rest[i].id == rest[j].id;
      assert all[i + 1] == rest[i] && all[j + 1] == rest[j];
    }
    if f :| Counts(e, now) && f in rest && Counts(f, now) && f.id == e.id {
      var j :| 0 <= j < |rest| && rest[j] == f;
      assert all[0] == e && all[j + 1] == f;
    }
  }

  lemma {:induction false} AdmittedRepeats(entries: seq<Entry>, now: Option<int>)
    ensures RepeatsAnId(Admit(entries, now), now) <==> RepeatsAnId(entries, now)
  {
    if entries != [] {
      var (e, rest) := (entries[0], entries[1..]);
      assert entries == [e] + rest;
      AdmittedRepeats(rest, now);
      AdmitIsSubset(rest, now);
      RepeatsNext(e, rest, now);
      RepeatsNext(e, Admit(rest, now), now);
      assert Admit(entries, now) == if Admissible(e, now) then [e] + Admit(rest, now) else Admit(rest, now);
      hide Admit, RepeatsAnId;
    }
  }

  lemma {:induction false} DistinctExactly(entries: seq<Entry>, now: Option<int>)
    ensures DistinctIds(multiset(Admit(entries, now))) <==> !RepeatsAnId(entries, now)
  {
    var s := Admit(entries, now);
    AdmittedRepeats(entries, now);
    AdmitIsSubset(entries, now);
    forall i | 0 <= i < |s| ensures Counts(s[i], now) { assert s[i] in s; }
    hide Admit, DistinctIds;
    if RepeatsAnId(s, now) {
      var i, j :| 0 <= i < j < |s| && Counts(s[i], now) && Counts(s[j], now) && s[i].id == s[j].id;
      RepeatedId(s, i, j);
    } else {
      CountsOfDistinct(s);
    }
  }

  predicate BoundStands(bound: Option<real>) { bound.Some? ==> 0.0 <= bound.value <= 1.0 }

  predicate CapStands(p: Policy) { 0.0 < p.peerConfidenceCap < p.scoreByState.externallyResolved }

  /** What the engine checks of a ledger's lower bound and its policy, in order. */
  predicate PolicyStands(bound: Option<real>, p: Policy) {
    && BoundStands(bound) && CapStands(p)
    && 0.0 < p.confirmDecay < 1.0 && 0.0 <= p.negateAsymmetry && 0.0 <= p.negateShrinkFactor <= 1.0
  }

  /** When there is no verdict, and for which of its reasons: a lower bound or policy out of
      range, a repeated id, no report, or an expiry no date can hold, the first that applies. */
  lemma {:induction false} ErrorsMean(input: Ledger, p: Policy)
    ensures var (r, bound) := (Evaluate(input, p), input.reporterLowerBound);
      && (r == Err(BadLowerBound) <==> !BoundStands(bound))
      && (r == Err(BadCap) <==> BoundStands(bound) && !CapStands(p))
      && (r == Err(BadDecay) <==> BoundStands(bound) && CapStands(p) && !(0.0 < p.confirmDecay < 1.0))
      && (r == Err(BadAsymmetry) <==> BoundStands(bound) && CapStands(p) && 0.0 < p.confirmDecay < 1.0 && p.negateAsymmetry < 0.0)
      && (r.Ok? || r == Err(DuplicateId) || r == Err(NoReport) || r == Err(UnwritableInstant) <==> PolicyStands(bound, p))
      && (r == Err(DuplicateId) <==> PolicyStands(bound, p) && RepeatsAnId(input.entries, input.now))
      && (r == Err(NoReport) <==>
            PolicyStands(bound, p) && !RepeatsAnId(input.entries, input.now) && forall e :: e in Counted(input) ==> e.kind != Report)
  {
    FaultMeans(input.reporterLowerBound, p);
    LedgerErrorsMean(input, p);
    Evaluated(input, p);
    hide PolicyFault, PolicyStands, BoundStands, CapStands, RepeatsAnId, Counted, Evaluate, Verdicts, Admit;
  }

  lemma {:induction false} Evaluated(input: Ledger, p: Policy)
    ensures var (fault, bound) := (PolicyFault(input.reporterLowerBound, p), input.reporterLowerBound);
      Evaluate(input, p) == if fault.Some? then Err(fault.value)
        else Verdicts(multiset(Admit(input.entries, input.now)), input.now.GetOr(0), bound, p)
  {
    hide PolicyFault, Verdicts, Admit;
  }

  lemma {:induction false} FaultMeans(bound: Option<real>, p: Policy)
    ensures var fault := PolicyFault(bound, p);
      && (fault == Some(BadLowerBound) <==> !BoundStands(bound))
      && (fault == Some(BadCap) <==> BoundStands(bound) && !CapStands(p))
      && (fault == Some(BadDecay) <==> BoundStands(bound) && CapStands(p) && !(0.0 < p.confirmDecay < 1.0))
      && (fault == Some(BadAsymmetry) <==> BoundStands(bound) && CapStands(p) && 0.0 < p.confirmDecay < 1.0 && p.negateAsymmetry < 0.0)
      && (fault.None? <==> PolicyStands(bound, p))
      && fault != Some(DuplicateId) && fault != Some(NoReport) && fault != Some(UnwritableInstant)
  {
  }

  lemma {:induction false} BagIsCounted(input: Ledger)
    ensures var bag := multiset(Admit(input.entries, input.now)); forall e :: e in bag <==> e in Counted(input)
  {
    AdmitIsSubset(input.entries, input.now);
    forall e ensures e in multiset(Admit(input.entries, input.now)) <==> e in Counted(input) {
      assert e in multiset(Admit(input.entries, input.now)) <==> e in Admit(input.entries, input.now);
    }
  }

  lemma {:induction false} VerdictsOf(bag: multiset<Entry>, A: set<Entry>, now: int, bound: Option<real>, p: Policy)
    requires forall e :: e in bag <==> e in A
    ensures Verdicts(bag, now, bound, p)
         == if !DistinctIds(bag) then Err(DuplicateId) else if Reports(A) == {} then Err(NoReport) else Conclude(Summarise(A), now, bound, p)
  {
    assert (set e | e in bag) == A;
    hide DistinctIds, Reports, Conclude, Summarise;
  }

  lemma {:induction false} LedgerErrorsMean(input: Ledger, p: Policy)
    ensures var r := Verdicts(multiset(Admit(input.entries, input.now)), input.now.GetOr(0), input.reporterLowerBound, p);
      && (r.Ok? || r == Err(DuplicateId) || r == Err(NoReport) || r == Err(UnwritableInstant))
      && (r == Err(DuplicateId) <==> RepeatsAnId(input.entries, input.now))
      && (r == Err(NoReport) <==> !RepeatsAnId(input.entries, input.now) && forall e :: e in Counted(input) ==> e.kind != Report)
  {
    hide Admit, DistinctIds, RepeatsAnId, Summarise, Reports, Counted, Conclude;
    DistinctExactly(input.entries, input.now);
    BagIsCounted(input);
    var bag := multiset(Admit(input.entries, input.now));
    var A := Counted(input);
    VerdictsOf(bag, A, input.now.GetOr(0), input.reporterLowerBound, p);
    NoReportExactly(A);
    if Reports(A) != {} { ConcludeFails(Summarise(A), input.now.GetOr(0), input.reporterLowerBound, p); }
  }

  lemma {:induction false} NoReportExactly(A: set<Entry>)
    ensures Reports(A) == {} <==> forall e :: e in A ==> e.kind != Report
  {
    if forall e :: e in A ==> e.kind != Report {
      assert Reports(A) == {};
    } else {
      var e :| e in A && e.kind == Report;
      assert e in Reports(A);
    }
  }

  lemma {:induction false} ConcludeFails(s: Summary, now: int, bound: Option<real>, p: Policy)
    ensures var r := Conclude(s, now, bound, p); r.Ok? || r == Err(UnwritableInstant)
  {
    hide StateAt, Deadline, BaseScore, Adjustment;
  }

  /** And an expiry is refused only for being one no date can hold. */
  lemma {:induction false} UnwritableMeans(input: Ledger, p: Policy, first: Entry)
    requires Evaluate(input, p) == Err(UnwritableInstant) && IsFirstReport(Counted(input), first)
    ensures exists end: real :: EndsAt(Counted(input), first, p, end) && !(-8_640_000_000_000_000.0 <= end <= 8_640_000_000_000_000.0)
  {
    var A := Counted(input);
    ConcludedUnwritable(input, p);
    hide Evaluate, IsFirstReport, EndsAt, Counted, Reports, Summarise, Deadline, Says, SaysLast;
    SummarySays(A, first);
    EndSays(A, first, Summarise(A), p);
  }

  lemma {:induction false} ConcludedUnwritable(input: Ledger, p: Policy)
    requires Evaluate(input, p) == Err(UnwritableInstant)
    ensures var A := Counted(input);
      && Reports(A) != {} && !(-8_640_000_000_000_000.0 <= Deadline(Summarise(A), p) <= 8_640_000_000_000_000.0)
      && forall e, f :: e in A && f in A && e.id == f.id ==> e == f
  {
    var (bag, A) := (multiset(Admit(input.entries, input.now)), Counted(input));
    FaultMeans(input.reporterLowerBound, p);
    Evaluated(input, p);
    BagIsCounted(input);
    VerdictsOf(bag, A, input.now.GetOr(0), input.reporterLowerBound, p);
    hide *;
    assert DistinctIds(bag) && Reports(A) != {};
    DistinctOf(bag, A);
    ConcludeUnwritable(Summarise(A), input.now.GetOr(0), input.reporterLowerBound, p);
  }

  lemma {:induction false} DistinctOf(bag: multiset<Entry>, A: set<Entry>)
    requires DistinctIds(bag) && forall e :: e in bag <==> e in A
    ensures forall e, f :: e in A && f in A && e.id == f.id ==> e == f
  {
  }

  lemma {:induction false} ConcludeUnwritable(s: Summary, now: int, bound: Option<real>, p: Policy)
    requires Conclude(s, now, bound, p) == Err(UnwritableInstant)
    ensures !(-8_640_000_000_000_000.0 <= Deadline(s, p) <= 8_640_000_000_000_000.0)
  {
    hide StateAt, Deadline, BaseScore, Adjustment;
  }
}
