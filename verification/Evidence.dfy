/** The crowd evidence engine: an append-only ledger of reports, confirmations,
    negations, cancels and external resolutions replayed into a state, a score,
    a routing flag and an expiry. `Evaluate` says what the result is in terms of
    the collection of admissible entries alone; `EvaluateEvidence` is the sorted
    replay, proved to compute it. Instants are milliseconds, `None` for a text no
    date can be read from; scores and spans are reals. */
module Evidence {
  import opened Basics

  datatype Kind = Report | Confirm | Negate | Cancel | External
  datatype Outcome = Confirmed | Rejected
  datatype State = SelfReported | Corroborated | ExternallyResolved | Negated | Expired

  datatype Entry = Entry(
    id: string,
    at: Option<int>,
    kind: Kind,
    reporterKey: Option<string>,
    external: Option<Outcome>)
  {
    function At(): int { at.GetOr(0) }
  }

  datatype Ledger = Ledger(entries: seq<Entry>, now: Option<int>, reporterLowerBound: Option<real>)

  datatype Scores = Scores(
    selfReported: real, corroborated: real, externallyResolved: real, negated: real, expired: real)

  datatype Policy = Policy(
    corroborationMinDistinctKeys: int,
    peerNegationMinKeys: int,
    ttlSec: real,
    maxLifetimeSec: real,
    scoreByState: Scores,
    reliabilityWeight: real,
    peerConfidenceCap: real,
    confirmDecay: real,
    negateAsymmetry: real,
    negateShrinkFactor: real)

  datatype Verdict = Verdict(state: State, confidenceScore: real, routingEligible: bool, expiresAt: int)

  datatype Error = BadLowerBound | BadCap | BadDecay | BadAsymmetry | BadShrinkFactor
                 | DuplicateId | NoReport | UnwritableInstant

  // --- arithmetic of scores and lifetimes ---

  function Clamp01(v: real): real {
    if v < 0.0 then 0.0 else if 1.0 < v then 1.0 else v
  }

  function Min(a: real, b: real): real { if a <= b then a else b }

  /** The crowd score before clamping, `x` and `y` being what confirmations and
      negations left of their gaps. */
  function Blend(base: real, gap: real, asymmetry: real, x: real, y: real): real {
    base + gap * (1.0 - x) - asymmetry * gap * (1.0 - y)
  }

  function RawCrowdConfidence(p: Policy, confirmers: nat, negators: nat): real {
    Blend(p.scoreByState.selfReported, p.peerConfidenceCap - p.scoreByState.selfReported, p.negateAsymmetry,
          Pow(p.confirmDecay, confirmers), Pow(p.confirmDecay, negators))
  }

  function CrowdConfidence(p: Policy, confirmers: nat, negators: nat): real {
    Clamp01(RawCrowdConfidence(p, confirmers, negators))
  }

  function ShrinkExpiry(expiry: real, negateAt: real, negators: nat, factor: real): real {
    if negators == 0 || expiry - negateAt <= 0.0 then expiry
    else Min(expiry, negateAt + (expiry - negateAt) * Pow(factor, negators))
  }

  /** A time value as a date holds it: the fraction dropped, towards zero. */
  function Truncated(ms: real): int {
    if 0.0 <= ms then ms.Floor else -((-ms).Floor)
  }

  /** The largest distance from the epoch a date can hold. */
  const MAX_TIME := 8_640_000_000_000_000.0

  // --- the order of entries ---

  predicate Before(a: Entry, b: Entry) {
    a.At() < b.At() || (a.At() == b.At() && StringBefore(a.id, b.id))
  }

  predicate NoLater(a: Entry, b: Entry) { !Before(b, a) }

  lemma {:induction false} BeforeIsStrictOrder(a: Entry, b: Entry)
    ensures !(Before(a, b) && Before(b, a))
    ensures Before(a, b) || Before(b, a) || (a.At() == b.At() && a.id == b.id)
  {
    StringOrderIsTotal(a.id, b.id);
  }

  lemma {:induction false} BeforeIsTransitive(a: Entry, b: Entry, c: Entry)
    ensures Before(a, b) && Before(b, c) ==> Before(a, c)
    ensures NoLater(a, b) && NoLater(b, c) ==> NoLater(a, c)
  {
    if Before(a, b) && Before(b, c) && a.At() == c.At() {
      StringOrderIsTransitive(a.id, b.id, c.id);
    }
    if NoLater(a, b) && NoLater(b, c) && Before(c, a) {
      BeforeIsStrictOrder(a, b);
      BeforeIsStrictOrder(b, c);
      if a.At() == c.At() && a.id != b.id && b.id != c.id {
        StringOrderIsTransitive(a.id, b.id, c.id);
        StringOrderIsTotal(a.id, c.id);
      }
    }
  }

  lemma {:induction false} NoLaterIsPreorder()
    ensures TotalPreorder(NoLater)
  {
    forall a, b ensures NoLater(a, b) || NoLater(b, a) { BeforeIsStrictOrder(a, b); }
    forall a, b, c | NoLater(a, b) && NoLater(b, c) ensures NoLater(a, c) { BeforeIsTransitive(a, b, c); }
  }

  // --- the reference meaning, in terms of the admissible entries only ---

  predicate Admissible(e: Entry, now: Option<int>) {
    e.at.Some? && now.Some? && e.at.value <= now.value
  }

  function Admit(entries: seq<Entry>, now: Option<int>): seq<Entry> {
    if entries == [] then []
    else (if Admissible(entries[0], now) then [entries[0]] else []) + Admit(entries[1..], now)
  }

  ghost predicate DistinctIds(bag: multiset<Entry>) {
    && (forall e :: e in bag ==> bag[e] == 1)
    && (forall e, f :: e in bag && f in bag && e.id == f.id ==> e == f)
  }

  function Reports(A: set<Entry>): set<Entry> { set e | e in A && e.kind.Report? }

  function Positives(A: set<Entry>): set<Entry> { set e | e in A && (e.kind.Report? || e.kind.Confirm?) }

  function Externals(A: set<Entry>): set<Entry> { set e | e in A && e.kind.External? && e.external.Some? }

  predicate IsAllClear(e: Entry) { e.kind.Cancel? || e.kind.Negate? }

  predicate Own(e: Entry, origin: Option<string>) { origin.Some? && e.reporterKey == origin }

  function Retractions(A: set<Entry>, origin: Option<string>): set<Entry> {
    set e | e in A && IsAllClear(e) && Own(e, origin)
  }

  function PeerNegations(A: set<Entry>, origin: Option<string>): set<Entry> {
    set e | e in A && IsAllClear(e) && !Own(e, origin) && e.reporterKey.Some?
  }

  function Confirmations(A: set<Entry>, first: Entry): set<Entry> {
    set e | e in A && (e.kind.Confirm? || (e.kind.Report? && e != first))
            && e.reporterKey.Some? && e.reporterKey != first.reporterKey
  }

  function Keys(B: set<Entry>): set<string> {
    set e | e in B && e.reporterKey.Some? :: e.reporterKey.value
  }

  ghost predicate IsEarliest(e: Entry, B: set<Entry>) { e in B && forall f :: f in B ==> NoLater(e, f) }
  ghost predicate IsLatest(e: Entry, B: set<Entry>) { e in B && forall f :: f in B ==> NoLater(f, e) }

  lemma {:induction false} ExtremesExist(B: set<Entry>)
    requires B != {}
    ensures exists e :: IsEarliest(e, B)
    ensures exists e :: IsLatest(e, B)
  {
    var x :| x in B;
    var rest := B - {x};
    BeforeIsStrictOrder(x, x);
    if rest == {} {
      assert B == {x};
      assert IsEarliest(x, B) && IsLatest(x, B);
    } else {
      ExtremesExist(rest);
      var lo :| IsEarliest(lo, rest);
      var hi :| IsLatest(hi, rest);
      BeforeIsStrictOrder(x, lo);
      BeforeIsStrictOrder(x, hi);
      var low, high := if NoLater(lo, x) then lo else x, if NoLater(x, hi) then hi else x;
      forall f | f in B ensures NoLater(low, f) && NoLater(f, high) {
        if f != x {
          assert f in rest;
          BeforeIsTransitive(x, lo, f);
          BeforeIsTransitive(f, hi, x);
        }
      }
      assert IsEarliest(low, B) && IsLatest(high, B);
    }
  }

  ghost function Earliest(B: set<Entry>): (e: Entry)
    requires B != {}
    ensures IsEarliest(e, B)
  {
    ExtremesExist(B);
    var e :| IsEarliest(e, B); e
  }

  ghost function Latest(B: set<Entry>): (e: Entry)
    requires B != {}
    ensures IsLatest(e, B)
  {
    ExtremesExist(B);
    var e :| IsLatest(e, B); e
  }

  /** What of a ledger decides the verdict. */
  datatype Summary = Summary(
    firstReportAt: int,
    lastPositiveAt: int,
    confirmers: nat,
    negators: nat,
    retractionAt: Option<int>,
    lastPeerNegateAt: Option<int>,
    lastExternal: Option<(int, Outcome)>)

  ghost function Summarise(A: set<Entry>): Summary
    requires Reports(A) != {}
  {
    var first := Earliest(Reports(A));
    assert first in Positives(A);
    var own, peer, ext := Retractions(A, first.reporterKey), PeerNegations(A, first.reporterKey), Externals(A);
    Summary(
      first.At(),
      Latest(Positives(A)).At(),
      |Keys(Confirmations(A, first))|,
      |Keys(peer)|,
      if own == {} then None else Some(Earliest(own).At()),
      if peer == {} then None else Some(Latest(peer).At()),
      if ext == {} then None else Some((Latest(ext).At(), Latest(ext).external.value)))
  }

  // --- the decision ---

  function PolicyFault(bound: Option<real>, p: Policy): Option<Error> {
    if bound.Some? && !(0.0 <= bound.value <= 1.0) then Some(BadLowerBound)
    else if !(0.0 < p.peerConfidenceCap < p.scoreByState.externallyResolved) then Some(BadCap)
    else if !(0.0 < p.confirmDecay < 1.0) then Some(BadDecay)
    else if !(0.0 <= p.negateAsymmetry) then Some(BadAsymmetry)
    else if !(0.0 <= p.negateShrinkFactor <= 1.0) then Some(BadShrinkFactor)
    else None
  }

  function LifetimeEnd(s: Summary, p: Policy): real {
    s.firstReportAt as real + p.maxLifetimeSec * 1000.0
  }

  function DecayExpiry(s: Summary, p: Policy): real {
    Min(s.lastPositiveAt as real + p.ttlSec * 1000.0, LifetimeEnd(s, p))
  }

  predicate PeersNegate(s: Summary, p: Policy) {
    s.negators >= p.peerNegationMinKeys && s.negators > s.confirmers && s.lastPeerNegateAt.Some?
  }

  /** The state before decay to expired. */
  function Standing(s: Summary, p: Policy): State {
    if s.lastExternal.Some? then
      if s.lastExternal.value.1.Confirmed? then ExternallyResolved else Negated
    else if s.retractionAt.Some? || PeersNegate(s, p) then Negated
    else if 1 + s.confirmers >= p.corroborationMinDistinctKeys then Corroborated
    else SelfReported
  }

  /** When the observation stops being live, before it is written as a date. */
  function Deadline(s: Summary, p: Policy): real {
    if s.lastExternal.Some? then
      var at := s.lastExternal.value.0 as real;
      if s.lastExternal.value.1.Confirmed? then Min(at + p.ttlSec * 1000.0, LifetimeEnd(s, p)) else at
    else if s.retractionAt.Some? then s.retractionAt.value as real
    else if PeersNegate(s, p) then s.lastPeerNegateAt.value as real
    else
      var decay := DecayExpiry(s, p);
      var anchor := if s.lastPeerNegateAt.Some? then s.lastPeerNegateAt.value as real else decay;
      ShrinkExpiry(decay, anchor, s.negators, p.negateShrinkFactor)
  }

  function StateAt(s: Summary, p: Policy, now: int): State {
    var standing := Standing(s, p);
    if !standing.Negated? && Deadline(s, p) <= now as real then Expired else standing
  }

  function BaseScore(s: Summary, p: Policy, state: State): real {
    match state
    case SelfReported => CrowdConfidence(p, s.confirmers, s.negators)
    case Corroborated => CrowdConfidence(p, s.confirmers, s.negators)
    case ExternallyResolved => p.scoreByState.externallyResolved
    case Negated => p.scoreByState.negated
    case Expired => p.scoreByState.expired
  }

  function Adjustment(bound: Option<real>, p: Policy): real {
    if bound.Some? then p.reliabilityWeight * (bound.value - 0.5) else 0.0
  }

  function Conclude(s: Summary, now: int, bound: Option<real>, p: Policy): Result<Verdict, Error> {
    var state, deadline := StateAt(s, p, now), Deadline(s, p);
    if !(-MAX_TIME <= deadline <= MAX_TIME) then Err(UnwritableInstant)
    else Ok(Verdict(
      state,
      Clamp01(BaseScore(s, p, state) + Adjustment(bound, p)),
      state.ExternallyResolved?,
      Truncated(deadline)))
  }

  /** The verdict on a collection of admissible entries, whatever their order. */
  ghost function Verdicts(bag: multiset<Entry>, now: int, bound: Option<real>, p: Policy): Result<Verdict, Error> {
    var A := set e | e in bag;
    if !DistinctIds(bag) then Err(DuplicateId)
    else if Reports(A) == {} then Err(NoReport)
    else Conclude(Summarise(A), now, bound, p)
  }

  ghost function Evaluate(input: Ledger, p: Policy): Result<Verdict, Error> {
    var fault := PolicyFault(input.reporterLowerBound, p);
    if fault.Some? then Err(fault.value)
    else Verdicts(multiset(Admit(input.entries, input.now)), input.now.GetOr(0), input.reporterLowerBound, p)
  }

  // --- the sorted replay ---

  function SetOf(s: seq<Entry>): set<Entry> { set e | e in s }

  /** Strictly ascending: what sorting gives once no id repeats. */
  ghost predicate Ascending(s: seq<Entry>) {
    forall i, j :: 0 <= i < j < |s| ==> Before(s[i], s[j])
  }

  lemma {:induction false} CountsOfDistinct(s: seq<Entry>)
    requires forall i, j :: 0 <= i < j < |s| ==> s[i].id != s[j].id
    ensures DistinctIds(multiset(s))
  {
    if s != [] {
      var n := |s| - 1;
      assert s == s[..n] + [s[n]];
      CountsOfDistinct(s[..n]);
      assert multiset(s) == multiset(s[..n]) + multiset{s[n]};
    }
  }

  lemma {:induction false} RepeatedId(s: seq<Entry>, i: nat, j: nat)
    requires i < j < |s| && s[i].id == s[j].id
    ensures !DistinctIds(multiset(s))
  {
    if s[i] == s[j] {
      assert s == s[..j] + [s[j]] + s[j + 1..];
      assert s[..j][i] == s[i] && s[i] in multiset(s[..j]);
      assert multiset(s)[s[j]] >= 2;
    } else {
      assert s[i] in multiset(s) && s[j] in multiset(s);
    }
  }

  lemma {:induction false} AscendingOnceDistinct(s: seq<Entry>)
    requires SortedBy(NoLater, s)
    requires forall i, j :: 0 <= i < j < |s| ==> s[i].id != s[j].id
    ensures Ascending(s)
  {
    forall i, j | 0 <= i < j < |s| ensures Before(s[i], s[j]) {
      BeforeIsStrictOrder(s[i], s[j]);
    }
  }

  /** `last` is the latest of `B`, or `B` is empty. */
  ghost predicate Tracks(last: Option<Entry>, B: set<Entry>) {
    match last
    case None => B == {}
    case Some(e) => IsLatest(e, B)
  }

  lemma {:induction false} LatestIsUnique(e: Entry, f: Entry, B: set<Entry>)
    requires IsLatest(e, B) && IsLatest(f, B)
    ensures e.At() == f.At() && e.id == f.id
  {
    BeforeIsStrictOrder(e, f);
  }

  lemma {:induction false} EarliestIsUnique(e: Entry, f: Entry, B: set<Entry>)
    requires IsEarliest(e, B) && IsEarliest(f, B)
    ensures e.At() == f.At() && e.id == f.id
  {
    BeforeIsStrictOrder(e, f);
  }

  /** `held` is the earliest of `B`, or `B` is empty. */
  ghost predicate HoldsFirst(held: Option<Entry>, B: set<Entry>) {
    match held
    case None => B == {}
    case Some(e) => IsEarliest(e, B)
  }

  lemma {:induction false} FirstFoundIsEarliest(s: seq<Entry>, k: nat)
    requires Ascending(s) && k < |s| && s[k].kind.Report?
    requires forall j :: 0 <= j < k ==> !s[j].kind.Report?
    ensures IsEarliest(s[k], Reports(SetOf(s)))
  {
    forall f | f in Reports(SetOf(s)) ensures NoLater(s[k], f) {
      var j :| 0 <= j < |s| && s[j] == f;
      BeforeIsStrictOrder(s[k], f);
    }
  }

  lemma {:induction false} PrefixGrows(s: seq<Entry>, i: nat)
    requires i < |s|
    ensures SetOf(s[..i + 1]) == SetOf(s[..i]) + {s[i]}
  {
  }

  /** The next entry stands after every entry already seen. */
  lemma {:induction false} StandsLast(s: seq<Entry>, i: nat)
    requires Ascending(s) && i < |s|
    ensures forall f :: f in SetOf(s[..i]) + {s[i]} ==> NoLater(f, s[i])
  {
    forall f | f in SetOf(s[..i]) + {s[i]} ensures NoLater(f, s[i]) {
      BeforeIsStrictOrder(f, s[i]);
      if f != s[i] {
        var j :| 0 <= j < i && s[j] == f;
      }
    }
  }

  /** The next entry goes to the one collection its kind and key name. */
  lemma {:induction false} Split(P: set<Entry>, x: Entry, origin: Option<string>)
    ensures Positives(P + {x}) == Positives(P) + (if x.kind.Report? || x.kind.Confirm? then {x} else {})
    ensures Externals(P + {x}) == Externals(P) + (if x.kind.External? && x.external.Some? then {x} else {})
    ensures Retractions(P + {x}, origin) == Retractions(P, origin) + (if IsAllClear(x) && Own(x, origin) then {x} else {})
    ensures PeerNegations(P + {x}, origin) == PeerNegations(P, origin)
      + (if IsAllClear(x) && !Own(x, origin) && x.reporterKey.Some? then {x} else {})
  {
  }

  lemma {:induction false} TracksNext(B: set<Entry>, x: Entry)
    requires forall f :: f in B + {x} ==> NoLater(f, x)
    ensures Tracks(Some(x), B + {x})
  {
  }

  lemma {:induction false} HoldsNext(held: Option<Entry>, B: set<Entry>, x: Entry)
    requires HoldsFirst(held, B)
    requires forall f :: f in B + {x} ==> NoLater(f, x)
    ensures HoldsFirst(if held.None? then Some(x) else held, B + {x})
  {
  }

  ghost predicate IsLastInstant(at: int, B: set<Entry>) {
    (exists e :: e in B && e.At() == at) && (forall e :: e in B ==> e.At() <= at)
  }

  lemma {:induction false} LastInstantIsLatest(at: int, B: set<Entry>)
    requires IsLastInstant(at, B)
    ensures B != {} && Latest(B).At() == at
  {
  }

  lemma {:induction false} LastInstantNext(at: int, B: set<Entry>, x: Entry)
    requires IsLastInstant(at, B)
    ensures IsLastInstant(if at < x.At() then x.At() else at, B + {x})
  {
  }

  /** Whether an id repeats among the admissible entries. */
  method FindRepeat(sorted: seq<Entry>) returns (repeated: bool)
    ensures repeated == !DistinctIds(multiset(sorted))
    ensures !repeated ==> forall a, b :: 0 <= a < b < |sorted| ==> sorted[a].id != sorted[b].id
  {
    var seenIds: set<string> := {};
    for i := 0 to |sorted|
      invariant seenIds == set e | e in sorted[..i] :: e.id
      invariant forall a, b :: 0 <= a < b < i ==> sorted[a].id != sorted[b].id
    {
      if sorted[i].id in seenIds {
        var e :| e in sorted[..i] && e.id == sorted[i].id;
        var a :| 0 <= a < i && sorted[a] == e;
        RepeatedId(sorted, a, i);
        return true;
      }
      forall a | 0 <= a < i ensures sorted[a].id in seenIds {
        assert sorted[a] in sorted[..i];
      }
      assert sorted[..i + 1] == sorted[..i] + [sorted[i]];
      seenIds := seenIds + {sorted[i].id};
    }
    CountsOfDistinct(sorted);
    return false;
  }

  /** The distinct peer keys that stand behind the first report. */
  method CollectConfirmers(sorted: seq<Entry>, first: Entry) returns (confirmerKeys: set<string>)
    ensures confirmerKeys == Keys(Confirmations(SetOf(sorted), first))
  {
    confirmerKeys := {};
    for i := 0 to |sorted|
      invariant confirmerKeys == Keys(Confirmations(SetOf(sorted[..i]), first))
    {
      var entry := sorted[i];
      PrefixGrows(sorted, i);
      var isPeerPositive := entry.kind.Confirm? || (entry.kind.Report? && entry != first);
      ghost var before, after := Confirmations(SetOf(sorted[..i]), first), Confirmations(SetOf(sorted[..i + 1]), first);
      if isPeerPositive && entry.reporterKey.Some? && entry.reporterKey != first.reporterKey {
        confirmerKeys := confirmerKeys + {entry.reporterKey.value};
        assert after == before + {entry};
      } else {
        assert after == before;
      }
    }
    assert sorted[..|sorted|] == sorted;
  }

  /** What the pass holds once it has gone through `seen`. */
  datatype Pass = Pass(negatorKeys: set<string>, lastPositiveAt: int, retraction: Option<Entry>,
                       lastPeerNegate: Option<Entry>, lastExternal: Option<Entry>)

  ghost predicate Scanned(seen: set<Entry>, first: Entry, p: Pass) {
    && IsLastInstant(p.lastPositiveAt, {first} + Positives(seen))
    && p.negatorKeys == Keys(PeerNegations(seen, first.reporterKey))
    && Tracks(p.lastPeerNegate, PeerNegations(seen, first.reporterKey))
    && Tracks(p.lastExternal, Externals(seen))
    && HoldsFirst(p.retraction, Retractions(seen, first.reporterKey))
  }

  function Recorded(p: Pass, entry: Entry, origin: Option<string>): Pass {
    if entry.kind.Report? || entry.kind.Confirm? then
      p.(lastPositiveAt := if p.lastPositiveAt < entry.At() then entry.At() else p.lastPositiveAt)
    else if entry.kind.External? && entry.external.Some? then p.(lastExternal := Some(entry))
    else if !IsAllClear(entry) then p
    else if origin.Some? && entry.reporterKey == origin then
      p.(retraction := if p.retraction.None? then Some(entry) else p.retraction)
    else if entry.reporterKey.Some? then
      p.(negatorKeys := p.negatorKeys + {entry.reporterKey.value}, lastPeerNegate := Some(entry))
    else p
  }

  lemma {:induction false} ScanNext(seen: set<Entry>, entry: Entry, first: Entry, p: Pass)
    requires Scanned(seen, first, p)
    requires forall f :: f in seen + {entry} ==> NoLater(f, entry)
    ensures Scanned(seen + {entry}, first, Recorded(p, entry, first.reporterKey))
  {
    var origin := first.reporterKey;
    Split(seen, entry, origin);
    if entry.kind.Report? || entry.kind.Confirm? {
      LastInstantNext(p.lastPositiveAt, {first} + Positives(seen), entry);
      assert {first} + Positives(seen) + {entry} == {first} + Positives(seen + {entry});
    } else if entry.kind.External? && entry.external.Some? {
      TracksNext(Externals(seen), entry);
    } else if IsAllClear(entry) {
      if Own(entry, origin) {
        HoldsNext(p.retraction, Retractions(seen, origin), entry);
      } else if entry.reporterKey.Some? {
        TracksNext(PeerNegations(seen, origin), entry);
      }
    }
  }

  /** The replay proper: one pass in ledger order. */
  method Scan(sorted: seq<Entry>, first: Entry) returns (pass: Pass)
    requires Ascending(sorted) && first in sorted && first.kind.Report?
    ensures Scanned(SetOf(sorted), first, pass)
  {
    pass := Pass({}, first.At(), None, None, None);
    assert first in {first} + Positives({});
    for i := 0 to |sorted|
      invariant Scanned(SetOf(sorted[..i]), first, pass)
    {
      StandsLast(sorted, i);
      PrefixGrows(sorted, i);
      ScanNext(SetOf(sorted[..i]), sorted[i], first, pass);
      pass := Recorded(pass, sorted[i], first.reporterKey);
    }
    assert sorted[..|sorted|] == sorted;
  }

  function SummaryOf(first: Entry, confirmerKeys: set<string>, p: Pass): Summary {
    Summary(first.At(), p.lastPositiveAt, |confirmerKeys|, |p.negatorKeys|,
      if p.retraction.None? then None else Some(p.retraction.value.At()),
      if p.lastPeerNegate.None? then None else Some(p.lastPeerNegate.value.At()),
      if p.lastExternal.None? then None
      else Some((p.lastExternal.value.At(), p.lastExternal.value.external.GetOr(Confirmed))))
  }

  /** What the pass held is the summary the reference meaning takes. */
  lemma {:induction false} SummaryReached(A: set<Entry>, first: Entry, p: Pass)
    requires forall e, f :: e in A && f in A && e.id == f.id ==> e == f
    requires IsEarliest(first, Reports(A)) && Scanned(A, first, p)
    ensures Summarise(A) == SummaryOf(first, Keys(Confirmations(A, first)), p)
  {
    var own, peer, ext := Retractions(A, first.reporterKey), PeerNegations(A, first.reporterKey), Externals(A);
    EarliestIsUnique(first, Earliest(Reports(A)), Reports(A));
    assert {first} + Positives(A) == Positives(A);
    LastInstantIsLatest(p.lastPositiveAt, Positives(A));
    if p.retraction.Some? {
      EarliestIsUnique(p.retraction.value, Earliest(own), own);
    }
    if p.lastPeerNegate.Some? {
      LatestIsUnique(p.lastPeerNegate.value, Latest(peer), peer);
    }
    if p.lastExternal.Some? {
      LatestIsUnique(p.lastExternal.value, Latest(ext), ext);
    }
  }

  /** The first report in ledger order, if there is one. */
  method FindFirstReport(sorted: seq<Entry>) returns (first: Option<Entry>)
    requires Ascending(sorted)
    ensures HoldsFirst(first, Reports(SetOf(sorted)))
  {
    var k := 0;
    while k < |sorted| && !sorted[k].kind.Report?
      invariant 0 <= k <= |sorted|
      invariant forall j :: 0 <= j < k ==> !sorted[j].kind.Report?
    {
      k := k + 1;
    }
    if k == |sorted| {
      return None;
    }
    FirstFoundIsEarliest(sorted, k);
    return Some(sorted[k]);
  }

  method Replay(sorted: seq<Entry>, now: int, bound: Option<real>, policy: Policy) returns (r: Result<Verdict, Error>)
    requires SortedBy(NoLater, sorted)
    ensures r == Verdicts(multiset(sorted), now, bound, policy)
  {
    assert SetOf(sorted) == set e | e in multiset(sorted);
    var repeated := FindRepeat(sorted);
    if repeated {
      return Err(DuplicateId);
    }
    AscendingOnceDistinct(sorted);
    var first := FindFirstReport(sorted);
    if first.None? {
      return Err(NoReport);
    }
    var confirmerKeys := CollectConfirmers(sorted, first.value);
    var pass := Scan(sorted, first.value);
    SummaryReached(SetOf(sorted), first.value, pass);
    r := Conclude(SummaryOf(first.value, confirmerKeys, pass), now, bound, policy);
  }

  method EvaluateEvidence(input: Ledger, policy: Policy) returns (r: Result<Verdict, Error>)
    ensures r == Evaluate(input, policy)
  {
    var fault := PolicyFault(input.reporterLowerBound, policy);
    if fault.Some? {
      return Err(fault.value);
    }
    var admitted := Admit(input.entries, input.now);
    NoLaterIsPreorder();
    SortKeeps(NoLater, admitted);
    r := Replay(Sort(NoLater, admitted), input.now.GetOr(0), input.reporterLowerBound, policy);
  }
}
