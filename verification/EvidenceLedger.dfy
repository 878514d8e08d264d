/** Stored evidence rows turned into the ledger the evidence engine replays. */
module EvidenceLedger {
  import opened Basics
  import opened Evidence
  import opened EvidenceLaws

  /** A field of a row's details: a text with the instant a date reads from it, if
      any, or a value of another type. */
  datatype Field = Text(text: string, instant: Option<int>) | Other

  datatype Details = Details(outcome: Option<Field>, reportedAt: Option<Field>)

  datatype Row = Row(
    id: string,
    evidenceKind: string,
    actorKeyId: Option<string>,
    occurredAt: Option<int>,
    details: Option<Details>)

  datatype RowError = UnknownKind | UnknownOutcome

  function OutcomeFromDetails(details: Option<Details>): Result<Outcome, RowError> {
    if details.None? || details.value.outcome.None? then Ok(Confirmed)
    else match details.value.outcome.value
      case Text(text, _) =>
        if text == "confirmed" then Ok(Confirmed) else if text == "rejected" then Ok(Rejected) else Err(UnknownOutcome)
      case Other => Err(UnknownOutcome)
  }

  /** When a report counts from. */
  function ReportedAt(row: Row): Option<int> {
    var stated := if row.details.Some? then row.details.value.reportedAt else None;
    if stated.None? || stated.value.Other? || stated.value.instant.None? then row.occurredAt
    else if row.occurredAt.Some? && stated.value.instant.value < row.occurredAt.value then stated.value.instant
    else row.occurredAt
  }

  function EntryOf(row: Row): Result<Entry, RowError> {
    if row.evidenceKind == "report" then Ok(Entry(row.id, ReportedAt(row), Report, row.actorKeyId, None))
    else if row.evidenceKind == "confirm" then Ok(Entry(row.id, row.occurredAt, Confirm, row.actorKeyId, None))
    else if row.evidenceKind == "negate" then Ok(Entry(row.id, row.occurredAt, Negate, row.actorKeyId, None))
    else if row.evidenceKind == "official_match" then
      match OutcomeFromDetails(row.details)
      case Ok(outcome) => Ok(Entry(row.id, row.occurredAt, External, row.actorKeyId, Some(outcome)))
      case Err(e) => Err(e)
    else if row.evidenceKind == "reviewer_accept" then
      Ok(Entry(row.id, row.occurredAt, External, row.actorKeyId, Some(Confirmed)))
    else if row.evidenceKind == "reviewer_reject" then
      Ok(Entry(row.id, row.occurredAt, External, row.actorKeyId, Some(Rejected)))
    else Err(UnknownKind)
  }

  // --- what a row says, kind by kind ---

  predicate StatesOutcome(row: Row) { row.details.Some? && row.details.value.outcome.Some? }

  predicate StatesText(row: Row, text: string) {
    StatesOutcome(row) && row.details.value.outcome.value.Text? && row.details.value.outcome.value.text == text
  }

  predicate IsKnown(row: Row) {
    row.evidenceKind in {"report", "confirm", "negate", "official_match", "reviewer_accept", "reviewer_reject"}
  }

  /** An official match with an outcome that is neither of the two. */
  predicate HasBadOutcome(row: Row) {
    row.evidenceKind == "official_match" && StatesOutcome(row) && !StatesText(row, "confirmed") && !StatesText(row, "rejected")
  }

  predicate SaysConfirmed(row: Row) {
    row.evidenceKind == "reviewer_accept" || (row.evidenceKind == "official_match" && !StatesText(row, "rejected"))
  }

  /** The instant the reporter states, if there is one to read. */
  function StatedAt(row: Row): Option<int> {
    if row.details.Some? && row.details.value.reportedAt.Some? && row.details.value.reportedAt.value.Text?
    then row.details.value.reportedAt.value.instant else None
  }

  /** The entry is the row's: its id, actor, kind and outcome, and the time it was received, or for
      a report the time stated if that is earlier. */
  predicate IsEntryFor(e: Entry, row: Row) {
    && e.id == row.id && e.reporterKey == row.actorKeyId
    && (match e.kind
        case Report => row.evidenceKind == "report" && e.external.None?
        case Confirm => row.evidenceKind == "confirm" && e.external.None?
        case Negate => row.evidenceKind == "negate" && e.external.None?
        case Cancel => false
        case External =>
          && row.evidenceKind in {"official_match", "reviewer_accept", "reviewer_reject"}
          && e.external == Some(if SaysConfirmed(row) then Confirmed else Rejected))
    && (if row.evidenceKind == "report" && row.occurredAt.Some? && StatedAt(row).Some?
        then e.at == Some(if StatedAt(row).value < row.occurredAt.value then StatedAt(row).value else row.occurredAt.value)
        else e.at == row.occurredAt)
  }

  /** What a row maps to, in its own words. */
  lemma {:induction false} EntryMeans(row: Row)
    ensures EntryOf(row).Ok? <==> IsKnown(row) && !HasBadOutcome(row)
    ensures EntryOf(row).Ok? ==> IsEntryFor(EntryOf(row).value, row)
    ensures EntryOf(row).Err? ==> EntryOf(row).error == if IsKnown(row) then UnknownOutcome else UnknownKind
  {
  }

  /** A ledger is what every row maps to, in order; the first row that maps to
      nothing fails the whole ledger. */
  method EvidenceRowsToLedger(rows: seq<Row>, now: Option<int>) returns (r: Result<Ledger, RowError>)
    ensures r.Ok? <==> forall i :: 0 <= i < |rows| ==> IsKnown(rows[i]) && !HasBadOutcome(rows[i])
    ensures r.Ok? ==> r.value.now == now && r.value.reporterLowerBound.None? && Projects(rows, r.value.entries)
    ensures r.Ok? ==> forall i :: 0 <= i < |rows| ==> IsEntryFor(r.value.entries[i], rows[i])
    ensures r.Err? ==>
      exists i :: 0 <= i < |rows| && (r.error.UnknownOutcome? ==> HasBadOutcome(rows[i])) && (r.error.UnknownKind? ==> !IsKnown(rows[i]))
                  && forall j :: 0 <= j < i ==> IsKnown(rows[j]) && !HasBadOutcome(rows[j])
  {
    hide EntryOf, IsKnown, HasBadOutcome, IsEntryFor;
    forall row ensures
      && (EntryOf(row).Ok? <==> IsKnown(row) && !HasBadOutcome(row))
      && (EntryOf(row).Ok? ==> IsEntryFor(EntryOf(row).value, row))
      && (EntryOf(row).Err? ==> EntryOf(row).error == if IsKnown(row) then UnknownOutcome else UnknownKind)
    {
      EntryMeans(row);
    }
    var entries: seq<Entry> := [];
    for i := 0 to |rows|
      invariant forall j :: 0 <= j < i ==> EntryOf(rows[j]).Ok?
      invariant Projects(rows[..i], entries)
    {
      var entry := EntryOf(rows[i]);
      match entry {
        case Err(e) => return Err(e);
        case Ok(value) => entries := entries + [value];
      }
    }
    assert rows[..|rows|] == rows;
    r := Ok(Ledger(entries, now, None));
  }

  ghost predicate Projects(rows: seq<Row>, entries: seq<Entry>) {
    |entries| == |rows| && forall i :: 0 <= i < |rows| ==> EntryOf(rows[i]) == Ok(entries[i])
  }

  /** No reporter moves an entry past the time the server received it. */
  lemma {:induction false} NeverAfterReceipt(row: Row)
    requires EntryOf(row).Ok?
    ensures EntryOf(row).value.at.Some? <==> row.occurredAt.Some?
    ensures row.occurredAt.Some? ==> EntryOf(row).value.At() <= row.occurredAt.value
    ensures row.evidenceKind != "report" ==> EntryOf(row).value.at == row.occurredAt
  {
  }

  /** End to end: whatever the reporters state, a record whose rows the server received by
      `received` has ended by then if it is negated, and otherwise ends by `received` plus
      the time to live and by the end of the lifetime of any report received. */
  lemma {:induction false} ExpiryFromReceipt(rows: seq<Row>, ledger: Ledger, p: Policy, received: int, k: nat, end: int, life: int)
    requires Projects(rows, ledger.entries)
    requires Evaluate(ledger, p).Ok?
    requires forall i :: 0 <= i < |rows| && rows[i].occurredAt.Some? ==> rows[i].occurredAt.value <= received
    requires k < |rows| && rows[k].evidenceKind == "report" && rows[k].occurredAt.Some?
    requires ledger.now.Some? && rows[k].occurredAt.value <= ledger.now.value
    requires received as real + p.ttlSec * 1000.0 <= end as real
    requires rows[k].occurredAt.value as real + p.maxLifetimeSec * 1000.0 <= life as real
    ensures var v := Evaluate(ledger, p).value;
      if v.state.Negated? then v.expiresAt <= received else v.expiresAt <= end && v.expiresAt <= life
  {
    forall e | e in ledger.entries && Admissible(e, ledger.now) ensures e.At() <= received {
      var i :| 0 <= i < |rows| && ledger.entries[i] == e;
      NeverAfterReceipt(rows[i]);
    }
    NeverAfterReceipt(rows[k]);
    ExpiryBounds(ledger, p, received, ledger.entries[k], end, life);
  }
}
