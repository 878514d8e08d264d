/** A reading as a compact history row, and the observation rebuilt from the row
    and its series template. Deriving an observation's id and content hash, and
    writing an instant in one spelling, are left abstract. */
module History {
  import opened Basics
  import opened Codec

  // --- results ---

  /** What the registry says of a property's results. */
  datatype ResultSpec = ResultSpec(kind: string, unit: string, vocabulary: string)

  datatype Columns = Columns(num: Json, money: Json, text: Json, json: Option<Rec>)

  const COLUMN_TYPES := {"quantity", "count", "boolean", "category", "money"}

  function ValueOf(r: Rec, key: Name): Json { if key in r then r[key] else Null }

  /** A value written as a text, as far as reading a boolean back needs it. */
  function Spelled(j: Json): Json {
    match j
    case Bool(b) => Str(if b then "true" else "false")
    case Str(s) => j
    case _ => Str("")
  }

  /** A result without what the registry implies of it. */
  function Residue(r: Rec, spec: ResultSpec): Rec {
    var rest := r - {Type};
    if spec.kind == "quantity" then
      rest - {Value} - if ValueOf(r, Unit) == Str(spec.unit) then {Unit} else {}
    else if spec.kind == "category" then
      rest - {Value} - if ValueOf(r, Vocabulary) == Str(spec.vocabulary) then {Vocabulary} else {}
    else if spec.kind == "money" then rest - {Amount}
    else rest - {Value}
  }

  function EncodeResult(r: Rec, spec: ResultSpec): Columns {
    if TextOf(r, Type) != Some(spec.kind) || spec.kind !in COLUMN_TYPES then Columns(Null, Null, Null, Some(r))
    else
      var residue := Residue(r, spec);
      Columns(
        if spec.kind == "quantity" || spec.kind == "count" then ValueOf(r, Value) else Null,
        if spec.kind == "money" then ValueOf(r, Amount) else Null,
        if spec.kind == "boolean" then Spelled(ValueOf(r, Value))
        else if spec.kind == "category" then ValueOf(r, Value) else Null,
        if residue == map[] then None else Some(residue))
  }

  datatype HistoryError = StoredWhole | UnregisteredProperty | NoRecordId

  function DecodeResult(c: Columns, spec: ResultSpec): Result<Rec, HistoryError> {
    var json := c.json.GetOr(map[]);
    var typed := map[Type := Str(spec.kind)];
    if TextOf(json, Type).Some? then Ok(json)
    else if spec.kind == "quantity" then Ok(typed[Value := c.num][Unit := Str(spec.unit)] + json)
    else if spec.kind == "count" then Ok(typed[Value := c.num] + json)
    else if spec.kind == "boolean" then Ok(typed[Value := Bool(c.text == Str("true"))] + json)
    else if spec.kind == "category" then Ok(typed[Value := c.text][Vocabulary := Str(spec.vocabulary)] + json)
    else if spec.kind == "money" then Ok(typed[Amount := c.money] + json)
    else Err(StoredWhole)
  }

  /** A result of its property's own type states everything that type has. */
  predicate StatesItsFields(r: Rec, spec: ResultSpec) {
    TextOf(r, Type) == Some(spec.kind) ==>
      if spec.kind == "quantity" then Value in r && Unit in r
      else if spec.kind == "count" then Value in r
      else if spec.kind == "boolean" then Value in r && r[Value].Bool?
      else if spec.kind == "category" then Value in r && Vocabulary in r
      else if spec.kind == "money" then Amount in r
      else true
  }

  /** The columns give back exactly the results that state their type's fields; what
      one leaves out the registry fills in. */
  lemma {:induction false} ResultReturnsExactly(r: Rec, spec: ResultSpec)
    requires TextOf(r, Type).Some?
    ensures DecodeResult(EncodeResult(r, spec), spec) == Ok(r) <==> StatesItsFields(r, spec)
  {
    if TextOf(r, Type) == Some(spec.kind) && spec.kind in COLUMN_TYPES {
      var decoded := DecodeResult(EncodeResult(r, spec), spec).value;
      var residue := Residue(r, spec);
      assert EncodeResult(r, spec).json.GetOr(map[]) == residue;
      assert TextOf(residue, Type).None?;
      if StatesItsFields(r, spec) {
        assert decoded.Keys == r.Keys;
        forall k | k in r ensures decoded[k] == r[k] {}
        assert decoded == r;
      } else {
        assert exists k :: k in {Value, Unit, Vocabulary, Amount} && k in decoded && (k !in r || decoded[k] != r[k]) by {
          var k := if spec.kind == "money" then Amount
                   else if Value !in r || spec.kind == "boolean" then Value
                   else if spec.kind == "quantity" then Unit else Vocabulary;
          assert k in decoded;
        }
      }
    }
  }

  // --- rows ---

  datatype Poll = Poll(fetchId: Option<int>, payloadHashes: Option<seq<string>>)

  datatype Row = Row(
    phenomenonStart: Json,
    phenomenonEnd: Json,
    issuedAt: Json,
    resultTime: Json,
    validUntil: Json,
    fetchedAt: Json,
    recordedAt: Json,
    temporality: Json,
    aggregation: Json,
    result: Columns,
    quality: Json,
    baseline: Json,
    fetchId: Option<int>,
    rawPart: Option<nat>,
    extra: Rec,
    capturedProvenance: Option<Rec>)

  /** What the model takes from elsewhere: the functions that name, hash and date a record. */
  datatype Sealing = Sealing(idOf: (string, Rec) -> string, canonical: CanonicalIds, hashOf: Rec -> string, iso: Json -> Json)

  /** The entries of `r` under `keys`. */
  function Only(r: Rec, keys: set<Name>): Rec { map k | k in keys * r.Keys :: r[k] }

  function IndexOf(hashes: seq<string>, hash: string): Option<nat> {
    if hashes == [] then None
    else if hashes[0] == hash then Some(0)
    else match IndexOf(hashes[1..], hash) case None => None case Some(i) => Some(i + 1)
  }

  /** Where a record's payload stands among its poll's. */
  function RawPartOf(provenance: Rec, poll: Poll): Option<nat> {
    if RawRef !in provenance || TextOf(FieldsOf(provenance, RawRef), Hash).None? then None
    else IndexOf(poll.payloadHashes.GetOr([]), TextOf(FieldsOf(provenance, RawRef), Hash).value)
  }

  /** A payload reference its position cannot stand for. */
  predicate KeptWhole(provenance: Rec, poll: Poll) {
    && RawRef in provenance
    && (RawPartOf(provenance, poll).None? || Part in FieldsOf(provenance, RawRef) || Pointer in FieldsOf(provenance, RawRef))
  }

  const CREDIT := {Attribution, Upstream, MergedSources}

  /** The provenance a row owns, whatever becomes of the series. */
  function RowProvenance(p: Rec, poll: Poll): Rec {
    var credit := Only(p, CREDIT)[Upstream := if ValueOf(p, Upstream).Null? then Arr([]) else p[Upstream]];
    credit + Only(p, (VaryingOf(p) - {RawRef}) + if KeptWhole(p, poll) then {RawRef} else {})
  }

  const CARRIED := {ExternalIds, Relations, Extras}

  function ExtraOf(record: Rec, poll: Poll): Rec {
    var freshness := FieldsOf(record, Freshness) - {FetchedAt};
    Only(record, CARRIED)[Provenance := Obj(RowProvenance(ProvenanceOf(record), poll))]
    + (if Forecast in record && record[Forecast].Obj? then map[Forecast := record[Forecast]] else map[])
    + (if freshness == map[] then map[] else map[Freshness := Obj(freshness)])
  }

  function HistoryRowOf(record: Rec, spec: ResultSpec, poll: Poll): Row {
    var time := FieldsOf(record, PhenomenonTime);
    var rawPart := RawPartOf(ProvenanceOf(record), poll);
    var issuedAt := ValueOf(FieldsOf(record, Forecast), IssuedAt);
    Row(
      if ValueOf(time, Instant).Null? then ValueOf(time, Start) else time[Instant],
      ValueOf(time, End),
      if issuedAt.Null? then Str("-infinity") else issuedAt,
      ValueOf(record, ResultTime),
      ValueOf(record, ValidUntil),
      ValueOf(FieldsOf(record, Freshness), FetchedAt),
      ValueOf(record, RecordedAt),
      ValueOf(record, Temporality),
      ValueOf(record, Aggregation),
      EncodeResult(FieldsOf(record, ResultField), spec),
      ValueOf(record, Quality),
      ValueOf(record, Baseline),
      if rawPart.Some? then poll.fetchId else None,
      if rawPart.Some? && poll.fetchId.Some? then rawPart else None,
      ExtraOf(record, poll),
      None)
  }

  // --- back to a record ---

  const UNKNOWN := Obj(map[Provider := Str("Unknown publisher"), License := Str("NOASSERTION")])

  predicate IsFilled(j: Json) { j.Arr? && j.items != [] }

  /** The credit a row's receipt, or else the row itself, states. */
  function CapturedCredit(own: Rec, receipt: Option<Rec>): Rec {
    var captured := if receipt.Some? then receipt.value else if Attribution in own then own else map[];
    map[Attribution := if ValueOf(captured, Attribution).Null? then UNKNOWN else captured[Attribution]]
    + (if IsFilled(ValueOf(captured, Upstream)) then map[Upstream := captured[Upstream]] else map[])
    + Only(captured, {MergedSources})
  }

  function Trimmed(p: Rec): Rec {
    if ValueOf(p, Upstream) == Arr([]) then p - {CreditReceiptId, Upstream} else p - {CreditReceiptId}
  }

  function RebuiltProvenance(shared: Rec, own: Rec, receipt: Option<Rec>, rawPart: Option<nat>, hashes: seq<string>): Rec {
    var trimmed := Trimmed((shared - CREDIT) + own + CapturedCredit(own, receipt));
    if rawPart.None? || RawRef in trimmed then trimmed
    else trimmed[RawRef := Obj(if rawPart.value < |hashes| then map[Hash := Str(hashes[rawPart.value])] else map[])]
  }

  function TimeOf(seal: Sealing, row: Row): Json {
    if row.phenomenonEnd.Null? then Obj(map[Instant := seal.iso(row.phenomenonStart)])
    else Obj(map[Start := seal.iso(row.phenomenonStart), End := seal.iso(row.phenomenonEnd)])
  }

  function Optional(key: Name, j: Json): Rec { if j.Null? then map[] else map[key := j] }

  function OptionalTime(seal: Sealing, key: Name, j: Json): Rec { if j.Null? then map[] else map[key := seal.iso(j)] }

  /** The fields a row always holds. */
  function Always(seal: Sealing, row: Row): Rec {
    map[Temporality := row.temporality, PhenomenonTime := TimeOf(seal, row), Aggregation := row.aggregation,
        Freshness := Obj(map[FetchedAt := seal.iso(row.fetchedAt)] + FieldsOf(row.extra, Freshness)),
        Revision := Num(1.0), RecordedAt := seal.iso(row.recordedAt)]
  }

  /** The fields a row holds, the result aside. */
  function RowFields(seal: Sealing, row: Row): Rec {
    Only(row.extra, CARRIED + {Forecast})
    + (Optional(Quality, row.quality) + Optional(Baseline, row.baseline)
       + OptionalTime(seal, ResultTime, row.resultTime) + OptionalTime(seal, ValidUntil, row.validUntil))
    + Always(seal, row)
  }

  function Sealed(seal: Sealing, namespace: string, record: Rec): Rec {
    var id := seal.idOf(namespace, record);
    var localId := match ParseRecordId(id) case Some(p) => p.localId case None => "";
    var named := record[Id := Str(id)][CanonicalId := Str(seal.canonical(namespace, localId))];
    named[ContentHash := Str(seal.hashOf(named))]
  }

  /** A record sealed, if the id derived for it is one. */
  function SealedIf(seal: Sealing, namespace: string, record: Rec): Result<Rec, HistoryError> {
    if ParseRecordId(seal.idOf(namespace, record)).None? then Err(NoRecordId) else Ok(Sealed(seal, namespace, record))
  }

  function RecordFromHistory(seal: Sealing, spec: Option<ResultSpec>, series: Rec, row: Row, hashes: seq<string>)
    : Result<Rec, HistoryError>
  {
    if spec.None? then Err(UnregisteredProperty)
    else match DecodeResult(row.result, spec.value)
      case Err(e) => Err(e)
      case Ok(result) =>
        var provenance := RebuiltProvenance(
          FieldsOf(series, Provenance), FieldsOf(row.extra, Provenance), row.capturedProvenance, row.rawPart, hashes);
        var namespace := TextOf(series, Namespace);
        var record := (series - {Namespace}) + RowFields(seal, row) + map[ResultField := Obj(result), Provenance := Obj(provenance)];
        if namespace.None? then Err(NoRecordId) else SealedIf(seal, namespace.value, record)
  }
}
