/** Building the manual review queue: ground every candidate, drop repeated ids, select round-robin. */
module AnnotationQueue {
  import opened Wrappers
  import opened Text
  import opened Grounding
  import opened TokenWindow
  import opened RoundRobin

  datatype SeedRecord = SeedRecord(
    recordId: string,
    textSha: string,
    splitGroup: string,
    requirementText: string,
    shadowCandidates: seq<string>,
    recallRisk: bool)

  datatype QueueError =
    | LimitNotPositive
    | RadiusNotPositive
    | RecordIdMissing
    | LearnedRecordMissing(recordId: string)
    | TextDrift(recordId: string)
    | SplitGroupDrift(recordId: string)
    | CandidateStop(error: SpanError)

  datatype Queue = Queue(candidateCount: nat, selected: seq<Row>)

  /** `_annotation_id`, as an arbitrary function of its four inputs. */
  type IdFunction = (string, nat, nat, string) -> string

  /** `_string_list`: collapsed, without blanks, without repetitions. */
  function StringList(values: seq<string>): seq<string> {
    if values == [] then []
    else
      var before := StringList(values[..|values| - 1]);
      var text := Collapse(values[|values| - 1]);
      if text == "" || text in before then before else before + [text]
  }

  /** The dictionary of learned records; a later record with the same id wins. */
  function LearnedById(records: seq<SeedRecord>): map<string, SeedRecord> {
    if records == [] then map[]
    else
      var last := records[|records| - 1];
      LearnedById(records[..|records| - 1])[Collapse(last.recordId) := last]
  }

  function RecordFault(record: SeedRecord, learned: map<string, SeedRecord>): Option<QueueError> {
    var id := Collapse(record.recordId);
    if id == "" then Some(RecordIdMissing)
    else if id !in learned then Some(LearnedRecordMissing(id))
    else if record.textSha != learned[id].textSha then Some(TextDrift(id))
    else if record.splitGroup != learned[id].splitGroup then Some(SplitGroupDrift(id))
    else None
  }

  /** The first candidate of the list that is not grounded in the text. */
  function CandidatesFault(text: string, candidates: seq<string>): Option<QueueError> {
    if candidates == [] then None
    else
      match CandidateSpan(text, candidates[0])
      case Failure(error) => Some(CandidateStop(error))
      case Success(_) => CandidatesFault(text, candidates[1..])
  }

  /** The candidates a record contributes; a record without text contributes none. */
  function CandidatesOf(record: SeedRecord): seq<string> {
    if record.requirementText == "" then [] else StringList(record.shadowCandidates)
  }

  /** What stops the build, if anything does. */
  function Fault(records: seq<SeedRecord>, learned: map<string, SeedRecord>): Option<QueueError> {
    if records == [] then None
    else
      var own := RecordFault(records[0], learned);
      if own.Some? then own
      else
        var fault := CandidatesFault(records[0].requirementText, CandidatesOf(records[0]));
        if fault.Some? then fault else Fault(records[1..], learned)
  }

  function GroupOf(record: SeedRecord): string {
    var group := Collapse(record.splitGroup);
    if group == "" then "unknown" else group
  }

  predicate LearnedPositive(candidate: string, learned: SeedRecord) {
    Fold(Collapse(candidate)) in
      set value | value in StringList(learned.shadowCandidates) :: Fold(Collapse(value))
  }

  /** The queue row of one grounded candidate. */
  function RowOf(record: SeedRecord, learned: SeedRecord, candidate: string, radius: nat, idOf: IdFunction): Option<Row> {
    var text, recordId := record.requirementText, Collapse(record.recordId);
    match CandidateSpan(text, candidate)
    case Failure(_) => None
    case Success(span) =>
      if span.start > span.end || span.end > |text| then None
      else
        var evidence := text[span.start..span.end];
        match ContextWindow(text, span.start, span.end, radius)
        case None => None
        case Some(w) =>
          if w.start > w.end || w.end > |text| then None
          else Some(Row(
            idOf(recordId, span.start, span.end, evidence),
            Stratum(GroupOf(record), record.recallRisk, LearnedPositive(candidate, learned)),
            recordId, candidate, evidence, span.start, span.end, text[w.start..w.end], w.start, w.end))
  }

  /** Equal up to whitespace and letter case. */
  predicate SameTerm(a: string, b: string) {
    Fold(Collapse(a)) == Fold(Collapse(b))
  }

  /** The row's group and recall risk are its record's; the proxy flag says whether the learned record lists the candidate. */
  ghost predicate Stratified(row: Row, record: SeedRecord, own: SeedRecord) {
    && row.stratum.group == (if Blank(record.splitGroup) then "unknown" else Collapse(record.splitGroup))
    && row.stratum.recallRisk == record.recallRisk
    && (row.stratum.proxyPositive <==>
          exists k :: 0 <= k < |own.shadowCandidates| && SameTerm(own.shadowCandidates[k], row.candidate))
  }

  /** What the queue promises of a row. */
  ghost predicate Grounded(row: Row, record: SeedRecord, own: SeedRecord, radius: nat, idOf: IdFunction) {
    var text := record.requirementText;
    && row.recordId == Collapse(record.recordId) && row.id == idOf(row.recordId, row.start, row.end, row.evidence)
    && Stratified(row, record, own)
    && row.candidate in StringList(record.shadowCandidates)
    && row.start < row.end <= |text| && row.evidence == text[row.start..row.end]
    && Collapse(row.evidence) == row.candidate
    && row.contextStart <= row.start && row.end <= row.contextEnd <= |text|
    && row.context == text[row.contextStart..row.contextEnd]
    && exists h0: nat, h1: nat ::
         WindowAround(text, row.start, row.end, radius, Span(row.contextStart, row.contextEnd), h0, h1)
  }

  lemma {:induction false} StringListIsCanonical(values: seq<string>)
    ensures forall v :: v in StringList(values) ==> Canonical(v)
    ensures forall i, j :: 0 <= i < j < |StringList(values)| ==> StringList(values)[i] != StringList(values)[j]
  {
    if values != [] {
      StringListIsCanonical(values[..|values| - 1]);
      CollapseIdempotent(values[|values| - 1]);
    }
  }

  lemma {:induction false} StringListMembers(values: seq<string>, v: string)
    ensures v in StringList(values) <==> v != "" && exists k :: 0 <= k < |values| && Collapse(values[k]) == v
  {
    if values != [] {
      var n := |values| - 1;
      StringListMembers(values[..n], v);
      if k :| 0 <= k < |values| && Collapse(values[k]) == v && k < n { assert values[..n][k] == values[k]; }
    }
  }

  lemma {:induction false} SameLength(s: string)
    ensures Fold(s) == "" <==> s == ""
  {
  }

  lemma {:induction false} ProxyMeans(candidate: string, own: SeedRecord)
    requires candidate != "" && Collapse(candidate) == candidate
    ensures LearnedPositive(candidate, own) <==>
      exists k :: 0 <= k < |own.shadowCandidates| && SameTerm(own.shadowCandidates[k], candidate)
  {
    var values := own.shadowCandidates;
    StringListIsCanonical(values);
    if LearnedPositive(candidate, own) {
      var value :| value in StringList(values) && Fold(Collapse(value)) == Fold(Collapse(candidate));
      StringListMembers(values, value);
      var k :| 0 <= k < |values| && Collapse(values[k]) == value;
      CollapseIdempotent(values[k]);
      assert SameTerm(values[k], candidate);
    }
    if k :| 0 <= k < |values| && SameTerm(values[k], candidate) {
      SameLength(Collapse(values[k]));
      SameLength(candidate);
      StringListMembers(values, Collapse(values[k]));
      CollapseIdempotent(values[k]);
    }
  }

  lemma {:induction false} RowIsStratified(record: SeedRecord, own: SeedRecord, candidate: string, radius: nat, idOf: IdFunction)
    requires candidate in StringList(record.shadowCandidates) && RowOf(record, own, candidate, radius, idOf).Some?
    ensures var row := RowOf(record, own, candidate, radius, idOf).value;
      Stratified(row, record, own) && row.candidate == candidate && row.id == idOf(row.recordId, row.start, row.end, row.evidence)
  {
    StringListMembers(record.shadowCandidates, candidate);
    var k :| 0 <= k < |record.shadowCandidates| && Collapse(record.shadowCandidates[k]) == candidate;
    CollapseIdempotent(record.shadowCandidates[k]);
    ProxyMeans(candidate, own);
    CollapseBlank(record.splitGroup);
  }

  /** A candidate with a span always has a row, and the row is grounded. */
  lemma {:induction false} RowIsGrounded(record: SeedRecord, learned: SeedRecord, candidate: string, radius: nat, idOf: IdFunction)
    requires candidate in StringList(record.shadowCandidates)
    requires CandidateSpan(record.requirementText, candidate).Success?
    ensures var row := RowOf(record, learned, candidate, radius, idOf);
      row.Some? && Grounded(row.value, record, learned, radius, idOf)
  {
    var text := record.requirementText;
    StringListIsCanonical(record.shadowCandidates);
    SpanIsGrounded(text, candidate);
    var span := CandidateSpan(text, candidate).value;
    ContextWindowIsExact(text, span.start, span.end, radius);
    RowIsStratified(record, learned, candidate, radius, idOf);
  }

  /** The rows of one record, one for every candidate. */
  function RecordRows(record: SeedRecord, learned: SeedRecord, candidates: seq<string>, radius: nat, idOf: IdFunction): seq<Row> {
    if candidates == [] then []
    else
      var row := RowOf(record, learned, candidates[0], radius, idOf);
      (if row.Some? then [row.value] else []) + RecordRows(record, learned, candidates[1..], radius, idOf)
  }

  /** The rows of all records, before repeated ids are dropped. */
  function AllRows(records: seq<SeedRecord>, learned: map<string, SeedRecord>, radius: nat, idOf: IdFunction): seq<Row> {
    if records == [] then []
    else
      var id := Collapse(records[0].recordId);
      (if id in learned then RecordRows(records[0], learned[id], CandidatesOf(records[0]), radius, idOf) else [])
      + AllRows(records[1..], learned, radius, idOf)
  }

  function Ids(rows: seq<Row>): set<string> {
    set row | row in rows :: row.id
  }

  /** The first row of every id. */
  function FirstById(kept: seq<Row>, rows: seq<Row>): seq<Row>
    decreases |rows|
  {
    if rows == [] then kept
    else FirstById(if rows[0].id in Ids(kept) then kept else kept + [rows[0]], rows[1..])
  }

  lemma {:induction false} FirstByIdConcat(kept: seq<Row>, a: seq<Row>, b: seq<Row>)
    ensures FirstById(kept, a + b) == FirstById(FirstById(kept, a), b)
    decreases |a|
  {
    if a == [] {
      assert a + b == b;
    } else {
      assert (a + b)[1..] == a[1..] + b;
      FirstByIdConcat(if a[0].id in Ids(kept) then kept else kept + [a[0]], a[1..], b);
    }
  }

  /** Dropping repeated ids leaves distinct ids, adds no row and loses no id. */
  lemma {:induction false} FirstByIdIsDistinct(kept: seq<Row>, rows: seq<Row>)
    requires DistinctIds(kept)
    ensures var result := FirstById(kept, rows);
      && DistinctIds(result)
      && (forall r :: r in result ==> r in kept || r in rows)
      && Ids(result) == Ids(kept) + Ids(rows)
    decreases |rows|
  {
    if rows != [] {
      var next := if rows[0].id in Ids(kept) then kept else kept + [rows[0]];
      assert rows == [rows[0]] + rows[1..];
      FirstByIdIsDistinct(next, rows[1..]);
      assert Ids(next) == Ids(kept) + {rows[0].id};
      assert Ids(rows) == {rows[0].id} + Ids(rows[1..]);
    }
  }

  lemma {:induction false} RecordRowsAreGrounded(record: SeedRecord, learned: SeedRecord, candidates: seq<string>, radius: nat, idOf: IdFunction)
    requires CandidatesFault(record.requirementText, candidates) == None
    requires forall c :: c in candidates ==> c in StringList(record.shadowCandidates)
    ensures var rows := RecordRows(record, learned, candidates, radius, idOf);
      && |rows| == |candidates|
      && forall k :: 0 <= k < |rows| ==> rows[k].candidate == candidates[k] && Grounded(rows[k], record, learned, radius, idOf)
  {
    if candidates != [] {
      var rest := RecordRows(record, learned, candidates[1..], radius, idOf);
      RowIsGrounded(record, learned, candidates[0], radius, idOf);
      RecordRowsAreGrounded(record, learned, candidates[1..], radius, idOf);
      var row := RowOf(record, learned, candidates[0], radius, idOf).value;
      HoldsForCons(candidates, row, rest, (r: Row, c: string) => r.candidate == c && Grounded(r, record, learned, radius, idOf));
      assert RecordRows(record, learned, candidates, radius, idOf) == [row] + rest;
    }
  }

  lemma {:induction false} HoldsForCons(candidates: seq<string>, row: Row, rest: seq<Row>, holds: (Row, string) -> bool)
    requires candidates != [] && |rest| == |candidates| - 1 && holds(row, candidates[0])
    requires forall k :: 0 <= k < |rest| ==> holds(rest[k], candidates[1..][k])
    ensures var rows := [row] + rest; forall k :: 0 <= k < |rows| ==> holds(rows[k], candidates[k])
  {
    assert forall k :: 0 <= k < |rest| ==> candidates[1..][k] == candidates[k + 1];
  }

  /** The row is grounded in the record and the learned record of the same id. */
  ghost predicate GroundedIn(row: Row, record: SeedRecord, learned: map<string, SeedRecord>, radius: nat, idOf: IdFunction) {
    Collapse(record.recordId) in learned && Grounded(row, record, learned[Collapse(record.recordId)], radius, idOf)
  }

  lemma {:induction false} AllRowsAreGrounded(records: seq<SeedRecord>, learned: map<string, SeedRecord>, radius: nat, idOf: IdFunction)
    requires Fault(records, learned) == None
    ensures forall row: Row :: row in AllRows(records, learned, radius, idOf) ==>
      exists record :: record in records && GroundedIn(row, record, learned, radius, idOf)
  {
    if records != [] {
      var record := records[0];
      AllRowsAreGrounded(records[1..], learned, radius, idOf);
      RecordRowsAreGrounded(record, learned[Collapse(record.recordId)], CandidatesOf(record), radius, idOf);
      var own := RecordRows(record, learned[Collapse(record.recordId)], CandidatesOf(record), radius, idOf);
      forall row: Row | row in AllRows(records, learned, radius, idOf)
        ensures exists r :: r in records && GroundedIn(row, r, learned, radius, idOf)
      {
        assert row in own || row in AllRows(records[1..], learned, radius, idOf);
        if row in own {
          assert record in records && GroundedIn(row, record, learned, radius, idOf);
        } else {
          var r :| r in records[1..] && GroundedIn(row, r, learned, radius, idOf);
          assert r in records;
        }
      }
    }
  }

  /** No candidate is lost: each one of each record has a row. */
  lemma {:induction false} AllCandidatesHaveRows(records: seq<SeedRecord>, learned: map<string, SeedRecord>, radius: nat, idOf: IdFunction,
                                                 record: SeedRecord, candidate: string) returns (row: Row)
    requires Fault(records, learned) == None
    requires record in records && candidate in CandidatesOf(record)
    ensures row in AllRows(records, learned, radius, idOf)
    ensures row.candidate == candidate && GroundedIn(row, record, learned, radius, idOf)
  {
    if record == records[0] {
      var candidates, own := CandidatesOf(record), learned[Collapse(record.recordId)];
      RecordRowsAreGrounded(record, own, candidates, radius, idOf);
      var k :| 0 <= k < |candidates| && candidates[k] == candidate;
      row := RecordRows(record, own, candidates, radius, idOf)[k];
    } else {
      assert records == [records[0]] + records[1..];
      row := AllCandidatesHaveRows(records[1..], learned, radius, idOf, record, candidate);
    }
  }

  // ---------- the builder ----------

  /** `build_annotation_queue` on the records of two validated seeds. */
  method BuildQueue(gazetteer: seq<SeedRecord>, learnedRecords: seq<SeedRecord>, limit: int, radius: int, idOf: IdFunction)
    returns (result: Result<Queue, QueueError>)
    ensures limit <= 0 ==> result == Failure(LimitNotPositive)
    ensures limit > 0 && radius <= 0 ==> result == Failure(RadiusNotPositive)
    ensures limit > 0 && radius > 0 ==>
      var learned := LearnedById(learnedRecords);
      match Fault(gazetteer, learned)
      case Some(error) => result == Failure(error)
      case None =>
        var candidates := FirstById([], AllRows(gazetteer, learned, radius, idOf));
        result == Success(Queue(|candidates|, Selection(candidates, limit)))
    ensures limit > 0 && radius > 0 ==>
      (result.Success? <==> forall i :: 0 <= i < |gazetteer| ==> IsSound(gazetteer[i], learnedRecords))
    ensures result.Success? ==>
      && radius > 0 && DistinctIds(result.value.selected)
      && forall row: Row :: row in result.value.selected ==> IsQueued(row, gazetteer, learnedRecords, radius, idOf)
  {
    if limit <= 0 { return Failure(LimitNotPositive); }
    if radius <= 0 { return Failure(RadiusNotPositive); }
    QueueMeans(gazetteer, learnedRecords, limit, radius, idOf);
    var learned: map<string, SeedRecord> := map[];
    for i := 0 to |learnedRecords|
      invariant learned == LearnedById(learnedRecords[..i])
    {
      assert learnedRecords[..i + 1][..i] == learnedRecords[..i];
      learned := learned[Collapse(learnedRecords[i].recordId) := learnedRecords[i]];
    }
    assert learnedRecords[..|learnedRecords|] == learnedRecords;

    var candidates: seq<Row> := [];
    ghost var all := FirstById([], AllRows(gazetteer, learned, radius, idOf));
    assert gazetteer[0..] == gazetteer;
    for i := 0 to |gazetteer|
      invariant Fault(gazetteer, learned) == Fault(gazetteer[i..], learned)
      invariant all == FirstById(candidates, AllRows(gazetteer[i..], learned, radius, idOf))
    {
      var record := gazetteer[i];
      assert gazetteer[i..][0] == record && gazetteer[i..][1..] == gazetteer[i + 1..];
      var fault := RecordFault(record, learned);
      if fault.Some? { return Failure(fault.value); }
      var own := learned[Collapse(record.recordId)];
      ghost var before := candidates;
      fault, candidates := AddRecord(record, own, radius, idOf, candidates);
      if fault.Some? { return Failure(fault.value); }
      FirstByIdConcat(before, RecordRows(record, own, CandidatesOf(record), radius, idOf),
                      AllRows(gazetteer[i + 1..], learned, radius, idOf));
    }
    var count := |candidates|;
    var selected := StableRoundRobin(candidates, if limit < count then limit else count);
    assert Selection(candidates, if limit < count then limit else count) == Selection(candidates, limit) by {
      SelectionSize(candidates, limit);
    }
    return Success(Queue(count, selected));
  }

  /** The inner loop: the candidates of one record. */
  method AddRecord(record: SeedRecord, learned: SeedRecord, radius: nat, idOf: IdFunction, kept: seq<Row>)
    returns (fault: Option<QueueError>, candidates: seq<Row>)
    ensures fault == CandidatesFault(record.requirementText, CandidatesOf(record))
    ensures fault == None ==>
      candidates == FirstById(kept, RecordRows(record, learned, CandidatesOf(record), radius, idOf))
  {
    candidates := kept;
    var seen := Ids(kept);
    var values := CandidatesOf(record);
    ghost var all := FirstById(kept, RecordRows(record, learned, values, radius, idOf));
    assert values[0..] == values;
    for k := 0 to |values|
      invariant seen == Ids(candidates)
      invariant CandidatesFault(record.requirementText, values) == CandidatesFault(record.requirementText, values[k..])
      invariant all == FirstById(candidates, RecordRows(record, learned, values[k..], radius, idOf))
    {
      assert values[k..][0] == values[k] && values[k..][1..] == values[k + 1..];
      match CandidateSpan(record.requirementText, values[k])
      case Failure(error) => return Some(CandidateStop(error)), candidates;
      case Success(_) =>
        RowIsGrounded(record, learned, values[k], radius, idOf);
        var row := RowOf(record, learned, values[k], radius, idOf).value;
        ghost var rest := RecordRows(record, learned, values[k + 1..], radius, idOf);
        assert ([row] + rest)[1..] == rest;
        if row.id !in seen {
          seen := seen + {row.id};
          assert Ids(candidates + [row]) == Ids(candidates) + {row.id};
          candidates := candidates + [row];
        }
    }
    fault := None;
  }

  // ---------- what the queue promises, from the seeds ----------

  /** The last learned record of the id. */
  ghost predicate IsLearned(records: seq<SeedRecord>, id: string, own: SeedRecord) {
    exists k :: IsLast(records, id, k) && records[k] == own
  }

  predicate IsLast(records: seq<SeedRecord>, id: string, k: int) {
    && 0 <= k < |records| && Collapse(records[k].recordId) == id
    && forall j :: k < j < |records| ==> Collapse(records[j].recordId) != id
  }

  lemma {:induction false} LearnedIsLast(records: seq<SeedRecord>, id: string)
    ensures id in LearnedById(records) <==> exists k :: 0 <= k < |records| && Collapse(records[k].recordId) == id
    ensures id in LearnedById(records) ==> IsLearned(records, id, LearnedById(records)[id])
  {
    if records != [] {
      var n := |records| - 1;
      LearnedIsLast(records[..n], id);
      if Collapse(records[n].recordId) == id {
        assert IsLast(records, id, n);
      } else if id in LearnedById(records[..n]) {
        var k :| IsLast(records[..n], id, k) && records[..n][k] == LearnedById(records[..n])[id];
        StillLast(records, id, k);
      } else {
        assert forall k :: 0 <= k < n ==> records[..n][k] == records[k];
      }
    }
  }

  lemma {:induction false} StillLast(records: seq<SeedRecord>, id: string, k: int)
    requires records != [] && IsLast(records[..|records| - 1], id, k) && Collapse(records[|records| - 1].recordId) != id
    ensures IsLast(records, id, k) && records[..|records| - 1][k] == records[k]
  {
    assert forall j :: 0 <= j < |records| - 1 ==> records[..|records| - 1][j] == records[j];
  }

  /** The record has an id, and its learned record has the same text and group. */
  ghost predicate IsBound(record: SeedRecord, learnedRecords: seq<SeedRecord>) {
    && !Blank(record.recordId)
    && exists own :: IsLearned(learnedRecords, Collapse(record.recordId), own) && SameSource(own, record)
  }

  predicate SameSource(own: SeedRecord, record: SeedRecord) {
    own.textSha == record.textSha && own.splitGroup == record.splitGroup
  }

  /** Every candidate of a record with a text is found in it. */
  predicate AllOccur(record: SeedRecord) {
    record.requirementText != "" ==> forall k :: 0 <= k < |record.shadowCandidates| && !Blank(record.shadowCandidates[k]) ==>
      CandidateSpan(record.requirementText, Collapse(record.shadowCandidates[k])).Success?
  }

  /** A record that stops nothing. */
  ghost predicate IsSound(record: SeedRecord, learnedRecords: seq<SeedRecord>) {
    IsBound(record, learnedRecords) && AllOccur(record)
  }

  lemma {:induction false} CandidatesFaultMeans(text: string, candidates: seq<string>)
    ensures CandidatesFault(text, candidates) == None <==>
      forall k :: 0 <= k < |candidates| ==> CandidateSpan(text, candidates[k]).Success?
    ensures CandidatesFault(text, candidates).Some? ==> exists k ::
      && 0 <= k < |candidates| && CandidateSpan(text, candidates[k]).Failure?
      && CandidatesFault(text, candidates) == Some(CandidateStop(CandidateSpan(text, candidates[k]).error))
      && forall j :: 0 <= j < k ==> CandidateSpan(text, candidates[j]).Success?
  {
    if candidates != [] {
      var rest := candidates[1..];
      CandidatesFaultMeans(text, rest);
      assert forall k :: 0 <= k < |rest| ==> rest[k] == candidates[k + 1];
      if CandidateSpan(text, candidates[0]).Success? && CandidatesFault(text, rest).Some? {
        var k :| 0 <= k < |rest| && CandidateSpan(text, rest[k]).Failure?
          && CandidatesFault(text, rest) == Some(CandidateStop(CandidateSpan(text, rest[k]).error))
          && forall j :: 0 <= j < k ==> CandidateSpan(text, rest[j]).Success?;
        assert candidates[k + 1] == rest[k];
      }
    }
  }

  /** Which fault of its own a record has, in the order of the checks. */
  lemma {:induction false} RecordFaultMeans(record: SeedRecord, learnedRecords: seq<SeedRecord>)
    ensures var fault, id := RecordFault(record, LearnedById(learnedRecords)), Collapse(record.recordId);
      var known := !Blank(record.recordId) && exists k :: 0 <= k < |learnedRecords| && Collapse(learnedRecords[k].recordId) == id;
      && (fault == Some(RecordIdMissing) <==> Blank(record.recordId))
      && (fault == Some(LearnedRecordMissing(id)) <==> !Blank(record.recordId) && !known)
      && forall own :: known && IsLearned(learnedRecords, id, own) ==>
           && (fault == Some(TextDrift(id)) <==> own.textSha != record.textSha)
           && (fault == Some(SplitGroupDrift(id)) <==> own.textSha == record.textSha && own.splitGroup != record.splitGroup)
           && (fault == None <==> own.textSha == record.textSha && own.splitGroup == record.splitGroup)
  {
    var learned, id := LearnedById(learnedRecords), Collapse(record.recordId);
    CollapseBlank(record.recordId);
    LearnedIsLast(learnedRecords, id);
    forall own | IsLearned(learnedRecords, id, own)
      ensures id in learned && own == learned[id]
    {
      LearnedIsUnique(learnedRecords, id, own, learned[id]);
    }
  }

  lemma {:induction false} LearnedIsUnique(records: seq<SeedRecord>, id: string, a: SeedRecord, b: SeedRecord)
    requires IsLearned(records, id, a) && IsLearned(records, id, b)
    ensures a == b
  {
  }

  lemma {:induction false} SoundExactly(record: SeedRecord, learnedRecords: seq<SeedRecord>)
    ensures IsSound(record, learnedRecords) <==>
      && RecordFault(record, LearnedById(learnedRecords)) == None
      && CandidatesFault(record.requirementText, CandidatesOf(record)) == None
  {
    BoundExactly(record, learnedRecords);
    OccurExactly(record);
  }

  lemma {:induction false} BoundExactly(record: SeedRecord, learnedRecords: seq<SeedRecord>)
    ensures IsBound(record, learnedRecords) <==> RecordFault(record, LearnedById(learnedRecords)) == None
  {
    var learned, id := LearnedById(learnedRecords), Collapse(record.recordId);
    CollapseBlank(record.recordId);
    LearnedIsLast(learnedRecords, id);
    if own :| IsLearned(learnedRecords, id, own) && SameSource(own, record) {
      LearnedIsUnique(learnedRecords, id, own, learned[id]);
    }
    if RecordFault(record, learned) == None {
      assert IsLearned(learnedRecords, id, learned[id]) && SameSource(learned[id], record);
    }
  }

  lemma {:induction false} OccurExactly(record: SeedRecord)
    ensures AllOccur(record) <==> CandidatesFault(record.requirementText, CandidatesOf(record)) == None
  {
    CandidatesFaultMeans(record.requirementText, CandidatesOf(record));
    if record.requirementText != "" {
      ShadowCandidates(record);
      var candidates := CandidatesOf(record);
      if AllOccur(record) {
        forall k | 0 <= k < |candidates|
          ensures CandidateSpan(record.requirementText, candidates[k]).Success?
        {
          assert candidates[k] in candidates;
        }
      }
    }
  }

  lemma {:induction false} ShadowCandidates(record: SeedRecord)
    requires record.requirementText != ""
    ensures forall k :: 0 <= k < |record.shadowCandidates| && !Blank(record.shadowCandidates[k]) ==>
      Collapse(record.shadowCandidates[k]) in CandidatesOf(record)
    ensures forall c :: c in CandidatesOf(record) ==> exists k ::
      0 <= k < |record.shadowCandidates| && !Blank(record.shadowCandidates[k]) && Collapse(record.shadowCandidates[k]) == c
  {
    var values := record.shadowCandidates;
    forall k | 0 <= k < |values| && !Blank(values[k])
      ensures Collapse(values[k]) in CandidatesOf(record)
    {
      CollapseBlank(values[k]);
      StringListMembers(values, Collapse(values[k]));
    }
    forall c | c in CandidatesOf(record)
      ensures exists k :: 0 <= k < |values| && !Blank(values[k]) && Collapse(values[k]) == c
    {
      StringListMembers(values, c);
      var k :| 0 <= k < |values| && Collapse(values[k]) == c;
      CollapseBlank(values[k]);
    }
  }

  lemma {:induction false} FaultOfOne(record: SeedRecord, learnedRecords: seq<SeedRecord>)
    ensures var learned := LearnedById(learnedRecords);
      && (IsSound(record, learnedRecords) <==>
            RecordFault(record, learned) == None && CandidatesFault(record.requirementText, CandidatesOf(record)) == None)
      && Fault([record], learned) ==
           if RecordFault(record, learned).Some? then RecordFault(record, learned)
           else CandidatesFault(record.requirementText, CandidatesOf(record))
  {
    SoundExactly(record, learnedRecords);
    assert [record][1..] == [];
  }

  /** The build goes through exactly if every record is sound; otherwise it reports the first unsound one. */
  lemma {:induction false} FaultIsFirst(records: seq<SeedRecord>, learnedRecords: seq<SeedRecord>)
    ensures var fault := Fault(records, LearnedById(learnedRecords));
      && (fault == None <==> forall i :: 0 <= i < |records| ==> IsSound(records[i], learnedRecords))
      && (fault.Some? ==> exists i ::
            && 0 <= i < |records| && Fault([records[i]], LearnedById(learnedRecords)) == fault
            && !IsSound(records[i], learnedRecords) && forall j :: 0 <= j < i ==> IsSound(records[j], learnedRecords))
  {
    var learned := LearnedById(learnedRecords);
    if records != [] {
      var rest := records[1..];
      FaultIsFirst(rest, learnedRecords);
      FaultOfOne(records[0], learnedRecords);
      assert forall k :: 0 <= k < |rest| ==> rest[k] == records[k + 1];
      if IsSound(records[0], learnedRecords) && Fault(rest, learned).Some? {
        var i :| 0 <= i < |rest| && Fault([rest[i]], learned) == Fault(rest, learned)
          && !IsSound(rest[i], learnedRecords) && forall j :: 0 <= j < i ==> IsSound(rest[j], learnedRecords);
        assert records[i + 1] == rest[i];
      }
    }
  }

  /** The row comes from a record of the seed and the learned record of the same id. */
  ghost predicate IsQueued(row: Row, gazetteer: seq<SeedRecord>, learnedRecords: seq<SeedRecord>, radius: nat, idOf: IdFunction) {
    exists record, own :: record in gazetteer && IsLearned(learnedRecords, Collapse(record.recordId), own)
      && Grounded(row, record, own, radius, idOf)
  }

  lemma {:induction false} GroundedIsQueued(row: Row, record: SeedRecord, gazetteer: seq<SeedRecord>, learnedRecords: seq<SeedRecord>,
                                            radius: nat, idOf: IdFunction)
    requires record in gazetteer && GroundedIn(row, record, LearnedById(learnedRecords), radius, idOf)
    ensures IsQueued(row, gazetteer, learnedRecords, radius, idOf)
  {
    LearnedIsLast(learnedRecords, Collapse(record.recordId));
  }

  /**
   * Every queued row is grounded: its evidence is the slice at its span and collapses to a candidate
   * of its record, its context is the exact window, and its stratum is read off its record and the learned record of
   * the same id. No id is queued twice, and `min(limit, n)` of the `n` distinct rows are queued.
   */
  lemma {:induction false} QueueIsGrounded(gazetteer: seq<SeedRecord>, learnedRecords: seq<SeedRecord>, limit: nat, radius: nat, idOf: IdFunction)
    requires Fault(gazetteer, LearnedById(learnedRecords)) == None
    ensures var candidates := FirstById([], AllRows(gazetteer, LearnedById(learnedRecords), radius, idOf));
      var selected := Selection(candidates, limit);
      && DistinctIds(selected)
      && |selected| == (if limit < |candidates| then limit else |candidates|)
      && forall row: Row :: row in selected ==> IsQueued(row, gazetteer, learnedRecords, radius, idOf)
  {
    var learned := LearnedById(learnedRecords);
    var rows := AllRows(gazetteer, learned, radius, idOf);
    AllRowsAreGrounded(gazetteer, learned, radius, idOf);
    FirstByIdIsDistinct([], rows);
    SelectionSize(FirstById([], rows), limit);
    forall row: Row | row in Selection(FirstById([], rows), limit)
      ensures IsQueued(row, gazetteer, learnedRecords, radius, idOf)
    {
      var record :| record in gazetteer && GroundedIn(row, record, learned, radius, idOf);
      GroundedIsQueued(row, record, gazetteer, learnedRecords, radius, idOf);
    }
  }

  /** When the queue is built, and what its rows are then. */
  lemma {:induction false} QueueMeans(gazetteer: seq<SeedRecord>, learnedRecords: seq<SeedRecord>, limit: nat, radius: nat, idOf: IdFunction)
    ensures var learned := LearnedById(learnedRecords);
      var selected := Selection(FirstById([], AllRows(gazetteer, learned, radius, idOf)), limit);
      && (Fault(gazetteer, learned) == None <==> forall i :: 0 <= i < |gazetteer| ==> IsSound(gazetteer[i], learnedRecords))
      && (Fault(gazetteer, learned) == None ==>
            && DistinctIds(selected)
            && forall row: Row :: row in selected ==> IsQueued(row, gazetteer, learnedRecords, radius, idOf))
  {
    FaultIsFirst(gazetteer, learnedRecords);
    if Fault(gazetteer, LearnedById(learnedRecords)) == None {
      QueueIsGrounded(gazetteer, learnedRecords, limit, radius, idOf);
    }
  }

  /** Every listed candidate of every record with a text is represented among the rows that compete for selection. */
  lemma {:induction false} EveryCandidateCompetes(gazetteer: seq<SeedRecord>, learnedRecords: seq<SeedRecord>, radius: nat, idOf: IdFunction,
                                                  record: SeedRecord, k: nat)
    requires Fault(gazetteer, LearnedById(learnedRecords)) == None
    requires record in gazetteer && record.requirementText != ""
    requires k < |record.shadowCandidates| && !Blank(record.shadowCandidates[k])
    ensures exists row: Row, kept: Row ::
      && row.candidate == Collapse(record.shadowCandidates[k])
      && GroundedIn(row, record, LearnedById(learnedRecords), radius, idOf)
      && kept in FirstById([], AllRows(gazetteer, LearnedById(learnedRecords), radius, idOf)) && kept.id == row.id
  {
    var learned := LearnedById(learnedRecords);
    var rows := AllRows(gazetteer, learned, radius, idOf);
    ShadowCandidates(record);
    var row := AllCandidatesHaveRows(gazetteer, learned, radius, idOf, record, Collapse(record.shadowCandidates[k]));
    FirstByIdIsDistinct([], rows);
    assert row.id in Ids(FirstById([], rows));
    var kept :| kept in FirstById([], rows) && kept.id == row.id;
  }
}
