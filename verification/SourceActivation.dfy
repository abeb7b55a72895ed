/** Activation of generic employer-origin sources from a cohort of proof-passed candidates. */
module SourceActivation {
  import opened Wrappers

  const SENSORS: set<string> := {"bundesagentur_fuer_arbeit", "stepstone", "indeed", "linkedin"}
  const SOURCE_PREFIX := "generic_origin:"
  const PROFILE_PREFIX := "generic_origin__"
  const NEUTRAL_TERM := "*"
  const ACTIVE := "active_controlled"
  const CANDIDATE := "candidate"

  /** One row of the proof cohort with its resolved origin. */
  datatype ProofRow = ProofRow(candidateId: int, companyKey: string, originUrl: string, proof: string)

  datatype Projection = Projection(companyKey: string, sourceName: string, originUrl: string, proof: string)

  datatype Profile = Profile(
    name: string,
    source: string,
    searchTerm: Option<string>,
    location: Option<string>,
    radius: Option<int>,
    offerType: Option<int>,
    pageSize: int,
    active: bool,
    recurring: bool)

  datatype Tables = Tables(
    projection: map<int, Projection>,
    status: map<int, string>,
    profiles: map<int, Profile>,
    terms: map<(int, string), bool>,
    nextProfileId: int)

  function SourceOf(row: ProofRow): string {
    SOURCE_PREFIX + row.companyKey
  }

  function NameOf(row: ProofRow): string {
    PROFILE_PREFIX + row.companyKey
  }

  function ProjectionOf(row: ProofRow): Projection {
    Projection(row.companyKey, SourceOf(row), row.originUrl, row.proof)
  }

  /** `source_name LIKE 'generic_origin:%'`, where `_` stands for any one character. */
  predicate IsGeneric(source: string) {
    |SOURCE_PREFIX| <= |source| &&
    forall i :: 0 <= i < |SOURCE_PREFIX| ==> SOURCE_PREFIX[i] == '_' || source[i] == SOURCE_PREFIX[i]
  }

  predicate IsSensor(source: string) {
    source in SENSORS
  }

  predicate IsLegacy(source: string) {
    !IsSensor(source) && !IsGeneric(source)
  }

  function Ids(rows: seq<ProofRow>): set<int> {
    set row | row in rows :: row.candidateId
  }

  /** Distinct candidates and distinct company keys. */
  predicate DistinctRows(rows: seq<ProofRow>) {
    forall i, j :: 0 <= i < j < |rows| ==>
      rows[i].candidateId != rows[j].candidateId && rows[i].companyKey != rows[j].companyKey
  }

  // ---------- the projection ----------

  /** The unique index on company keys, seen from the row about to be written. */
  predicate KeyTaken(projection: map<int, Projection>, row: ProofRow) {
    exists id :: id in projection && id != row.candidateId && projection[id].companyKey == row.companyKey
  }

  /** The upserts one after the other; `None` is a unique violation. */
  function Upserts(projection: map<int, Projection>, rows: seq<ProofRow>): Option<map<int, Projection>>
    decreases |rows|
  {
    if rows == [] then Some(projection)
    else if KeyTaken(projection, rows[0]) then None
    else Upserts(projection[rows[0].candidateId := ProjectionOf(rows[0])], rows[1..])
  }

  function Kept(projection: map<int, Projection>, rows: seq<ProofRow>): map<int, Projection> {
    map id | id in projection && id in Ids(rows) :: projection[id]
  }

  /** `_sync_active_source_projection` */
  function Sync(projection: map<int, Projection>, rows: seq<ProofRow>): Option<map<int, Projection>> {
    Upserts(Kept(projection, rows), rows)
  }

  // ---------- profiles and terms ----------

  function Retire(profile: Profile): Profile {
    profile.(active := false, recurring := false)
  }

  function RetireLegacy(profiles: map<int, Profile>): map<int, Profile> {
    map p | p in profiles :: if IsLegacy(profiles[p].source) then Retire(profiles[p]) else profiles[p]
  }

  function RetireGeneric(profiles: map<int, Profile>): map<int, Profile> {
    map p | p in profiles :: if IsGeneric(profiles[p].source) then Retire(profiles[p]) else profiles[p]
  }

  function Demote(status: map<int, string>, rows: seq<ProofRow>): map<int, string> {
    map id | id in status :: if status[id] == ACTIVE && id !in Ids(rows) then CANDIDATE else status[id]
  }

  ghost predicate IsNamed(profiles: map<int, Profile>, name: string, id: int) {
    id in profiles && profiles[id].name == name
  }

  /** The profile with the name, or the id the next insert would get. */
  ghost function ProfileId(tables: Tables, name: string): int {
    if exists id :: IsNamed(tables.profiles, name, id) then
      var id :| IsNamed(tables.profiles, name, id);
      id
    else tables.nextProfileId
  }

  function ActiveProfile(row: ProofRow): Profile {
    Profile(NameOf(row), SourceOf(row), None, Some("Hannover"), Some(50), Some(1), 1, true, true)
  }

  /** All terms of the profile off, the neutral term on. */
  function NeutralTerms(terms: map<(int, string), bool>, profile: int): map<(int, string), bool> {
    (map t | t in terms :: if t.0 == profile then false else terms[t])[(profile, NEUTRAL_TERM) := true]
  }

  ghost function ActivateRow(tables: Tables, row: ProofRow): Tables {
    var id := ProfileId(tables, NameOf(row));
    tables.(
      status := if row.candidateId in tables.status then tables.status[row.candidateId := ACTIVE] else tables.status,
      profiles := tables.profiles[id := ActiveProfile(row)],
      terms := NeutralTerms(tables.terms, id),
      nextProfileId := tables.nextProfileId + 1)
  }

  ghost function ActivateRows(tables: Tables, rows: seq<ProofRow>): Tables
    decreases |rows|
  {
    if rows == [] then tables else ActivateRows(ActivateRow(tables, rows[0]), rows[1..])
  }

  /** The tables after the set-based statements and before the loop over the cohort. */
  function Prepared(tables: Tables, rows: seq<ProofRow>, projection: map<int, Projection>): Tables {
    tables.(projection := projection, profiles := RetireGeneric(RetireLegacy(tables.profiles)), status := Demote(tables.status, rows))
  }

  /** `apply_activation`; `None` is a rollback: a row without its candidate, or a company key already taken. */
  ghost function Activate(tables: Tables, rows: seq<ProofRow>): Option<Tables> {
    if !(Ids(rows) <= tables.status.Keys) then None else
    match Sync(tables.projection, rows)
    case None => None
    case Some(projection) => Some(ActivateRows(Prepared(tables, rows, projection), rows))
  }

  /** What the schema keeps: unique profile names, ids below the sequence, terms of existing profiles. */
  ghost predicate Valid(tables: Tables) {
    && (forall a, b | a in tables.profiles && b in tables.profiles :: tables.profiles[a].name == tables.profiles[b].name ==> a == b)
    && (forall p :: p in tables.profiles ==> p < tables.nextProfileId)
    && (forall t :: t in tables.terms ==> t.0 in tables.profiles)
    && UniqueCompanyKeys(tables.projection)
  }

  ghost predicate UniqueCompanyKeys(projection: map<int, Projection>) {
    forall a, b | a in projection && b in projection :: projection[a].companyKey == projection[b].companyKey ==> a == b
  }

  // ---------- when the projection can be synchronised ----------

  /** A row is written while a later row of the cohort still holds its company key in the old projection. */
  predicate Clash(projection: map<int, Projection>, rows: seq<ProofRow>) {
    exists i, j :: 0 <= i < j < |rows| && ClashAt(projection, rows, i, j)
  }

  predicate ClashAt(projection: map<int, Projection>, rows: seq<ProofRow>, i: int, j: int)
    requires 0 <= i < |rows| && 0 <= j < |rows|
  {
    rows[j].candidateId in projection && projection[rows[j].candidateId].companyKey == rows[i].companyKey
  }

  /** What the table holds when the rows from `rows[0]` on are still to be written. */
  ghost predicate Midway(projection: map<int, Projection>, done: seq<ProofRow>, rows: seq<ProofRow>) {
    && DistinctRows(done + rows)
    && forall id :: id in projection ==>
         (exists k :: 0 <= k < |done| && done[k].candidateId == id && projection[id] == ProjectionOf(done[k]))
         || (exists k :: 0 <= k < |rows| && rows[k].candidateId == id)
  }

  lemma {:induction false} UpsertsFailOnClash(projection: map<int, Projection>, done: seq<ProofRow>, rows: seq<ProofRow>)
    requires Midway(projection, done, rows)
    ensures Upserts(projection, rows) == None <==> Clash(projection, rows)
    decreases |rows|
  {
    if rows != [] {
      var row, rest := rows[0], rows[1..];
      var all := done + rows;
      assert all == (done + [row]) + rest;
      assert forall k :: 0 <= k < |done| ==> all[k] == done[k];
      assert forall k :: 0 <= k < |rows| ==> all[|done| + k] == rows[k];
      if KeyTaken(projection, row) {
        var id :| id in projection && id != row.candidateId && projection[id].companyKey == row.companyKey;
        assert forall k :: 0 <= k < |done| ==> done[k].companyKey != row.companyKey;
        var k :| 0 <= k < |rows| && rows[k].candidateId == id;
        assert 0 < k && ClashAt(projection, rows, 0, k);
      } else {
        var next := projection[row.candidateId := ProjectionOf(row)];
        MidwayNext(projection, done, rows);
        UpsertsFailOnClash(next, done + [row], rest);
        ClashStep(projection, rows);
      }
    }
  }

  lemma {:induction false} MidwayNext(projection: map<int, Projection>, done: seq<ProofRow>, rows: seq<ProofRow>)
    requires Midway(projection, done, rows) && rows != []
    ensures Midway(projection[rows[0].candidateId := ProjectionOf(rows[0])], done + [rows[0]], rows[1..])
  {
    var row, rest := rows[0], rows[1..];
    var next, more := projection[row.candidateId := ProjectionOf(row)], done + [row];
    assert done + rows == more + rest;
    forall id | id in next
      ensures (exists k :: 0 <= k < |more| && more[k].candidateId == id && next[id] == ProjectionOf(more[k]))
              || (exists k :: 0 <= k < |rest| && rest[k].candidateId == id)
    {
      if id == row.candidateId {
        assert more[|done|] == row;
      } else if k :| 0 <= k < |done| && done[k].candidateId == id && projection[id] == ProjectionOf(done[k]) {
        assert more[k] == done[k];
      } else {
        var k :| 0 <= k < |rows| && rows[k].candidateId == id;
        assert rest[k - 1] == rows[k];
      }
    }
  }

  /** When the first row does not clash, the clashes are those of the rest. */
  lemma {:induction false} ClashStep(projection: map<int, Projection>, rows: seq<ProofRow>)
    requires rows != [] && DistinctRows(rows) && !KeyTaken(projection, rows[0])
    ensures Clash(projection, rows) <==> Clash(projection[rows[0].candidateId := ProjectionOf(rows[0])], rows[1..])
  {
    var next, rest := projection[rows[0].candidateId := ProjectionOf(rows[0])], rows[1..];
    if Clash(projection, rows) {
      var i, j :| 0 <= i < j < |rows| && ClashAt(projection, rows, i, j);
      assert rows[j].candidateId != rows[0].candidateId;
      assert i != 0;
      assert rest[i - 1] == rows[i] && rest[j - 1] == rows[j];
      assert ClashAt(next, rest, i - 1, j - 1);
    }
    if Clash(next, rest) {
      var i, j :| 0 <= i < j < |rest| && ClashAt(next, rest, i, j);
      assert rest[i] == rows[i + 1] && rest[j] == rows[j + 1];
      assert rows[j + 1].candidateId != rows[0].candidateId;
      assert ClashAt(projection, rows, i + 1, j + 1);
    }
  }

  lemma {:induction false} FirstIsNotInRest(rows: seq<ProofRow>)
    requires DistinctRows(rows) && rows != []
    ensures rows[0].candidateId !in Ids(rows[1..]) && DistinctRows(rows[1..])
    ensures Ids(rows) == {rows[0].candidateId} + Ids(rows[1..])
  {
    assert rows == [rows[0]] + rows[1..];
    forall r | r in rows[1..]
      ensures r.candidateId != rows[0].candidateId
    {
      var k :| 0 <= k < |rows[1..]| && rows[1..][k] == r;
      assert rows[k + 1] == r;
    }
  }

  lemma {:induction false} UpsertsWriteAll(projection: map<int, Projection>, rows: seq<ProofRow>)
    requires DistinctRows(rows) && Upserts(projection, rows).Some?
    ensures var after := Upserts(projection, rows).value;
      && after.Keys == projection.Keys + Ids(rows)
      && (forall k :: 0 <= k < |rows| ==> after[rows[k].candidateId] == ProjectionOf(rows[k]))
      && (forall id :: id in projection && id !in Ids(rows) ==> after[id] == projection[id])
    decreases |rows|
  {
    if rows != [] {
      var row, rest := rows[0], rows[1..];
      FirstIsNotInRest(rows);
      UpsertsWriteAll(projection[row.candidateId := ProjectionOf(row)], rest);
    }
  }

  /** For any cohort: the upserts keep the company keys unique and add exactly the cohort's candidates. */
  lemma {:induction false} UpsertsKeepUnique(projection: map<int, Projection>, rows: seq<ProofRow>)
    requires UniqueCompanyKeys(projection) && Upserts(projection, rows).Some?
    ensures UniqueCompanyKeys(Upserts(projection, rows).value)
    ensures Upserts(projection, rows).value.Keys == projection.Keys + Ids(rows)
    decreases |rows|
  {
    if rows != [] {
      assert rows == [rows[0]] + rows[1..];
      assert Ids(rows) == {rows[0].candidateId} + Ids(rows[1..]);
      UpsertsKeepUnique(projection[rows[0].candidateId := ProjectionOf(rows[0])], rows[1..]);
    }
  }

  /** For any cohort: the projection afterwards has unique company keys and exactly the cohort's candidates. */
  lemma {:induction false} SyncKeepsUnique(projection: map<int, Projection>, rows: seq<ProofRow>)
    requires UniqueCompanyKeys(projection) && Sync(projection, rows).Some?
    ensures UniqueCompanyKeys(Sync(projection, rows).value)
    ensures Sync(projection, rows).value.Keys == Ids(rows)
  {
    UpsertsKeepUnique(Kept(projection, rows), rows);
    assert Kept(projection, rows).Keys <= Ids(rows);
  }

  predicate DistinctIds(rows: seq<ProofRow>) {
    forall i, j :: 0 <= i < j < |rows| ==> rows[i].candidateId != rows[j].candidateId
  }

  /** Distinct candidates with a key in common cannot both be written. */
  lemma {:induction false} WrittenKeysDiffer(projection: map<int, Projection>, rows: seq<ProofRow>)
    requires DistinctIds(rows) && Upserts(projection, rows).Some?
    ensures DistinctRows(rows)
    ensures forall id, k :: id in projection && id !in Ids(rows) && 0 <= k < |rows| ==> projection[id].companyKey != rows[k].companyKey
    decreases |rows|
  {
    if rows != [] {
      var row, rest := rows[0], rows[1..];
      var next := projection[row.candidateId := ProjectionOf(row)];
      assert forall k :: 0 <= k < |rest| ==> rest[k] == rows[k + 1];
      WrittenKeysDiffer(next, rest);
      assert rows == [row] + rest;
      assert Ids(rows) == {row.candidateId} + Ids(rest);
      assert row.candidateId !in Ids(rest) && row.candidateId in next;
      forall id, k | id in projection && id !in Ids(rows) && 0 <= k < |rows|
        ensures projection[id].companyKey != rows[k].companyKey
      {
        if k > 0 { assert id in next && rest[k - 1] == rows[k]; }
      }
    }
  }

  lemma {:induction false} KeptClashesAlike(projection: map<int, Projection>, rows: seq<ProofRow>)
    ensures Clash(Kept(projection, rows), rows) <==> Clash(projection, rows)
  {
    forall i, j | 0 <= i < |rows| && 0 <= j < |rows|
      ensures ClashAt(Kept(projection, rows), rows, i, j) <==> ClashAt(projection, rows, i, j)
    {
      assert rows[j] in rows;
    }
  }

  /** Synchronising the projection fails exactly on a clash. */
  lemma {:induction false} SyncFailsOnClash(projection: map<int, Projection>, rows: seq<ProofRow>)
    requires DistinctRows(rows)
    ensures Sync(projection, rows) == None <==> Clash(projection, rows)
  {
    var kept := Kept(projection, rows);
    forall id | id in kept
      ensures exists k :: 0 <= k < |rows| && rows[k].candidateId == id
    {
      var row :| row in rows && row.candidateId == id;
      var k :| 0 <= k < |rows| && rows[k] == row;
    }
    assert [] + rows == rows;
    UpsertsFailOnClash(kept, [], rows);
    KeptClashesAlike(projection, rows);
  }

  /** The projection as a function of the cohort alone. */
  function CohortProjection(rows: seq<ProofRow>): map<int, Projection> {
    if rows == [] then map[]
    else
      var n := |rows| - 1;
      CohortProjection(rows[..n])[rows[n].candidateId := ProjectionOf(rows[n])]
  }

  lemma {:induction false} CohortProjectionEntries(rows: seq<ProofRow>)
    requires DistinctRows(rows)
    ensures CohortProjection(rows).Keys == Ids(rows)
    ensures forall k :: 0 <= k < |rows| ==> CohortProjection(rows)[rows[k].candidateId] == ProjectionOf(rows[k])
  {
    if rows != [] {
      var n := |rows| - 1;
      CohortProjectionEntries(rows[..n]);
      IdsOfLast(rows);
      forall k | 0 <= k < n
        ensures rows[k].candidateId in CohortProjection(rows[..n])
        ensures CohortProjection(rows[..n])[rows[k].candidateId] == ProjectionOf(rows[k])
      {
        assert rows[..n][k] == rows[k];
      }
    }
  }

  lemma {:induction false} IdsOfLast(rows: seq<ProofRow>)
    requires rows != []
    ensures Ids(rows) == Ids(rows[..|rows| - 1]) + {rows[|rows| - 1].candidateId}
    ensures forall k :: 0 <= k < |rows| - 1 ==> rows[..|rows| - 1][k] == rows[k]
  {
    assert rows == rows[..|rows| - 1] + [rows[|rows| - 1]];
  }

  /** When it succeeds, the projection afterwards is that function of the cohort, whatever was there before. */
  lemma {:induction false} SyncIsCohort(projection: map<int, Projection>, rows: seq<ProofRow>)
    requires DistinctRows(rows) && Sync(projection, rows).Some?
    ensures Sync(projection, rows).value == CohortProjection(rows)
  {
    var kept := Kept(projection, rows);
    UpsertsWriteAll(kept, rows);
    CohortProjectionEntries(rows);
    var after := Sync(projection, rows).value;
    assert kept.Keys <= Ids(rows);
    forall id | id in after
      ensures after[id] == CohortProjection(rows)[id]
    {
      var row :| row in rows && row.candidateId == id;
      var k :| 0 <= k < |rows| && rows[k] == row;
    }
  }

  /** Candidates that keep their company key never clash. */
  lemma {:induction false} StableKeysNeverClash(projection: map<int, Projection>, rows: seq<ProofRow>)
    requires DistinctRows(rows)
    requires forall k :: 0 <= k < |rows| && rows[k].candidateId in projection ==>
      projection[rows[k].candidateId].companyKey == rows[k].companyKey
    ensures !Clash(projection, rows) && Sync(projection, rows).Some?
  {
    SyncFailsOnClash(projection, rows);
  }

  /** Two candidates that swap their keys do clash: the second activation is refused. */
  lemma {:induction false} SwappedKeysClash(a: ProofRow, b: ProofRow)
    requires a.candidateId != b.candidateId && a.companyKey != b.companyKey
    ensures var swapped := [a.(companyKey := b.companyKey), b.(companyKey := a.companyKey)];
      Sync(CohortProjection([a, b]), swapped) == None
  {
    var rows := [a, b];
    var swapped := [a.(companyKey := b.companyKey), b.(companyKey := a.companyKey)];
    assert rows[0] == a && rows[1] == b && rows[1] in rows;
    CohortProjectionEntries(rows);
    assert b.candidateId in Ids(rows);
    assert swapped[1].candidateId == b.candidateId && CohortProjection(rows)[b.candidateId] == ProjectionOf(b);
    assert ClashAt(CohortProjection(rows), swapped, 0, 1);
    assert swapped[0].companyKey == CohortProjection(rows)[swapped[1].candidateId].companyKey;
    SyncFailsOnClash(CohortProjection(rows), swapped);
  }
}
