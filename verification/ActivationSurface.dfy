/** The active surface after an activation is a function of the proof cohort. */
module ActivationSurface {
  import opened Wrappers
  import opened SourceActivation

  // ---------- strings ----------

  lemma {:induction false} CohortSourcesAreGeneric(row: ProofRow)
    ensures IsGeneric(SourceOf(row)) && !IsSensor(SourceOf(row))
  {
    var s := SourceOf(row);
    assert s[0] == 'g';
    assert forall sensor :: sensor in SENSORS ==> sensor[0] != 'g';
  }

  lemma {:induction false} SensorsAreNotGeneric(source: string)
    requires IsSensor(source)
    ensures !IsGeneric(source)
  {
    assert SOURCE_PREFIX[0] == 'g';
    assert forall sensor :: sensor in SENSORS ==> sensor[0] != 'g';
  }

  lemma {:induction false} NamesDiffer(a: ProofRow, b: ProofRow)
    requires a.companyKey != b.companyKey
    ensures NameOf(a) != NameOf(b) && SourceOf(a) != SourceOf(b)
  {
    assert NameOf(a)[|PROFILE_PREFIX|..] == a.companyKey && NameOf(b)[|PROFILE_PREFIX|..] == b.companyKey;
    assert SourceOf(a)[|SOURCE_PREFIX|..] == a.companyKey && SourceOf(b)[|SOURCE_PREFIX|..] == b.companyKey;
  }

  // ---------- the loop over the cohort ----------

  lemma {:induction false} ProfileIdOf(tables: Tables, id: int)
    requires Valid(tables) && id in tables.profiles
    ensures ProfileId(tables, tables.profiles[id].name) == id
  {
    assert IsNamed(tables.profiles, tables.profiles[id].name, id);
  }

  /** The row's profile is active under its own name and source, and its only active term is `*`. */
  ghost predicate Live(tables: Tables, row: ProofRow) {
    var p := ProfileId(tables, NameOf(row));
    && p in tables.profiles && tables.profiles[p] == ActiveProfile(row)
    && forall term :: (p, term) in tables.terms && tables.terms[(p, term)] <==> term == NEUTRAL_TERM
  }

  ghost predicate Cohort(done: seq<ProofRow>, profile: Profile) {
    exists k :: 0 <= k < |done| && profile == ActiveProfile(done[k])
  }

  /** Active profiles other than sensors are exactly those of the rows done so far. */
  ghost predicate LiveExactly(tables: Tables, done: seq<ProofRow>) {
    && Valid(tables)
    && (forall k :: 0 <= k < |done| ==> Live(tables, done[k]))
    && (forall p :: p in tables.profiles && tables.profiles[p].active && !IsSensor(tables.profiles[p].source) ==>
          Cohort(done, tables.profiles[p]))
  }

  lemma {:induction false} ActivateRowIsValid(tables: Tables, row: ProofRow)
    requires Valid(tables)
    ensures Valid(ActivateRow(tables, row))
    ensures ProfileId(ActivateRow(tables, row), NameOf(row)) == ProfileId(tables, NameOf(row))
  {
    var id := ProfileId(tables, NameOf(row));
    assert id in tables.profiles ==> IsNamed(tables.profiles, NameOf(row), id);
    var after := ActivateRow(tables, row);
    forall a | a in tables.profiles && tables.profiles[a].name == NameOf(row)
      ensures a == id
    {
      assert IsNamed(tables.profiles, NameOf(row), a);
    }
    ProfileIdOf(after, id);
  }

  /** Activating a row makes its profile active under its own name and source, with `*` as the only active term. */
  lemma {:induction false} ActivateRowMakesLive(tables: Tables, row: ProofRow)
    requires Valid(tables)
    ensures Live(ActivateRow(tables, row), row)
  {
    ActivateRowIsValid(tables, row);
  }

  /** Activating one row leaves the profiles of the others live. */
  lemma {:induction false} OthersStayLive(tables: Tables, row: ProofRow, other: ProofRow)
    requires Valid(tables) && Live(tables, other) && row.companyKey != other.companyKey
    ensures Live(ActivateRow(tables, row), other)
  {
    NamesDiffer(row, other);
    ActivateRowIsValid(tables, row);
    var p := ProfileId(tables, NameOf(other));
    var after := ActivateRow(tables, row);
    var id := ProfileId(tables, NameOf(row));
    assert id in tables.profiles ==> IsNamed(tables.profiles, NameOf(row), id);
    assert p != id;
    ProfileIdOf(after, p);
    forall term
      ensures (p, term) in after.terms && after.terms[(p, term)] <==> (p, term) in tables.terms && tables.terms[(p, term)]
    {
    }
  }

  lemma {:induction false} ActivateRowExtends(tables: Tables, done: seq<ProofRow>, row: ProofRow)
    requires LiveExactly(tables, done) && forall k :: 0 <= k < |done| ==> done[k].companyKey != row.companyKey
    ensures LiveExactly(ActivateRow(tables, row), done + [row])
  {
    var after, more := ActivateRow(tables, row), done + [row];
    ActivateRowIsValid(tables, row);
    ActivateRowMakesLive(tables, row);
    forall k | 0 <= k < |more|
      ensures Live(after, more[k])
    {
      if k < |done| { OthersStayLive(tables, row, done[k]); }
    }
    forall p | p in after.profiles && after.profiles[p].active && !IsSensor(after.profiles[p].source)
      ensures Cohort(more, after.profiles[p])
    {
      if p == ProfileId(tables, NameOf(row)) {
        assert more[|done|] == row;
      } else {
        var k :| 0 <= k < |done| && tables.profiles[p] == ActiveProfile(done[k]);
        assert more[k] == done[k];
      }
    }
  }

  lemma {:induction false} ActivateRowsExtend(tables: Tables, done: seq<ProofRow>, rows: seq<ProofRow>)
    requires LiveExactly(tables, done) && DistinctRows(done + rows)
    ensures LiveExactly(ActivateRows(tables, rows), done + rows)
    decreases |rows|
  {
    if rows == [] {
      assert done + rows == done;
    } else {
      var all := done + rows;
      assert all == (done + [rows[0]]) + rows[1..];
      forall k | 0 <= k < |done|
        ensures done[k].companyKey != rows[0].companyKey
      {
        assert all[k] == done[k] && all[|done|] == rows[0];
      }
      ActivateRowExtends(tables, done, rows[0]);
      ActivateRowsExtend(ActivateRow(tables, rows[0]), done + [rows[0]], rows[1..]);
    }
  }

  /** After the set-based statements no profile but a sensor's is active. */
  lemma {:induction false} PreparedIsQuiet(tables: Tables, rows: seq<ProofRow>, projection: map<int, Projection>)
    requires Valid(tables)
    requires UniqueCompanyKeys(projection)
    ensures LiveExactly(Prepared(tables, rows, projection), [])
  {
    var prepared := Prepared(tables, rows, projection);
    forall p | p in prepared.profiles
      ensures prepared.profiles[p].name == tables.profiles[p].name
      ensures !IsSensor(prepared.profiles[p].source) ==> !prepared.profiles[p].active
    {
    }
  }

  /** The profiles and terms after an activation: live for exactly the cohort. */
  lemma {:induction false} ActivationIsLiveExactly(tables: Tables, rows: seq<ProofRow>)
    requires Valid(tables) && DistinctRows(rows) && Activate(tables, rows).Some?
    ensures LiveExactly(Activate(tables, rows).value, rows)
  {
    var projection := Sync(tables.projection, rows).value;
    SyncKeepsUnique(tables.projection, rows);
    PreparedIsQuiet(tables, rows, projection);
    assert [] + rows == rows;
    ActivateRowsExtend(Prepared(tables, rows, projection), [], rows);
  }

  // ---------- candidate status ----------

  lemma {:induction false} ActivateRowsFrame(tables: Tables, rows: seq<ProofRow>)
    ensures var after := ActivateRows(tables, rows);
      && after.projection == tables.projection
      && after.status.Keys == tables.status.Keys
      && forall id :: id in tables.status ==> after.status[id] == if id in Ids(rows) then ACTIVE else tables.status[id]
    decreases |rows|
  {
    if rows != [] {
      assert rows == [rows[0]] + rows[1..];
      assert Ids(rows) == {rows[0].candidateId} + Ids(rows[1..]);
      ActivateRowsFrame(ActivateRow(tables, rows[0]), rows[1..]);
    }
  }

  // ---------- the closed form ----------

  datatype Surface = Surface(
    projection: map<int, Projection>,
    activeCandidates: set<int>,
    activeProfiles: set<Profile>,
    activeTerms: set<(string, string)>)

  /** What the pipeline runs on: everything active except the sensors. */
  ghost function SurfaceOf(tables: Tables): Surface {
    Surface(
      tables.projection,
      set id | id in tables.status && tables.status[id] == ACTIVE,
      set p | p in tables.profiles && tables.profiles[p].active && !IsSensor(tables.profiles[p].source) :: tables.profiles[p],
      set t | t in tables.terms && tables.terms[t] && t.0 in tables.profiles
              && tables.profiles[t.0].active && !IsSensor(tables.profiles[t.0].source) :: (tables.profiles[t.0].name, t.1))
  }

  ghost function CohortSurface(rows: seq<ProofRow>): Surface {
    Surface(
      CohortProjection(rows),
      Ids(rows),
      set row | row in rows :: ActiveProfile(row),
      set row | row in rows :: (NameOf(row), NEUTRAL_TERM))
  }

  lemma {:induction false} LiveProfilesAreCohort(tables: Tables, rows: seq<ProofRow>)
    requires LiveExactly(tables, rows)
    ensures SurfaceOf(tables).activeProfiles == CohortSurface(rows).activeProfiles
  {
    var live, cohort := SurfaceOf(tables).activeProfiles, CohortSurface(rows).activeProfiles;
    forall profile | profile in live
      ensures profile in cohort
    {
      var k :| 0 <= k < |rows| && profile == ActiveProfile(rows[k]);
      assert rows[k] in rows;
    }
    forall profile | profile in cohort
      ensures profile in live
    {
      var row :| row in rows && profile == ActiveProfile(row);
      var k :| 0 <= k < |rows| && rows[k] == row;
      CohortSourcesAreGeneric(row);
      assert Live(tables, rows[k]);
      var p := ProfileId(tables, NameOf(row));
      assert tables.profiles[p] in live;
    }
  }

  lemma {:induction false} LiveTermsAreNeutral(tables: Tables, rows: seq<ProofRow>)
    requires LiveExactly(tables, rows)
    ensures SurfaceOf(tables).activeTerms == CohortSurface(rows).activeTerms
  {
    var live, cohort := SurfaceOf(tables).activeTerms, CohortSurface(rows).activeTerms;
    forall pair | pair in live
      ensures pair in cohort
    {
      var t :| t in tables.terms && tables.terms[t] && t.0 in tables.profiles && tables.profiles[t.0].active
        && !IsSensor(tables.profiles[t.0].source) && pair == (tables.profiles[t.0].name, t.1);
      var p := t.0;
      assert p in tables.profiles && tables.profiles[p].active && !IsSensor(tables.profiles[p].source);
      var k :| 0 <= k < |rows| && tables.profiles[p] == ActiveProfile(rows[k]);
      ProfileIdOf(tables, p);
      assert Live(tables, rows[k]) && (t.0, t.1) == t;
      assert rows[k] in rows;
    }
    forall pair | pair in cohort
      ensures pair in live
    {
      var row :| row in rows && pair == (NameOf(row), NEUTRAL_TERM);
      var k :| 0 <= k < |rows| && rows[k] == row;
      CohortSourcesAreGeneric(row);
      assert Live(tables, rows[k]);
      var p := ProfileId(tables, NameOf(row));
      assert (p, NEUTRAL_TERM) in tables.terms && tables.terms[(p, NEUTRAL_TERM)];
    }
  }

  /** A rollback has two causes: a row without its candidate, or a company key still taken. */
  lemma {:induction false} ActivationFailsExactly(tables: Tables, rows: seq<ProofRow>)
    requires DistinctRows(rows)
    ensures Activate(tables, rows) == None <==> !(Ids(rows) <= tables.status.Keys) || Clash(tables.projection, rows)
  {
    SyncFailsOnClash(tables.projection, rows);
  }

  /** The candidates in `active_controlled` afterwards are those of the cohort; no candidate is lost. */
  lemma {:induction false} ActiveCandidatesAreCohort(tables: Tables, rows: seq<ProofRow>)
    requires Activate(tables, rows).Some?
    ensures var after := Activate(tables, rows).value;
      after.status.Keys == tables.status.Keys && SurfaceOf(after).activeCandidates == Ids(rows)
  {
    var prepared := Prepared(tables, rows, Sync(tables.projection, rows).value);
    DemotedAreNotActive(tables.status, rows);
    ActivateRowsFrame(prepared, rows);
    var after := ActivateRows(prepared, rows);
    assert forall id :: id in Ids(rows) ==> id in after.status && after.status[id] == ACTIVE;
    assert forall id :: id in after.status && id !in Ids(rows) ==> after.status[id] != ACTIVE;
    assert SurfaceOf(after).activeCandidates == Ids(rows);
  }

  lemma {:induction false} DemotedAreNotActive(status: map<int, string>, rows: seq<ProofRow>)
    ensures Demote(status, rows).Keys == status.Keys
    ensures forall id :: id in status && id !in Ids(rows) ==> Demote(status, rows)[id] != ACTIVE
  {
    assert |CANDIDATE| != |ACTIVE|;
  }

  /**
   * After a successful activation the active surface is that of the cohort: the projection, the
   * active candidates, one active profile per source, and `*` as the only active term of each.
   */
  lemma {:induction false} ActivationIsClosedForm(tables: Tables, rows: seq<ProofRow>)
    requires Valid(tables) && DistinctRows(rows) && Activate(tables, rows).Some?
    ensures var after := Activate(tables, rows).value;
      Valid(after) && SurfaceOf(after) == CohortSurface(rows) && after.status.Keys == tables.status.Keys
  {
    var after := Activate(tables, rows).value;
    ActivationIsLiveExactly(tables, rows);
    LiveProfilesAreCohort(after, rows);
    LiveTermsAreNeutral(after, rows);
    ActiveCandidatesAreCohort(tables, rows);
    ProjectionIsCohort(tables, rows);
  }

  lemma {:induction false} ProjectionIsCohort(tables: Tables, rows: seq<ProofRow>)
    requires DistinctRows(rows) && Activate(tables, rows).Some?
    ensures Activate(tables, rows).value.projection == CohortProjection(rows)
  {
    SyncIsCohort(tables.projection, rows);
    ActivateRowsFrame(Prepared(tables, rows, Sync(tables.projection, rows).value), rows);
  }

  /** Activating one cohort and then another leaves the active surface of the second alone. */
  lemma {:induction false} LastActivationWins(tables: Tables, first: seq<ProofRow>, second: seq<ProofRow>)
    requires Valid(tables) && DistinctRows(first) && DistinctRows(second)
    requires Activate(tables, first).Some? && Activate(Activate(tables, first).value, second).Some?
    ensures SurfaceOf(Activate(Activate(tables, first).value, second).value) == CohortSurface(second)
    ensures Activate(tables, second).Some? ==>
      SurfaceOf(Activate(tables, second).value) == SurfaceOf(Activate(Activate(tables, first).value, second).value)
  {
    ActivationIsClosedForm(tables, first);
    ActivationIsClosedForm(Activate(tables, first).value, second);
    if Activate(tables, second).Some? { ActivationIsClosedForm(tables, second); }
  }

  /** Repeating an activation succeeds and changes nothing on the active surface. */
  lemma {:induction false} ActivationRepeats(tables: Tables, rows: seq<ProofRow>)
    requires Valid(tables) && DistinctRows(rows) && Activate(tables, rows).Some?
    ensures var after := Activate(tables, rows).value;
      Activate(after, rows).Some? && SurfaceOf(Activate(after, rows).value) == SurfaceOf(after)
  {
    var after := Activate(tables, rows).value;
    ActivationIsClosedForm(tables, rows);
    CohortProjectionEntries(rows);
    StableKeysNeverClash(after.projection, rows);
    ActivationFailsExactly(after, rows);
    ActivationIsClosedForm(after, rows);
  }

  // ---------- the counts that `main` checks, and the sensors ----------

  ghost function LegacyActive(tables: Tables): set<int> {
    set p | p in tables.profiles && tables.profiles[p].active && IsLegacy(tables.profiles[p].source)
  }

  ghost function GenericActive(tables: Tables): set<int> {
    set p | p in tables.profiles && tables.profiles[p].active && IsGeneric(tables.profiles[p].source)
  }

  lemma {:induction false} SetOfDistinct<T>(s: seq<T>)
    requires forall i, j :: 0 <= i < j < |s| ==> s[i] != s[j]
    ensures |set x | x in s| == |s|
  {
    if s != [] {
      SetOfDistinct(s[1..]);
      assert s == [s[0]] + s[1..];
      assert (set x | x in s) == {s[0]} + (set x | x in s[1..]);
    }
  }

  /** For distinct candidates the three post-counts hold: no legacy profile active, and a profile and a projection per row. */
  lemma {:induction false} PostCountsHold(tables: Tables, rows: seq<ProofRow>)
    requires Valid(tables) && DistinctRows(rows) && Activate(tables, rows).Some?
    ensures CountsHold(Activate(tables, rows).value, rows)
  {
    var after := Activate(tables, rows).value;
    ActivationIsLiveExactly(tables, rows);
    GenericCount(after, rows);
    ProjectionIsCohort(tables, rows);
    ProjectionCount(rows);
  }

  /** The three checks that `main` makes after the commit. */
  ghost predicate CountsHold(tables: Tables, rows: seq<ProofRow>) {
    LegacyActive(tables) == {} && |GenericActive(tables)| == |rows| && |tables.projection| == |rows|
  }

  /** Exactly for distinct candidates: a cohort that names a candidate twice is committed and only then reported as wrong. */
  lemma {:induction false} PostCountsHoldExactly(tables: Tables, rows: seq<ProofRow>)
    requires Valid(tables) && Activate(tables, rows).Some?
    ensures CountsHold(Activate(tables, rows).value, rows) <==> DistinctIds(rows)
  {
    if DistinctIds(rows) {
      WrittenKeysDiffer(Kept(tables.projection, rows), rows);
      PostCountsHold(tables, rows);
    } else {
      SyncKeepsUnique(tables.projection, rows);
      ActivateRowsFrame(Prepared(tables, rows, Sync(tables.projection, rows).value), rows);
      var after := Activate(tables, rows).value;
      assert |after.projection.Keys| == |after.projection|;
      RepeatedIdsAreFewer(rows);
    }
  }

  lemma {:induction false} IdsAreAtMost(rows: seq<ProofRow>)
    ensures |Ids(rows)| <= |rows|
  {
    if rows != [] {
      IdsAreAtMost(rows[1..]);
      assert rows == [rows[0]] + rows[1..];
      assert Ids(rows) == {rows[0].candidateId} + Ids(rows[1..]);
    }
  }

  lemma {:induction false} RepeatedIdsAreFewer(rows: seq<ProofRow>)
    requires !DistinctIds(rows)
    ensures |Ids(rows)| < |rows|
  {
    var rest := rows[1..];
    assert rows == [rows[0]] + rest;
    assert Ids(rows) == {rows[0].candidateId} + Ids(rest);
    if rows[0].candidateId in Ids(rest) {
      IdsAreAtMost(rest);
      assert Ids(rows) == Ids(rest);
    } else {
      forall k | 0 < k < |rows|
        ensures rows[k].candidateId != rows[0].candidateId
      {
        assert rows[k] == rest[k - 1] && rest[k - 1] in rest;
      }
      var i, j :| 0 <= i < j < |rows| && rows[i].candidateId == rows[j].candidateId;
      assert rest[i - 1] == rows[i] && rest[j - 1] == rows[j];
      RepeatedIdsAreFewer(rest);
    }
  }

  lemma {:induction false} ProjectionCount(rows: seq<ProofRow>)
    requires DistinctRows(rows)
    ensures |CohortProjection(rows)| == |rows|
  {
    if rows != [] {
      var n := |rows| - 1;
      ProjectionCount(rows[..n]);
      CohortProjectionEntries(rows[..n]);
      assert rows[n].candidateId !in Ids(rows[..n]);
    }
  }

  lemma {:induction false} GenericCount(tables: Tables, rows: seq<ProofRow>)
    requires LiveExactly(tables, rows) && DistinctRows(rows)
    ensures LegacyActive(tables) == {} && |GenericActive(tables)| == |rows|
  {
    forall p | p in tables.profiles && tables.profiles[p].active && !IsSensor(tables.profiles[p].source)
      ensures IsGeneric(tables.profiles[p].source)
    {
      var k :| 0 <= k < |rows| && tables.profiles[p] == ActiveProfile(rows[k]);
      CohortSourcesAreGeneric(rows[k]);
    }
    assert forall p :: p in tables.profiles && tables.profiles[p].active ==> !IsLegacy(tables.profiles[p].source);
    assert LegacyActive(tables) == {};
    var ids := seq(|rows|, k requires 0 <= k < |rows| => ProfileId(tables, NameOf(rows[k])));
    forall i, j | 0 <= i < j < |rows|
      ensures ids[i] != ids[j]
    {
      NamesDiffer(rows[i], rows[j]);
      assert Live(tables, rows[i]) && Live(tables, rows[j]);
    }
    SetOfDistinct(ids);
    GenericIds(tables, rows, ids);
  }

  lemma {:induction false} GenericIds(tables: Tables, rows: seq<ProofRow>, ids: seq<int>)
    requires LiveExactly(tables, rows) && |ids| == |rows|
    requires forall k :: 0 <= k < |rows| ==> ids[k] == ProfileId(tables, NameOf(rows[k]))
    ensures GenericActive(tables) == set x | x in ids
  {
    forall p | p in GenericActive(tables)
      ensures p in ids
    {
      if IsSensor(tables.profiles[p].source) { SensorsAreNotGeneric(tables.profiles[p].source); }
      assert Cohort(rows, tables.profiles[p]);
      var k :| 0 <= k < |rows| && tables.profiles[p] == ActiveProfile(rows[k]);
      ProfileIdOf(tables, p);
      assert ids[k] == p;
    }
    forall p | p in ids
      ensures p in GenericActive(tables)
    {
      var k :| 0 <= k < |ids| && ids[k] == p;
      assert Live(tables, rows[k]);
      CohortSourcesAreGeneric(rows[k]);
    }
  }

  /** A sensor profile, unless it carries a cohort profile's name, keeps its row and its terms. */
  lemma {:induction false} SensorsUntouched(tables: Tables, rows: seq<ProofRow>, p: int)
    requires Valid(tables) && DistinctRows(rows) && Activate(tables, rows).Some?
    requires p in tables.profiles && IsSensor(tables.profiles[p].source)
    requires forall k :: 0 <= k < |rows| ==> NameOf(rows[k]) != tables.profiles[p].name
    ensures var after := Activate(tables, rows).value;
      && p in after.profiles && after.profiles[p] == tables.profiles[p]
      && forall term :: ((p, term) in after.terms <==> (p, term) in tables.terms)
                        && ((p, term) in tables.terms ==> after.terms[(p, term)] == tables.terms[(p, term)])
  {
    var projection := Sync(tables.projection, rows).value;
    SyncKeepsUnique(tables.projection, rows);
    PreparedIsQuiet(tables, rows, projection);
    SensorsAreNotGeneric(tables.profiles[p].source);
    RowsLeaveOthers(Prepared(tables, rows, projection), rows, p);
  }

  lemma {:induction false} RowsLeaveOthers(tables: Tables, rows: seq<ProofRow>, p: int)
    requires Valid(tables) && p in tables.profiles
    requires forall k :: 0 <= k < |rows| ==> NameOf(rows[k]) != tables.profiles[p].name
    ensures var after := ActivateRows(tables, rows);
      && p in after.profiles && after.profiles[p] == tables.profiles[p]
      && forall term :: ((p, term) in after.terms <==> (p, term) in tables.terms)
                        && ((p, term) in tables.terms ==> after.terms[(p, term)] == tables.terms[(p, term)])
    decreases |rows|
  {
    if rows != [] {
      ActivateRowIsValid(tables, rows[0]);
      var id := ProfileId(tables, NameOf(rows[0]));
      assert id in tables.profiles ==> IsNamed(tables.profiles, NameOf(rows[0]), id);
      RowsLeaveOthers(ActivateRow(tables, rows[0]), rows[1..], p);
    }
  }

  // ---------- row by row ----------

  /** A controlled profile of the row's company: its name, source, search settings and page. */
  predicate IsControlledProfile(profile: Profile, row: ProofRow) {
    && profile.name == "generic_origin__" + row.companyKey && profile.source == "generic_origin:" + row.companyKey
    && profile.searchTerm == None && profile.location == Some("Hannover") && profile.radius == Some(50)
    && profile.offerType == Some(1) && profile.pageSize == 1 && profile.active && profile.recurring
  }

  predicate IsProjectionOf(projection: Projection, row: ProofRow) {
    && projection.companyKey == row.companyKey && projection.sourceName == "generic_origin:" + row.companyKey
    && projection.originUrl == row.originUrl && projection.proof == row.proof
  }

  /** What each row of the cohort gets: its projection, its status and one controlled profile with `*` as its only active term. */
  lemma {:induction false} ActivationWritesRow(tables: Tables, rows: seq<ProofRow>, k: nat) returns (p: int)
    requires Valid(tables) && DistinctRows(rows) && Activate(tables, rows).Some? && k < |rows|
    ensures var after, row := Activate(tables, rows).value, rows[k];
      && row.candidateId in after.projection && IsProjectionOf(after.projection[row.candidateId], row)
      && row.candidateId in after.status && after.status[row.candidateId] == "active_controlled"
      && p in after.profiles && IsControlledProfile(after.profiles[p], row)
      && forall term :: (p, term) in after.terms && after.terms[(p, term)] <==> term == "*"
  {
    var after := Activate(tables, rows).value;
    ProjectionIsCohort(tables, rows);
    CohortProjectionEntries(rows);
    ActivationIsLiveExactly(tables, rows);
    assert Live(after, rows[k]);
    p := ProfileId(after, NameOf(rows[k]));
    assert rows[k] in rows;
    ActivateRowsFrame(Prepared(tables, rows, Sync(tables.projection, rows).value), rows);
  }

  predicate Demoted(before: string, after: string) {
    after == if before == "active_controlled" then "candidate" else before
  }

  /** Switched off, and nothing else about it changed. */
  predicate SwitchedOff(before: Profile, after: Profile) {
    after == before.(active := false, recurring := false)
  }

  /** The status of every candidate, and that no row of any table is lost. */
  lemma {:induction false} ActivationKeepsRows(tables: Tables, rows: seq<ProofRow>)
    requires Activate(tables, rows).Some?
    ensures var after := Activate(tables, rows).value;
      && after.status.Keys == tables.status.Keys
      && (forall id :: id in tables.status && (forall k :: 0 <= k < |rows| ==> rows[k].candidateId != id) ==>
            Demoted(tables.status[id], after.status[id]))
      && tables.profiles.Keys <= after.profiles.Keys && tables.terms.Keys <= after.terms.Keys
  {
    var prepared := Prepared(tables, rows, Sync(tables.projection, rows).value);
    ActivateRowsFrame(prepared, rows);
    RowsKeepRows(prepared, rows);
    forall id | id in tables.status && forall k :: 0 <= k < |rows| ==> rows[k].candidateId != id
      ensures Demoted(tables.status[id], Activate(tables, rows).value.status[id])
    {
      assert id !in Ids(rows);
    }
  }

  lemma {:induction false} RowsKeepRows(tables: Tables, rows: seq<ProofRow>)
    ensures tables.profiles.Keys <= ActivateRows(tables, rows).profiles.Keys
    ensures tables.terms.Keys <= ActivateRows(tables, rows).terms.Keys
    decreases |rows|
  {
    if rows != [] { RowsKeepRows(ActivateRow(tables, rows[0]), rows[1..]); }
  }

  /** A profile without a cohort profile's name: a sensor stays as it is, any other is switched off; its terms stay. */
  lemma {:induction false} OthersAreSwitchedOff(tables: Tables, rows: seq<ProofRow>, p: int)
    requires Valid(tables) && Activate(tables, rows).Some? && p in tables.profiles
    requires forall k :: 0 <= k < |rows| ==> "generic_origin__" + rows[k].companyKey != tables.profiles[p].name
    ensures var before, after := tables.profiles[p], Activate(tables, rows).value;
      && p in after.profiles
      && (if before.source in {"bundesagentur_fuer_arbeit", "stepstone", "indeed", "linkedin"} then after.profiles[p] == before
          else SwitchedOff(before, after.profiles[p]))
      && forall term :: ((p, term) in after.terms <==> (p, term) in tables.terms)
                        && ((p, term) in tables.terms ==> after.terms[(p, term)] == tables.terms[(p, term)])
  {
    var projection := Sync(tables.projection, rows).value;
    var prepared := Prepared(tables, rows, projection);
    SyncKeepsUnique(tables.projection, rows);
    PreparedIsQuiet(tables, rows, projection);
    if IsSensor(tables.profiles[p].source) { SensorsAreNotGeneric(tables.profiles[p].source); }
    PreparedProfile(tables, rows, projection, p);
    RowsLeaveOthers(prepared, rows, p);
  }

  lemma {:induction false} PreparedProfile(tables: Tables, rows: seq<ProofRow>, projection: map<int, Projection>, p: int)
    requires p in tables.profiles && !(IsSensor(tables.profiles[p].source) && IsGeneric(tables.profiles[p].source))
    ensures var before, after := tables.profiles[p], Prepared(tables, rows, projection).profiles;
      p in after && if IsSensor(before.source) then after[p] == before else SwitchedOff(before, after[p])
  {
  }
}
