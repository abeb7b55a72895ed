/** The activation as one transaction on the four tables it writes. */
module ActivationDatabase {
  import opened SourceActivation
  import opened ActivationSurface

  class Database {
    var projection: map<int, Projection>
    var status: map<int, string>
    var profiles: map<int, Profile>
    var terms: map<(int, string), bool>
    var nextProfileId: int

    ghost function Contents(): Tables
      reads this
    {
      Tables(projection, status, profiles, terms, nextProfileId)
    }

    /** No profile and no projection yet over the given candidates. */
    constructor (status: map<int, string>)
      ensures Contents() == Tables(map[], status, map[], map[], 1) && Valid(Contents())
    {
      this.status := status;
      projection, profiles, terms, nextProfileId := map[], map[], map[], 1;
    }

    /** `_sync_active_source_projection`; on a violated constraint the caller rolls back. */
    method SyncProjection(rows: seq<ProofRow>) returns (ok: bool)
      modifies this`projection
      ensures ok <==> Ids(rows) <= status.Keys && Sync(old(projection), rows).Some?
      ensures ok ==> projection == Sync(old(projection), rows).value
    {
      ghost var before := projection;
      projection := Kept(projection, rows);
      var i := 0;
      while i < |rows|
        invariant 0 <= i <= |rows|
        invariant Upserts(projection, rows[i..]) == Sync(before, rows)
        invariant forall k :: 0 <= k < i ==> rows[k].candidateId in status
      {
        var row := rows[i];
        assert rows[i..][0] == row && rows[i..][1..] == rows[i + 1..];
        if row.candidateId !in status {
          assert row.candidateId in Ids(rows);
          return false;
        }
        if KeyTaken(projection, row) { return false; }
        projection := projection[row.candidateId := ProjectionOf(row)];
        i := i + 1;
      }
      assert forall id :: id in Ids(rows) ==> exists k :: 0 <= k < |rows| && rows[k].candidateId == id;
      return true;
    }

    /** `INSERT INTO search_profiles ... ON CONFLICT (profile_name) DO UPDATE`, then the id of the row. */
    method UpsertProfile(row: ProofRow) returns (id: int)
      requires Valid(Contents())
      modifies this`profiles, this`nextProfileId
      ensures id == ProfileId(old(Contents()), NameOf(row))
      ensures profiles == old(profiles)[id := ActiveProfile(row)] && nextProfileId == old(nextProfileId) + 1
    {
      id := nextProfileId;
      if existing :| existing in profiles && profiles[existing].name == NameOf(row) {
        assert IsNamed(profiles, NameOf(row), existing);
        id := existing;
      } else {
        assert forall other :: !IsNamed(profiles, NameOf(row), other);
      }
      profiles, nextProfileId := profiles[id := ActiveProfile(row)], nextProfileId + 1;
    }

    /** The two statements on `search_terms`. */
    method LeaveNeutralTerm(id: int)
      modifies this`terms
      ensures terms == NeutralTerms(old(terms), id)
      ensures forall term :: (id, term) in terms && terms[(id, term)] <==> term == NEUTRAL_TERM
      ensures forall t: (int, string) :: t.0 != id ==> (t in terms <==> t in old(terms)) && (t in terms ==> terms[t] == old(terms)[t])
    {
      terms := map t | t in terms :: if t.0 == id then false else terms[t];
      terms := terms[(id, NEUTRAL_TERM) := true];
    }

    /** One round of the loop over the cohort. */
    method ActivateCandidate(row: ProofRow)
      requires Valid(Contents())
      modifies this`status, this`profiles, this`terms, this`nextProfileId
      ensures Contents() == ActivateRow(old(Contents()), row) && Valid(Contents())
    {
      ghost var before := Contents();
      if row.candidateId in status {
        status := status[row.candidateId := ACTIVE];
      }
      var id := UpsertProfile(row);
      LeaveNeutralTerm(id);
      assert Contents() == ActivateRow(before, row);
      ActivateRowIsValid(before, row);
    }

    /** The loop over the cohort. */
    method ActivateCandidates(rows: seq<ProofRow>)
      requires Valid(Contents())
      modifies this`status, this`profiles, this`terms, this`nextProfileId
      ensures Contents() == ActivateRows(old(Contents()), rows) && Valid(Contents())
    {
      ghost var before := Contents();
      var i := 0;
      while i < |rows|
        invariant 0 <= i <= |rows| && Valid(Contents())
        invariant ActivateRows(Contents(), rows[i..]) == ActivateRows(before, rows)
      {
        assert rows[i..][0] == rows[i] && rows[i..][1..] == rows[i + 1..];
        ActivateCandidate(rows[i]);
        i := i + 1;
      }
    }

    /** `apply_activation` with its transaction: a violated constraint leaves every table as it was. */
    method ApplyActivation(rows: seq<ProofRow>) returns (applied: bool)
      requires Valid(Contents())
      modifies this
      ensures Valid(Contents())
      ensures applied == Activate(old(Contents()), rows).Some?
      ensures Contents() == if applied then Activate(old(Contents()), rows).value else old(Contents())
      ensures applied && DistinctRows(rows) ==> SurfaceOf(Contents()) == CohortSurface(rows)
      ensures applied ==> (CountsHold(Contents(), rows) <==> DistinctIds(rows))
    {
      ghost var before := Contents();
      ActivationMeans(before, rows);
      var savedProjection := projection;
      applied := SyncProjection(rows);
      if !applied {
        projection := savedProjection;
        return;
      }
      profiles := RetireLegacy(profiles);
      profiles := RetireGeneric(profiles);
      status := Demote(status, rows);
      ghost var prepared := Contents();
      assert prepared == Prepared(before, rows, projection);
      PreparedStaysValid(before, rows);
      ActivateCandidates(rows);
    }
  }

  lemma {:induction false} ActivationMeans(tables: Tables, rows: seq<ProofRow>)
    requires Valid(tables)
    ensures Activate(tables, rows).Some? ==>
      && (DistinctRows(rows) ==> SurfaceOf(Activate(tables, rows).value) == CohortSurface(rows))
      && (CountsHold(Activate(tables, rows).value, rows) <==> DistinctIds(rows))
  {
    if Activate(tables, rows).Some? {
      PostCountsHoldExactly(tables, rows);
      if DistinctRows(rows) { ActivationIsClosedForm(tables, rows); }
    }
  }

  lemma {:induction false} PreparedStaysValid(tables: Tables, rows: seq<ProofRow>)
    requires Valid(tables) && Sync(tables.projection, rows).Some?
    ensures Valid(Prepared(tables, rows, Sync(tables.projection, rows).value))
  {
    SyncKeepsUnique(tables.projection, rows);
    PreparedIsQuiet(tables, rows, Sync(tables.projection, rows).value);
  }
}
