/** Approved application source documents: the import plan and its application. */
module SourceDocuments {
  import opened Wrappers

  const DOCUMENT_TYPES: set<string> := {"base_cv", "base_application_letter"}

  datatype Status = Registered | Approved | Superseded | Rejected

  datatype Document = Document(kind: string, sourceLabel: string, reference: string, hash: string)

  datatype Row = Row(sourceLabel: string, reference: string, status: Status, approvedBy: Option<string>)

  /** Document type and content hash, the unique key of the table. */
  type Key = (string, string)

  type Table = map<Key, Row>

  datatype Counts = Counts(changed: nat, kept: nat)

  datatype Applied = Applied(table: Table, counts: Counts)

  function KeyOf(document: Document): Key {
    (document.kind, document.hash)
  }

  function ApprovedHashes(table: Table, kind: string): set<string> {
    set key | key in table && key.0 == kind && table[key].status == Approved :: key.1
  }

  /** The table's `approved` rows of the type become `superseded`. */
  function Supersede(table: Table, kind: string): Table {
    map key | key in table ::
      if key.0 == kind && table[key].status == Approved then table[key].(status := Superseded) else table[key]
  }

  function ApprovedRow(document: Document, approvedBy: string): Row {
    Row(document.sourceLabel, document.reference, Approved, Some(approvedBy))
  }

  /** One round of the loop in `apply_documents`; `None` is the error for several approved rows. */
  function ApplyOne(table: Table, document: Document, approvedBy: string): Option<(Table, bool)> {
    var approved := ApprovedHashes(table, document.kind);
    if |approved| > 1 then None
    else if document.hash in approved then Some((table, false))
    else Some((Supersede(table, document.kind)[KeyOf(document) := ApprovedRow(document, approvedBy)], true))
  }

  /** `apply_documents`; an error rolls the whole transaction back. */
  function ApplyAll(table: Table, documents: seq<Document>, approvedBy: string): Option<Applied>
    decreases |documents|
  {
    if documents == [] then Some(Applied(table, Counts(0, 0)))
    else match ApplyOne(table, documents[0], approvedBy)
      case None => None
      case Some((next, changes)) =>
        match ApplyAll(next, documents[1..], approvedBy)
        case None => None
        case Some(rest) =>
          Some(Applied(rest.table, if changes then Counts(rest.counts.changed + 1, rest.counts.kept)
                                   else Counts(rest.counts.changed, rest.counts.kept + 1)))
  }

  /** One of the two types has several approved rows. */
  predicate Ambiguous(table: Table) {
    exists kind :: kind in DOCUMENT_TYPES && |ApprovedHashes(table, kind)| > 1
  }

  /** `load_current_approved`: the approved hash of each of the two types. */
  ghost function LoadCurrent(table: Table): Option<map<string, string>> {
    if Ambiguous(table) then None
    else Some(map kind | kind in DOCUMENT_TYPES && ApprovedHashes(table, kind) != {} :: TheHash(ApprovedHashes(table, kind)))
  }

  ghost function TheHash(hashes: set<string>): string
    requires hashes != {}
  {
    var hash :| hash in hashes;
    hash
  }

  predicate WouldChange(current: map<string, string>, document: Document) {
    !(document.kind in current && current[document.kind] == document.hash)
  }

  /** `would_change_count` of the plan. */
  function WouldChangeCount(current: map<string, string>, documents: seq<Document>): nat {
    if documents == [] then 0
    else WouldChangeCount(current, documents[1..]) + if WouldChange(current, documents[0]) then 1 else 0
  }

  predicate DistinctKinds(documents: seq<Document>) {
    forall i, j :: 0 <= i < j < |documents| ==> documents[i].kind != documents[j].kind
  }

  ghost predicate AtMostOne(table: Table, kind: string) {
    |ApprovedHashes(table, kind)| <= 1
  }

  // ---------- one document ----------

  lemma {:induction false} SingletonOf<T>(s: set<T>, x: T)
    requires |s| <= 1 && x in s
    ensures s == {x}
  {
    assert |s - {x}| == 0;
  }

  /** Afterwards the document's hash is the only approved one of its type. */
  lemma {:induction false} ApplyOneApproves(table: Table, document: Document, approvedBy: string)
    requires ApplyOne(table, document, approvedBy).Some?
    ensures ApprovedHashes(ApplyOne(table, document, approvedBy).value.0, document.kind) == {document.hash}
  {
    if document.hash in ApprovedHashes(table, document.kind) {
      SingletonOf(ApprovedHashes(table, document.kind), document.hash);
    } else {
      var after := Supersede(table, document.kind)[KeyOf(document) := ApprovedRow(document, approvedBy)];
      assert forall key :: key in table && key.0 == document.kind && key != KeyOf(document) ==> after[key].status != Approved;
      forall hash | hash in ApprovedHashes(after, document.kind)
        ensures hash == document.hash
      {
        var key :| key in after && key.0 == document.kind && after[key].status == Approved && key.1 == hash;
      }
      assert KeyOf(document) in after;
    }
  }

  lemma {:induction false} ApplyOneFrame(table: Table, document: Document, approvedBy: string, kind: string)
    requires ApplyOne(table, document, approvedBy).Some? && kind != document.kind
    ensures ApprovedHashes(ApplyOne(table, document, approvedBy).value.0, kind) == ApprovedHashes(table, kind)
  {
    var after := ApplyOne(table, document, approvedBy).value.0;
    assert forall key: Key :: key.0 == kind ==> (key in after <==> key in table) && (key in table ==> after[key] == table[key]);
  }

  /**
   * What one document means for the table: refused exactly for a type with several approved rows, kept exactly if
   * its hash is the approved one, and otherwise approved alone, whatever other types hold.
   */
  lemma {:induction false} OneDocumentApproved(table: Table, document: Document, approvedBy: string)
    ensures ApplyOne(table, document, approvedBy) == None <==> !AtMostOne(table, document.kind)
    ensures match ApplyOne(table, document, approvedBy)
      case None => true
      case Some((after, written)) =>
        && ApprovedHashes(after, document.kind) == {document.hash}
        && (written <==> ApprovedHashes(table, document.kind) != {document.hash})
        && (if written then KeyOf(document) in after && after[KeyOf(document)] == ApprovedRow(document, approvedBy) else after == table)
        && after.Keys == table.Keys + {KeyOf(document)}
        && forall key :: key in table && key.0 != document.kind ==> after[key] == table[key]
  {
    var approved := ApprovedHashes(table, document.kind);
    if |approved| <= 1 {
      ApplyOneApproves(table, document, approvedBy);
      if document.hash in approved {
        SingletonOf(approved, document.hash);
        assert KeyOf(document) in table.Keys;
      }
    }
  }

  /** The row of a document just approved, column by column. */
  predicate IsRowOf(row: Row, document: Document, approvedBy: string) {
    && row.sourceLabel == document.sourceLabel && row.reference == document.reference
    && row.status == Approved && row.approvedBy == Some(approvedBy)
  }

  /** A row that was approved becomes `superseded` and keeps its other columns; any other row stays. */
  predicate IsRetired(before: Row, after: Row) {
    after == before.(status := if before.status == Approved then Superseded else before.status)
  }

  /** What the rows of the document's type hold after it was written: its own row new, the others retired. */
  lemma {:induction false} OneDocumentWrites(table: Table, document: Document, approvedBy: string)
    requires ApplyOne(table, document, approvedBy).Some? && ApplyOne(table, document, approvedBy).value.1
    ensures var after := ApplyOne(table, document, approvedBy).value.0;
      && (document.kind, document.hash) in after && IsRowOf(after[(document.kind, document.hash)], document, approvedBy)
      && forall key :: key in table && key != (document.kind, document.hash) ==>
           key in after && if key.0 == document.kind then IsRetired(table[key], after[key]) else after[key] == table[key]
  {
    assert KeyOf(document) == (document.kind, document.hash);
  }

  // ---------- all documents ----------

  lemma {:induction false} RestIsDistinct(documents: seq<Document>)
    requires documents != [] && DistinctKinds(documents)
    ensures DistinctKinds(documents[1..])
    ensures forall k :: 0 <= k < |documents| - 1 ==> documents[1..][k] == documents[k + 1] && documents[k + 1].kind != documents[0].kind
  {
  }

  /** For distinct types the transaction fails exactly when one of them already has several approved rows. */
  lemma {:induction false} ApplyFailsOnMultiple(table: Table, documents: seq<Document>, approvedBy: string)
    requires DistinctKinds(documents)
    ensures ApplyAll(table, documents, approvedBy) == None
      <==> exists k :: 0 <= k < |documents| && !AtMostOne(table, documents[k].kind)
    decreases |documents|
  {
    if documents != [] && ApplyOne(table, documents[0], approvedBy).Some? {
      var next, rest := ApplyOne(table, documents[0], approvedBy).value.0, documents[1..];
      RestIsDistinct(documents);
      ApplyFailsOnMultiple(next, rest, approvedBy);
      forall k | 0 <= k < |rest|
        ensures AtMostOne(next, rest[k].kind) <==> AtMostOne(table, documents[k + 1].kind)
      {
        ApplyOneFrame(table, documents[0], approvedBy, rest[k].kind);
      }
    }
  }

  /** What the plan compares with is the approved hash. */
  lemma {:induction false} CurrentHash(table: Table, document: Document)
    requires LoadCurrent(table).Some? && document.kind in DOCUMENT_TYPES
    ensures AtMostOne(table, document.kind)
    ensures WouldChange(LoadCurrent(table).value, document) <==> document.hash !in ApprovedHashes(table, document.kind)
  {
    var hashes := ApprovedHashes(table, document.kind);
    assert AtMostOne(table, document.kind);
    if hashes != {} {
      SingletonOf(hashes, TheHash(hashes));
    }
  }

  /** How many of the documents do not carry an approved hash of their type. */
  function Outdated(table: Table, documents: seq<Document>): nat {
    if documents == [] then 0
    else Outdated(table, documents[1..])
         + if documents[0].hash in ApprovedHashes(table, documents[0].kind) then 0 else 1
  }

  lemma {:induction false} OutdatedFrame(before: Table, after: Table, documents: seq<Document>)
    requires forall k :: 0 <= k < |documents| ==>
      ApprovedHashes(before, documents[k].kind) == ApprovedHashes(after, documents[k].kind)
    ensures Outdated(before, documents) == Outdated(after, documents)
  {
    if documents != [] {
      OutdatedFrame(before, after, documents[1..]);
    }
  }

  lemma {:induction false} ApplyCountsOutdated(table: Table, documents: seq<Document>, approvedBy: string)
    requires DistinctKinds(documents) && ApplyAll(table, documents, approvedBy).Some?
    ensures var counts := ApplyAll(table, documents, approvedBy).value.counts;
      counts.changed == Outdated(table, documents) && counts.changed + counts.kept == |documents|
    decreases |documents|
  {
    if documents != [] {
      var next, rest := ApplyOne(table, documents[0], approvedBy).value.0, documents[1..];
      RestIsDistinct(documents);
      ApplyCountsOutdated(next, rest, approvedBy);
      forall k | 0 <= k < |rest|
        ensures ApprovedHashes(table, rest[k].kind) == ApprovedHashes(next, rest[k].kind)
      {
        ApplyOneFrame(table, documents[0], approvedBy, rest[k].kind);
      }
      OutdatedFrame(table, next, rest);
    }
  }

  lemma {:induction false} PlanCountsOutdated(table: Table, documents: seq<Document>)
    requires LoadCurrent(table).Some?
    requires forall k :: 0 <= k < |documents| ==> documents[k].kind in DOCUMENT_TYPES
    ensures WouldChangeCount(LoadCurrent(table).value, documents) == Outdated(table, documents)
  {
    if documents != [] {
      CurrentHash(table, documents[0]);
      PlanCountsOutdated(table, documents[1..]);
    }
  }

  /**
   * After a dry run the application succeeds. The dry run counts exactly the documents that it writes, and the rows
   * it adds or rewrites are one for each of these and one for each approved row that is superseded.
   */
  lemma {:induction false} PlanIsExact(table: Table, documents: seq<Document>, approvedBy: string)
    requires LoadCurrent(table).Some? && DistinctKinds(documents)
    requires forall k :: 0 <= k < |documents| ==> documents[k].kind in DOCUMENT_TYPES
    ensures ApplyAll(table, documents, approvedBy).Some?
    ensures var counts := ApplyAll(table, documents, approvedBy).value.counts;
      && counts.changed == WouldChangeCount(LoadCurrent(table).value, documents)
      && counts.changed + counts.kept == |documents|
    ensures |ChangedKeys(table, ApplyAll(table, documents, approvedBy).value.table)|
      == WouldChangeCount(LoadCurrent(table).value, documents) + Replacing(table, documents)
  {
    forall k | 0 <= k < |documents|
      ensures AtMostOne(table, documents[k].kind)
    {
      CurrentHash(table, documents[k]);
    }
    ApplyFailsOnMultiple(table, documents, approvedBy);
    ApplyCountsOutdated(table, documents, approvedBy);
    PlanCountsOutdated(table, documents);
    RowsChanged(table, documents, approvedBy);
  }

  lemma {:induction false} ApplyAlone(table: Table, first: Document, rest: seq<Document>, approvedBy: string)
    requires AtMostOne(table, first.kind) && first.hash !in ApprovedHashes(table, first.kind)
    ensures var next := ApplyOne(table, first, approvedBy).value.0;
      ApplyAll(next, rest, approvedBy).Some? ==>
        var counts := ApplyAll(next, rest, approvedBy).value.counts;
        ApplyAll(table, [first] + rest, approvedBy).Some?
        && ApplyAll(table, [first] + rest, approvedBy).value.counts == Counts(counts.changed + 1, counts.kept)
  {
    assert ([first] + rest)[1..] == rest;
  }

  lemma {:induction false} ApplySingle(table: Table, document: Document, approvedBy: string)
    ensures match ApplyOne(table, document, approvedBy)
      case None => ApplyAll(table, [document], approvedBy) == None
      case Some((next, _)) =>
        ApplyAll(table, [document], approvedBy).Some? && ApplyAll(table, [document], approvedBy).value.table == next
  {
    assert [document][1..] == [];
  }

  /** For one type twice the plan is wrong: it looks at the table once, the application at each document. */
  lemma {:induction false} PlanNeedsDistinctTypes(table: Table, a: Document, b: Document, approvedBy: string)
    requires LoadCurrent(table).Some? && a.kind == b.kind && a.kind in DOCUMENT_TYPES && a.hash != b.hash
    requires a.hash in ApprovedHashes(table, a.kind)
    ensures WouldChangeCount(LoadCurrent(table).value, [b, a]) == 1
    ensures ApplyAll(table, [b, a], approvedBy).Some? && ApplyAll(table, [b, a], approvedBy).value.counts == Counts(2, 0)
  {
    CurrentHash(table, a);
    CurrentHash(table, b);
    SingletonOf(ApprovedHashes(table, a.kind), a.hash);
    var current := LoadCurrent(table).value;
    assert [b, a][1..] == [a] && [a][1..] == [];
    assert WouldChangeCount(current, [a]) == 0;
    ApplyOneApproves(table, b, approvedBy);
    var next := ApplyOne(table, b, approvedBy).value.0;
    assert ApprovedHashes(next, a.kind) == {b.hash};
    ApplyAlone(next, a, [], approvedBy);
    assert [a] + [] == [a] && [b] + [a] == [b, a];
    ApplyAlone(table, b, [a], approvedBy);
  }

  // ---------- the table afterwards ----------

  /** The document of the list that has the type. */
  predicate ListsKind(documents: seq<Document>, kind: string) {
    exists k :: 0 <= k < |documents| && documents[k].kind == kind
  }

  /** A row that is not the key of a given document: superseded if it was approved and its type is given. */
  function Retired(table: Table, documents: seq<Document>, key: Key): Row
    requires key in table
  {
    if ListsKind(documents, key.0) && table[key].status == Approved then table[key].(status := Superseded) else table[key]
  }

  /** The row under the key of a given document: kept when it was the approved one, otherwise written anew. */
  function Current(table: Table, document: Document, approvedBy: string): Row {
    if KeyOf(document) in table && table[KeyOf(document)].status == Approved then table[KeyOf(document)]
    else ApprovedRow(document, approvedBy)
  }

  /** `after` is the closed form of applying the documents to `table`. */
  ghost predicate IsApplied(table: Table, documents: seq<Document>, approvedBy: string, after: Table) {
    && after.Keys == table.Keys + (set document | document in documents :: KeyOf(document))
    && (forall k :: 0 <= k < |documents| ==> after[KeyOf(documents[k])] == Current(table, documents[k], approvedBy))
    && (forall key :: key in table && key !in (set document | document in documents :: KeyOf(document)) ==>
          after[key] == Retired(table, documents, key))
  }

  lemma {:induction false} ApplyOneIsApplied(table: Table, document: Document, approvedBy: string)
    requires ApplyOne(table, document, approvedBy).Some?
    ensures IsApplied(table, [document], approvedBy, ApplyOne(table, document, approvedBy).value.0)
  {
    var after := ApplyOne(table, document, approvedBy).value.0;
    var documents := [document];
    assert (set d | d in documents :: KeyOf(d)) == {KeyOf(document)};
    assert documents[0] == document;
    var approved := ApprovedHashes(table, document.kind);
    if document.hash in approved {
      SingletonOf(approved, document.hash);
      forall key | key in table && key.0 == document.kind && table[key].status == Approved
        ensures key == KeyOf(document)
      {
        assert key.1 in approved;
      }
    }
  }

  /** Applying the documents gives the closed form: no row is lost, other types keep theirs. */
  lemma {:induction false} ApplyIsClosedForm(table: Table, documents: seq<Document>, approvedBy: string)
    requires DistinctKinds(documents) && ApplyAll(table, documents, approvedBy).Some?
    ensures IsApplied(table, documents, approvedBy, ApplyAll(table, documents, approvedBy).value.table)
    decreases |documents|
  {
    if documents != [] {
      var first, rest := documents[0], documents[1..];
      var next := ApplyOne(table, first, approvedBy).value.0;
      RestIsDistinct(documents);
      ApplyOneIsApplied(table, first, approvedBy);
      ApplyIsClosedForm(next, rest, approvedBy);
      ClosedFormsCompose(table, next, ApplyAll(next, rest, approvedBy).value.table, documents, approvedBy);
    }
  }

  lemma {:induction false} KeysOfCons(documents: seq<Document>)
    requires documents != []
    ensures (set d | d in documents :: KeyOf(d)) == {KeyOf(documents[0])} + (set d | d in documents[1..] :: KeyOf(d))
    ensures (set d | d in [documents[0]] :: KeyOf(d)) == {KeyOf(documents[0])}
  {
    assert documents == [documents[0]] + documents[1..];
  }

  lemma {:induction false} ListsKindCons(documents: seq<Document>, kind: string)
    requires documents != []
    ensures ListsKind(documents, kind) <==> documents[0].kind == kind || ListsKind(documents[1..], kind)
    ensures ListsKind([documents[0]], kind) <==> documents[0].kind == kind
  {
    if ListsKind(documents, kind) && documents[0].kind != kind {
      var k :| 0 <= k < |documents| && documents[k].kind == kind;
      assert documents[1..][k - 1] == documents[k];
    }
    if ListsKind(documents[1..], kind) {
      var k :| 0 <= k < |documents| - 1 && documents[1..][k].kind == kind;
      assert documents[k + 1].kind == kind;
    }
    if documents[0].kind == kind {
      assert [documents[0]][0].kind == kind;
    }
  }

  lemma {:induction false} KeyOfRest(documents: seq<Document>, key: Key)
    requires documents != [] && DistinctKinds(documents) && key in (set d | d in documents[1..] :: KeyOf(d))
    ensures key.0 != documents[0].kind
  {
    RestIsDistinct(documents);
    var d :| d in documents[1..] && KeyOf(d) == key;
    var k :| 0 <= k < |documents[1..]| && documents[1..][k] == d;
  }

  lemma {:induction false} ClosedFormsCompose(table: Table, next: Table, after: Table, documents: seq<Document>, approvedBy: string)
    requires documents != [] && DistinctKinds(documents)
    requires IsApplied(table, [documents[0]], approvedBy, next)
    requires IsApplied(next, documents[1..], approvedBy, after)
    ensures IsApplied(table, documents, approvedBy, after)
  {
    KeysOfCons(documents);
    forall key | key in table && key !in (set d | d in documents :: KeyOf(d))
      ensures after[key] == Retired(table, documents, key)
    {
      RetiredCompose(table, next, after, documents, approvedBy, key);
    }
    forall k | 0 <= k < |documents|
      ensures after[KeyOf(documents[k])] == Current(table, documents[k], approvedBy)
    {
      if k == 0 {
        FirstComposes(table, next, after, documents, approvedBy);
      } else {
        LaterComposes(table, next, after, documents, approvedBy, k);
      }
    }
  }

  lemma {:induction false} RetiredCompose(table: Table, next: Table, after: Table, documents: seq<Document>, approvedBy: string, key: Key)
    requires documents != []
    requires IsApplied(table, [documents[0]], approvedBy, next)
    requires IsApplied(next, documents[1..], approvedBy, after)
    requires key in table && key !in (set d | d in documents :: KeyOf(d))
    ensures key in after && after[key] == Retired(table, documents, key)
  {
    KeysOfCons(documents);
    ListsKindCons(documents, key.0);
  }

  lemma {:induction false} FirstKindIsGone(documents: seq<Document>)
    requires documents != [] && DistinctKinds(documents)
    ensures !ListsKind(documents[1..], documents[0].kind)
  {
    RestIsDistinct(documents);
  }

  lemma {:induction false} FirstComposes(table: Table, next: Table, after: Table, documents: seq<Document>, approvedBy: string)
    requires documents != [] && DistinctKinds(documents)
    requires IsApplied(table, [documents[0]], approvedBy, next)
    requires IsApplied(next, documents[1..], approvedBy, after)
    ensures KeyOf(documents[0]) in after && after[KeyOf(documents[0])] == Current(table, documents[0], approvedBy)
  {
    var rest, key := documents[1..], KeyOf(documents[0]);
    KeysOfCons(documents);
    assert next[KeyOf([documents[0]][0])] == Current(table, documents[0], approvedBy);
    if key in (set d | d in rest :: KeyOf(d)) { KeyOfRest(documents, key); }
    FirstKindIsGone(documents);
  }

  lemma {:induction false} LaterComposes(table: Table, next: Table, after: Table, documents: seq<Document>, approvedBy: string, k: nat)
    requires documents != [] && DistinctKinds(documents) && 0 < k < |documents|
    requires IsApplied(table, [documents[0]], approvedBy, next)
    requires IsApplied(next, documents[1..], approvedBy, after)
    ensures KeyOf(documents[k]) in after && after[KeyOf(documents[k])] == Current(table, documents[k], approvedBy)
  {
    var key, rest := KeyOf(documents[k]), documents[1..];
    assert rest[k - 1] == documents[k];
    assert after[key] == Current(next, documents[k], approvedBy);
    OtherKindKept(table, next, documents[0], approvedBy, key);
    assert documents[0].kind != documents[k].kind;
  }

  lemma {:induction false} OtherKindKept(table: Table, next: Table, document: Document, approvedBy: string, key: Key)
    requires IsApplied(table, [document], approvedBy, next) && key.0 != document.kind
    ensures (key in next <==> key in table) && (key in table ==> next[key] == table[key])
  {
    var documents := [document];
    assert (set d | d in documents :: KeyOf(d)) == {KeyOf(document)};
    assert !ListsKind(documents, key.0);
  }

  // ---------- how many rows change ----------

  /** The rows that were added or rewritten. */
  function ChangedKeys(before: Table, after: Table): set<Key> {
    set key | key in after && !(key in before && before[key] == after[key])
  }

  /** How many of the documents replace an approved row of their type. */
  function Replacing(table: Table, documents: seq<Document>): nat {
    if documents == [] then 0
    else
      var approved := ApprovedHashes(table, documents[0].kind);
      Replacing(table, documents[1..]) + if approved != {} && documents[0].hash !in approved then 1 else 0
  }

  lemma {:induction false} ReplacingFrame(before: Table, after: Table, documents: seq<Document>)
    requires forall k :: 0 <= k < |documents| ==>
      ApprovedHashes(before, documents[k].kind) == ApprovedHashes(after, documents[k].kind)
    ensures Replacing(before, documents) == Replacing(after, documents)
  {
    if documents != [] {
      ReplacingFrame(before, after, documents[1..]);
    }
  }

  /** One document changes no row if its hash is approved; otherwise its own row, and the approved one it replaces. */
  lemma {:induction false} OneChanges(table: Table, document: Document, approvedBy: string)
    requires ApplyOne(table, document, approvedBy).Some?
    ensures var approved, after := ApprovedHashes(table, document.kind), ApplyOne(table, document, approvedBy).value.0;
      ChangedKeys(table, after) ==
      if document.hash in approved then {}
      else {KeyOf(document)} + set hash | hash in approved :: (document.kind, hash)
  {
    var approved, after := ApprovedHashes(table, document.kind), ApplyOne(table, document, approvedBy).value.0;
    if document.hash !in approved {
      forall key: Key
        ensures key in ChangedKeys(table, after) <==>
          key == KeyOf(document) || (key.0 == document.kind && key.1 in approved)
      {
        assert key == (key.0, key.1);
      }
    }
  }

  lemma {:induction false} OneChangesSize(table: Table, document: Document, approvedBy: string)
    requires ApplyOne(table, document, approvedBy).Some?
    ensures |ChangedKeys(table, ApplyOne(table, document, approvedBy).value.0)|
      == Outdated(table, [document]) + Replacing(table, [document])
  {
    var approved := ApprovedHashes(table, document.kind);
    OneChanges(table, document, approvedBy);
    assert [document][1..] == [];
    if document.hash !in approved { PairSize(document, approved); }
  }

  lemma {:induction false} PairSize(document: Document, approved: set<string>)
    requires |approved| <= 1 && document.hash !in approved
    ensures |{KeyOf(document)} + set hash | hash in approved :: (document.kind, hash)| == 1 + if approved == {} then 0 else 1
  {
    if approved != {} {
      var previous :| previous in approved;
      SingletonOf(approved, previous);
      assert (set hash | hash in approved :: (document.kind, hash)) == {(document.kind, previous)};
    }
  }

  /** A row of a type that is not listed stays. */
  lemma {:induction false} ChangedKinds(table: Table, documents: seq<Document>, approvedBy: string, after: Table, key: Key)
    requires IsApplied(table, documents, approvedBy, after) && key in ChangedKeys(table, after)
    ensures ListsKind(documents, key.0)
  {
    if key in (set document | document in documents :: KeyOf(document)) {
      var document :| document in documents && KeyOf(document) == key;
      var k :| 0 <= k < |documents| && documents[k] == document;
    } else {
      assert after[key] == Retired(table, documents, key);
    }
  }

  /**
   * The rows that the application adds or rewrites: one per document that the plan counts, and one more for each of
   * those that supersedes an approved row.
   */
  lemma {:induction false} RowsChanged(table: Table, documents: seq<Document>, approvedBy: string)
    requires DistinctKinds(documents) && ApplyAll(table, documents, approvedBy).Some?
    ensures |ChangedKeys(table, ApplyAll(table, documents, approvedBy).value.table)|
      == Outdated(table, documents) + Replacing(table, documents)
    decreases |documents|
  {
    if documents == [] {
      assert ChangedKeys(table, table) == {};
    } else {
      var first, rest := documents[0], documents[1..];
      var next := ApplyOne(table, first, approvedBy).value.0;
      var after := ApplyAll(next, rest, approvedBy).value.table;
      RestIsDistinct(documents);
      OneChangesSize(table, first, approvedBy);
      RowsChanged(next, rest, approvedBy);
      forall k | 0 <= k < |rest|
        ensures ApprovedHashes(table, rest[k].kind) == ApprovedHashes(next, rest[k].kind)
      {
        ApplyOneFrame(table, first, approvedBy, rest[k].kind);
      }
      OutdatedFrame(table, next, rest);
      ReplacingFrame(table, next, rest);
      ApplyOneIsApplied(table, first, approvedBy);
      ApplyIsClosedForm(next, rest, approvedBy);
      ChangesCompose(table, next, after, documents, approvedBy);
      assert [first][1..] == [];
    }
  }

  lemma {:induction false} ChangesCompose(table: Table, next: Table, after: Table, documents: seq<Document>, approvedBy: string)
    requires documents != [] && DistinctKinds(documents)
    requires IsApplied(table, [documents[0]], approvedBy, next) && IsApplied(next, documents[1..], approvedBy, after)
    ensures |ChangedKeys(table, after)| == |ChangedKeys(table, next)| + |ChangedKeys(next, after)|
  {
    FirstKindIsGone(documents);
    var first, later := ChangedKeys(table, next), ChangedKeys(next, after);
    forall key | key in first
      ensures key.0 == documents[0].kind && key !in later
    {
      ChangedKinds(table, [documents[0]], approvedBy, next, key);
      if key in later { ChangedKinds(next, documents[1..], approvedBy, after, key); }
    }
    assert ChangedKeys(table, after) == first + later;
  }

  /** Exactly one approved row per given type, the given one; every other type keeps its approved rows. */
  lemma {:induction false} ApplyApproves(table: Table, documents: seq<Document>, approvedBy: string)
    requires DistinctKinds(documents) && ApplyAll(table, documents, approvedBy).Some?
    ensures var after := ApplyAll(table, documents, approvedBy).value.table;
      && (forall k :: 0 <= k < |documents| ==> ApprovedHashes(after, documents[k].kind) == {documents[k].hash})
      && (forall kind :: !ListsKind(documents, kind) ==> ApprovedHashes(after, kind) == ApprovedHashes(table, kind))
    decreases |documents|
  {
    if documents != [] {
      var first, rest := documents[0], documents[1..];
      var next := ApplyOne(table, first, approvedBy).value.0;
      RestIsDistinct(documents);
      ApplyOneApproves(table, first, approvedBy);
      ApplyApproves(next, rest, approvedBy);
      ListsKindCons(documents, first.kind);
      assert !ListsKind(rest, first.kind);
      forall kind | !ListsKind(documents, kind)
        ensures !ListsKind(rest, kind) && ApprovedHashes(next, kind) == ApprovedHashes(table, kind)
      {
        ListsKindCons(documents, kind);
        ApplyOneFrame(table, first, approvedBy, kind);
      }
      forall k | 0 < k < |documents|
        ensures ApprovedHashes(ApplyAll(next, rest, approvedBy).value.table, documents[k].kind) == {documents[k].hash}
      {
        assert rest[k - 1] == documents[k];
      }
    }
  }

  lemma {:induction false} ApprovedChangeNothing(table: Table, documents: seq<Document>, approvedBy: string)
    requires forall k :: 0 <= k < |documents| ==> ApprovedHashes(table, documents[k].kind) == {documents[k].hash}
    ensures ApplyAll(table, documents, approvedBy) == Some(Applied(table, Counts(0, |documents|)))
  {
    if documents != [] {
      ApprovedChangeNothing(table, documents[1..], approvedBy);
    }
  }

  /** Applying the same documents again changes nothing, whoever approves. */
  lemma {:induction false} SecondApplyChangesNothing(table: Table, documents: seq<Document>, approvedBy: string, again: string)
    requires DistinctKinds(documents) && ApplyAll(table, documents, approvedBy).Some?
    ensures var after := ApplyAll(table, documents, approvedBy).value.table;
      ApplyAll(after, documents, again) == Some(Applied(after, Counts(0, |documents|)))
  {
    ApplyApproves(table, documents, approvedBy);
    ApprovedChangeNothing(ApplyAll(table, documents, approvedBy).value.table, documents, again);
  }

  /** A superseded hash comes back under its own key: `a`, `b`, `a` ends on `a` with `b` superseded and no third row. */
  lemma {:induction false} SupersededHashRevives(table: Table, a: Document, b: Document, approvedBy: string)
    requires AtMostOne(table, a.kind) && a.kind == b.kind && a.hash != b.hash && KeyOf(b) !in table
    requires a.hash in ApprovedHashes(table, a.kind)
    ensures var mid := ApplyOne(table, b, approvedBy); var end := ApplyOne(mid.value.0, a, approvedBy);
      && mid.Some? && end.Some? && mid.value.1 && end.value.1
      && end.value.0.Keys == table.Keys + {KeyOf(b)}
      && ApprovedHashes(end.value.0, a.kind) == {a.hash}
      && end.value.0[KeyOf(b)] == ApprovedRow(b, approvedBy).(status := Superseded)
  {
    SingletonOf(ApprovedHashes(table, a.kind), a.hash);
    ApplyOneApproves(table, b, approvedBy);
    var mid := ApplyOne(table, b, approvedBy).value.0;
    assert ApprovedHashes(mid, a.kind) == {b.hash};
    ApplyOneApproves(mid, a, approvedBy);
    assert KeyOf(a) in table;
  }

  // ---------- runs ----------

  datatype Import = Import(documents: seq<Document>, approvedBy: string)

  /** The table after one import; a refused one is rolled back. */
  function AfterImport(table: Table, step: Import): Table {
    match ApplyAll(table, step.documents, step.approvedBy)
    case None => table
    case Some(applied) => applied.table
  }

  function AfterRun(table: Table, steps: seq<Import>): Table
    decreases |steps|
  {
    if steps == [] then table else AfterRun(AfterImport(table, steps[0]), steps[1..])
  }

  lemma {:induction false} ApplyKeepsOne(table: Table, documents: seq<Document>, approvedBy: string)
    requires forall kind :: AtMostOne(table, kind)
    ensures ApplyAll(table, documents, approvedBy).Some?
    ensures forall kind :: AtMostOne(ApplyAll(table, documents, approvedBy).value.table, kind)
    ensures table.Keys <= ApplyAll(table, documents, approvedBy).value.table.Keys
    decreases |documents|
  {
    if documents != [] {
      assert AtMostOne(table, documents[0].kind);
      var next := ApplyOne(table, documents[0], approvedBy).value.0;
      forall kind
        ensures AtMostOne(next, kind)
      {
        if kind == documents[0].kind {
          ApplyOneApproves(table, documents[0], approvedBy);
        } else {
          ApplyOneFrame(table, documents[0], approvedBy, kind);
          assert AtMostOne(table, kind);
        }
      }
      ApplyKeepsOne(next, documents[1..], approvedBy);
    }
  }

  /** On every run of imports, of any documents: at most one approved row per type, no row lost, no import refused. */
  lemma {:induction false} RunKeepsOne(table: Table, steps: seq<Import>)
    requires forall kind :: AtMostOne(table, kind)
    ensures forall kind :: AtMostOne(AfterRun(table, steps), kind)
    ensures table.Keys <= AfterRun(table, steps).Keys
    decreases |steps|
  {
    if steps != [] {
      ApplyKeepsOne(table, steps[0].documents, steps[0].approvedBy);
      RunKeepsOne(AfterImport(table, steps[0]), steps[1..]);
    }
  }

  // ---------- the transaction ----------

  class Register {
    var table: Table

    constructor ()
      ensures table == map[] && forall kind :: AtMostOne(table, kind)
    {
      table := map[];
      new;
      assert forall kind :: ApprovedHashes(table, kind) == {};
    }

    /** `apply_documents`: the counters, or nothing after a rollback. */
    method ApplyDocuments(documents: seq<Document>, approvedBy: string) returns (counts: Option<Counts>)
      modifies this
      ensures match ApplyAll(old(table), documents, approvedBy)
        case None => counts == None && table == old(table)
        case Some(applied) => counts == Some(applied.counts) && table == applied.table
    {
      ghost var goal := ApplyAll(table, documents, approvedBy);
      var saved := table;
      assert documents[0..] == documents;
      var changed, kept := 0, 0;
      var i := 0;
      while i < |documents|
        invariant 0 <= i <= |documents|
        invariant IsResumed(goal, table, documents[i..], Counts(changed, kept), approvedBy)
      {
        assert documents[i..][0] == documents[i] && documents[i..][1..] == documents[i + 1..];
        ResumedStep(goal, table, documents[i..], Counts(changed, kept), approvedBy);
        var written := ApplyDocument(documents[i], approvedBy);
        if written == None {
          table := saved;
          return None;
        }
        if written.value {
          changed := changed + 1;
        } else {
          kept := kept + 1;
        }
        i := i + 1;
      }
      return Some(Counts(changed, kept));
    }

    /** The body of the loop: whether the document was written; `None` for several approved rows. */
    method ApplyDocument(document: Document, approvedBy: string) returns (written: Option<bool>)
      modifies this
      ensures match ApplyOne(old(table), document, approvedBy)
        case None => written == None && table == old(table)
        case Some((next, changes)) => written == Some(changes) && table == next
      ensures written == None <==> !AtMostOne(old(table), document.kind)
      ensures written.Some? ==>
        && ApprovedHashes(table, document.kind) == {document.hash}
        && (written.value <==> ApprovedHashes(old(table), document.kind) != {document.hash})
        && forall key :: key in old(table) && key.0 != document.kind ==> key in table && table[key] == old(table)[key]
    {
      OneDocumentApproved(table, document, approvedBy);
      var approved := ApprovedHashes(table, document.kind);
      if |approved| > 1 { return None; }
      if document.hash in approved { return Some(false); }
      table := Supersede(table, document.kind);
      table := table[KeyOf(document) := ApprovedRow(document, approvedBy)];
      return Some(true);
    }
  }

  lemma {:induction false} ResumedStep(goal: Option<Applied>, table: Table, rest: seq<Document>, done: Counts, approvedBy: string)
    requires rest != [] && IsResumed(goal, table, rest, done, approvedBy)
    ensures match ApplyOne(table, rest[0], approvedBy)
      case None => goal == None
      case Some((next, changes)) =>
        IsResumed(goal, next, rest[1..],
                  if changes then Counts(done.changed + 1, done.kept) else Counts(done.changed, done.kept + 1), approvedBy)
  {
  }

  /** The goal is what applying `rest` to `table` gives on top of the counters so far. */
  ghost predicate IsResumed(goal: Option<Applied>, table: Table, rest: seq<Document>, done: Counts, approvedBy: string) {
    goal ==
    match ApplyAll(table, rest, approvedBy)
    case None => None
    case Some(applied) =>
      Some(Applied(applied.table, Counts(done.changed + applied.counts.changed, done.kept + applied.counts.kept)))
  }
}
