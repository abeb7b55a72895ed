/** Local document intake: upload files and the approved-document table, step by step. */
module DocumentIntake {
  import opened Wrappers
  import opened Text
  import opened SourceDocuments

  const UPLOADS := "uploads/"
  const LOCAL := "local://"

  /** Paths below the private root; a file's content is given by its hash. */
  type Files = map<string, string>

  /** A validated upload: `short` is the beginning of the hash and `safeName` the cleaned canonical file name. */
  datatype Upload = Upload(kind: string, hash: string, short: string, safeName: string)

  function StoredPath(upload: Upload): string {
    UPLOADS + upload.kind + "-" + upload.short + "-" + upload.safeName
  }

  function TemporaryPath(upload: Upload): string {
    UPLOADS + "." + upload.kind + "-" + upload.short + ".uploading.pdf"
  }

  function DocumentOf(upload: Upload): Document {
    Document(upload.kind,
             if upload.kind == "base_cv" then "F6 canonical CV template" else "F6 canonical application-letter template",
             LOCAL + StoredPath(upload), upload.hash)
  }

  /** `upload_root.glob(f"{document_type}-*.pdf")`, which does not descend into directories. */
  predicate InGlob(kind: string, path: string) {
    && |UPLOADS| + |kind| + 5 <= |path| && '/' !in path[|UPLOADS|..]
    && StartsWith(path, UPLOADS + kind + "-") && EndsWith(path, ".pdf")
  }

  /** The uploads that the clean-up removes. */
  function Stale(files: Files, upload: Upload): set<string> {
    set path | path in files && InGlob(upload.kind, path) && path != StoredPath(upload)
  }

  /** The upload is one that `parse_upload_payload` and the template authority let through. */
  predicate Proper(upload: Upload) {
    upload.kind in DOCUMENT_TYPES && '/' !in upload.short && '/' !in upload.safeName && EndsWith(upload.safeName, ".pdf")
  }

  predicate Names(row: Row, path: string) {
    StartsWith(row.reference, LOCAL) && row.reference[|LOCAL|..] == path
  }

  /** Some approved row names the path. */
  ghost predicate Named(table: Table, path: string) {
    exists key :: IsApproved(table, key) && Names(table[key], path)
  }

  /** The file an approved row names. */
  predicate NamesFile(files: Files, row: Row) {
    StartsWith(row.reference, LOCAL) && row.reference[|LOCAL|..] in files
  }

  predicate IsApproved(table: Table, key: Key) {
    key in table && key.0 in DOCUMENT_TYPES && table[key].status == Approved
  }

  /** Every approved row of the two types names a file that exists. */
  ghost predicate FilesExist(files: Files, table: Table) {
    forall key :: IsApproved(table, key) ==> NamesFile(files, table[key])
  }

  // ---------- paths ----------

  lemma {:induction false} StoredIsInGlob(upload: Upload)
    requires Proper(upload)
    ensures InGlob(upload.kind, StoredPath(upload))
  {
    var path, prefix := StoredPath(upload), UPLOADS + upload.kind + "-";
    assert StartsWith(path, prefix) by {
      assert path == prefix + (upload.short + "-" + upload.safeName);
    }
    StoredEndsInPdf(upload);
    assert '/' !in path[|UPLOADS|..] by { StoredNameHasNoSlash(upload); }
    assert |upload.safeName| >= 4;
  }

  lemma {:induction false} StoredEndsInPdf(upload: Upload)
    requires EndsWith(upload.safeName, ".pdf")
    ensures EndsWith(StoredPath(upload), ".pdf")
  {
    var path, n := StoredPath(upload), |upload.safeName|;
    assert path[|path| - n..] == upload.safeName;
    assert path[|path| - 4..] == upload.safeName[n - 4..];
  }

  lemma {:induction false} StoredNameHasNoSlash(upload: Upload)
    requires Proper(upload)
    ensures '/' !in StoredPath(upload)[|UPLOADS|..]
  {
    var name := StoredPath(upload)[|UPLOADS|..];
    assert name == upload.kind + "-" + upload.short + "-" + upload.safeName;
    assert '/' !in "base_cv" && '/' !in "base_application_letter" && '/' !in "-";
  }

  /** The letters of an upload's name that tell it from a temporary one and from the other type's. */
  lemma {:induction false} GlobLetters(kind: string, path: string)
    requires kind in DOCUMENT_TYPES && InGlob(kind, path)
    ensures |path| > 13 && path[8] == 'b' && path[13] == if kind == "base_cv" then 'c' else 'a'
  {
    var prefix := UPLOADS + kind + "-";
    assert path[..|prefix|] == prefix;
    assert prefix[8] == 'b' && prefix[13] == if kind == "base_cv" then 'c' else 'a';
    assert path[8] == path[..|prefix|][8] && path[13] == path[..|prefix|][13];
  }

  /** The two types' uploads have different names. */
  lemma {:induction false} GlobsAreDisjoint(kind: string, other: string, path: string)
    requires kind in DOCUMENT_TYPES && other in DOCUMENT_TYPES && kind != other
    ensures !(InGlob(kind, path) && InGlob(other, path))
  {
    if InGlob(kind, path) { GlobLetters(kind, path); }
    if InGlob(other, path) { GlobLetters(other, path); }
  }

  lemma {:induction false} TemporaryIsHidden(upload: Upload, kind: string)
    requires kind in DOCUMENT_TYPES
    ensures !InGlob(kind, TemporaryPath(upload))
  {
    assert TemporaryPath(upload)[8] == '.';
    if InGlob(kind, TemporaryPath(upload)) { GlobLetters(kind, TemporaryPath(upload)); }
  }

  lemma {:induction false} StoredIsUpload(upload: Upload)
    ensures StartsWith(StoredPath(upload), UPLOADS) && StartsWith(TemporaryPath(upload), UPLOADS)
  {
    assert StoredPath(upload) == UPLOADS + (upload.kind + "-" + upload.short + "-" + upload.safeName);
    assert TemporaryPath(upload) == UPLOADS + ("." + upload.kind + "-" + upload.short + ".uploading.pdf");
  }

  lemma {:induction false} ReferenceOfStored(upload: Upload)
    ensures StartsWith(DocumentOf(upload).reference, LOCAL)
    ensures DocumentOf(upload).reference[|LOCAL|..] == StoredPath(upload)
  {
  }

  /** The pattern in full: the directory, the type, a dash, any name without a slash, and the suffix. */
  lemma {:induction false} InGlobMeans(kind: string, path: string)
    requires '/' !in kind
    ensures InGlob(kind, path) <==> exists name :: '/' !in name && path == UPLOADS + kind + "-" + name + ".pdf"
  {
    var prefix := UPLOADS + kind + "-";
    if InGlob(kind, path) {
      var name := path[|prefix|..|path| - 4];
      assert path == path[..|prefix|] + name + path[|path| - 4..];
      assert forall k :: 0 <= k < |name| ==> name[k] == path[|UPLOADS|..][|kind| + 1 + k];
    }
    if name :| '/' !in name && path == prefix + name + ".pdf" {
      GlobOfName(kind, name);
    }
  }

  lemma {:induction false} GlobOfName(kind: string, name: string)
    requires '/' !in kind && '/' !in name
    ensures InGlob(kind, UPLOADS + kind + "-" + name + ".pdf")
  {
    var path := UPLOADS + kind + "-" + name + ".pdf";
    assert path[|UPLOADS|..] == kind + "-" + name + ".pdf";
    assert path[|path| - 4..] == ".pdf";
  }

  /** Uploads with hash beginnings of one length are stored under one path exactly if type, beginning and name agree. */
  lemma {:induction false} StoredPathsAgree(a: Upload, b: Upload)
    requires Proper(a) && Proper(b) && |a.short| == |b.short|
    ensures StoredPath(a) == StoredPath(b) <==> a.kind == b.kind && a.short == b.short && a.safeName == b.safeName
  {
    if StoredPath(a) == StoredPath(b) {
      StoredIsInGlob(a);
      StoredIsInGlob(b);
      if a.kind != b.kind { GlobsAreDisjoint(a.kind, b.kind, StoredPath(a)); }
      StoredAs(a);
      StoredAs(b);
      BehindPrefix(UPLOADS + a.kind + "-", a.short, "-" + a.safeName, b.short, "-" + b.safeName);
      BehindPrefix("", "-", a.safeName, "-", b.safeName);
      assert "" + ("-" + a.safeName) == "-" + a.safeName && "" + ("-" + b.safeName) == "-" + b.safeName;
    }
  }

  lemma {:induction false} StoredAs(upload: Upload)
    ensures StoredPath(upload) == (UPLOADS + upload.kind + "-") + (upload.short + ("-" + upload.safeName))
  {
  }

  /** And they share a temporary file exactly if type and beginning agree. */
  lemma {:induction false} TemporaryPathsAgree(a: Upload, b: Upload)
    requires a.kind in DOCUMENT_TYPES && b.kind in DOCUMENT_TYPES && |a.short| == |b.short|
    ensures TemporaryPath(a) == TemporaryPath(b) <==> a.kind == b.kind && a.short == b.short
  {
    if TemporaryPath(a) == TemporaryPath(b) {
      TemporaryKind(a);
      TemporaryKind(b);
      TemporaryAs(a);
      TemporaryAs(b);
      BehindPrefix(UPLOADS + "." + a.kind + "-", a.short, ".uploading.pdf", b.short, ".uploading.pdf");
    }
  }

  lemma {:induction false} TemporaryAs(upload: Upload)
    ensures TemporaryPath(upload) == (UPLOADS + "." + upload.kind + "-") + (upload.short + ".uploading.pdf")
  {
  }

  lemma {:induction false} TemporaryKind(upload: Upload)
    requires upload.kind in DOCUMENT_TYPES
    ensures |TemporaryPath(upload)| > 14 && TemporaryPath(upload)[14] == if upload.kind == "base_cv" then 'c' else 'a'
  {
    assert TemporaryPath(upload) == (UPLOADS + ".") + upload.kind + ("-" + upload.short + ".uploading.pdf");
    assert TemporaryPath(upload)[14] == upload.kind[5];
  }

  lemma {:induction false} BehindPrefix(prefix: string, a: string, x: string, b: string, y: string)
    requires |a| == |b|
    ensures prefix + (a + x) == prefix + (b + y) ==> a == b && x == y
  {
    if prefix + (a + x) == prefix + (b + y) {
      assert (prefix + (a + x))[|prefix|..] == a + x && (prefix + (b + y))[|prefix|..] == b + y;
      assert (a + x)[..|a|] == a && (b + y)[..|b|] == b && (a + x)[|a|..] == x && (b + y)[|b|..] == y;
    }
  }

  /** The row that an intake writes, column by column. */
  lemma {:induction false} IntakeWrites(table: Table, upload: Upload)
    requires upload.kind in DOCUMENT_TYPES && CommitOne(table, upload).Some? && CommitOne(table, upload).value.1
    ensures var after, key := CommitOne(table, upload).value.0, (upload.kind, upload.hash);
      && key in after && after[key].status == Approved && after[key].approvedBy == Some("local_operator")
      && after[key].reference == "local://" + ("uploads/" + upload.kind + "-" + upload.short + "-" + upload.safeName)
      && after[key].sourceLabel ==
           (if upload.kind == "base_cv" then "F6 canonical CV template" else "F6 canonical application-letter template")
  {
    OneDocumentWrites(table, DocumentOf(upload), OPERATOR);
  }

  // ---------- one completed intake ----------

  /** The files after the rename and the clean-up. */
  function FilesAfter(files: Files, upload: Upload): Files {
    var stored := (files - {TemporaryPath(upload)})[StoredPath(upload) := upload.hash];
    stored - Stale(stored, upload)
  }

  /** The clean-up of the intake removes a file that an approved row will still name. */
  ghost predicate Strands(table: Table, upload: Upload) {
    exists key :: IsApproved(table, key) && (key.0 != upload.kind || key.1 == upload.hash) && NamesRemoved(table[key], upload)
  }

  predicate NamesRemoved(row: Row, upload: Upload) {
    StartsWith(row.reference, LOCAL) &&
    var path := row.reference[|LOCAL|..];
    path == TemporaryPath(upload) || (InGlob(upload.kind, path) && path != StoredPath(upload))
  }

  lemma {:induction false} FilesAfterMembers(files: Files, upload: Upload, path: string)
    requires Proper(upload)
    ensures path in FilesAfter(files, upload) <==>
      path == StoredPath(upload)
      || (path in files && path != TemporaryPath(upload) && !InGlob(upload.kind, path))
    ensures path in FilesAfter(files, upload) && path != StoredPath(upload) ==> FilesAfter(files, upload)[path] == files[path]
    ensures FilesAfter(files, upload)[StoredPath(upload)] == upload.hash
  {
    StoredIsInGlob(upload);
  }

  /** A completed intake leaves exactly its own upload of the type, and every upload of the other type. */
  lemma {:induction false} OneUploadIsLeft(files: Files, upload: Upload, other: string)
    requires Proper(upload) && other in DOCUMENT_TYPES && other != upload.kind
    ensures forall path :: path in FilesAfter(files, upload) && InGlob(upload.kind, path) <==> path == StoredPath(upload)
    ensures FilesAfter(files, upload)[StoredPath(upload)] == upload.hash
    ensures forall path :: InGlob(other, path) ==>
      (path in FilesAfter(files, upload) <==> path in files)
      && (path in files ==> FilesAfter(files, upload)[path] == files[path])
  {
    StoredIsInGlob(upload);
    forall path
      ensures path in FilesAfter(files, upload) && InGlob(upload.kind, path) <==> path == StoredPath(upload)
    {
      FilesAfterMembers(files, upload, path);
    }
    forall path | InGlob(other, path)
      ensures (path in FilesAfter(files, upload) <==> path in files)
              && (path in files ==> FilesAfter(files, upload)[path] == files[path])
    {
      FilesAfterMembers(files, upload, path);
      GlobsAreDisjoint(upload.kind, other, path);
      TemporaryIsHidden(upload, other);
    }
    FilesAfterMembers(files, upload, StoredPath(upload));
  }

  const OPERATOR := "local_operator"

  /** The table part of an intake: `load_current_approved`, then `apply_documents` for the one document. */
  function CommitOne(table: Table, upload: Upload): Option<(Table, bool)> {
    if Ambiguous(table) then None else ApplyOne(table, DocumentOf(upload), OPERATOR)
  }

  /** The intake refuses exactly a table in which one of the two types is ambiguous. */
  lemma {:induction false} CommitFailsOnAmbiguous(table: Table, upload: Upload)
    requires upload.kind in DOCUMENT_TYPES
    ensures CommitOne(table, upload) == None <==> !(forall kind :: kind in DOCUMENT_TYPES ==> AtMostOne(table, kind))
  {
    if !Ambiguous(table) {
      assert |ApprovedHashes(table, upload.kind)| <= 1;
      forall kind | kind in DOCUMENT_TYPES
        ensures AtMostOne(table, kind)
      {
        assert |ApprovedHashes(table, kind)| <= 1;
      }
    }
  }

  /** What the commit does to one row. */
  lemma {:induction false} CommittedRow(table: Table, upload: Upload, key: Key)
    requires upload.kind in DOCUMENT_TYPES && CommitOne(table, upload).Some?
    ensures var after := CommitOne(table, upload).value.0;
      && (IsApproved(after, key) <==>
            (key == (upload.kind, upload.hash) || (key.0 != upload.kind && IsApproved(table, key))))
      && (IsApproved(after, key) ==>
            after[key] == if IsApproved(table, key) then table[key] else ApprovedRow(DocumentOf(upload), OPERATOR))
  {
    var approved := ApprovedHashes(table, upload.kind);
    assert IsApproved(table, (upload.kind, upload.hash)) ==> upload.hash in approved;
    if upload.hash in approved {
      SingletonOf(approved, upload.hash);
      if key.0 == upload.kind && IsApproved(table, key) {
        assert key.1 in approved;
        assert key == (key.0, key.1);
      }
    }
  }

  /**
   * After a completed intake every approved row still names an existing file exactly when the intake
   * does not strand one.
   */
  lemma {:induction false} IntakeKeepsFilesExactly(files: Files, table: Table, upload: Upload)
    requires Proper(upload) && FilesExist(files, table)
    requires CommitOne(table, upload).Some?
    ensures FilesExist(FilesAfter(files, upload), CommitOne(table, upload).value.0)
      <==> !Strands(table, upload)
  {
    var after := CommitOne(table, upload).value.0;
    forall key
      ensures IsApproved(after, key) && !NamesFile(FilesAfter(files, upload), after[key])
        <==> IsApproved(table, key) && (key.0 != upload.kind || key.1 == upload.hash) && NamesRemoved(table[key], upload)
    {
      CommittedRow(table, upload, key);
      StoredIsInGlob(upload);
      ReferenceOfStored(upload);
      assert key == (key.0, key.1);
      if IsApproved(after, key) {
        assert StartsWith(after[key].reference, LOCAL);
        FilesAfterMembers(files, upload, after[key].reference[|LOCAL|..]);
      }
      TemporaryIsStored(upload);
    }
  }

  lemma {:induction false} TemporaryIsStored(upload: Upload)
    requires Proper(upload)
    ensures TemporaryPath(upload) != StoredPath(upload)
  {
    TemporaryIsHidden(upload, upload.kind);
    StoredIsInGlob(upload);
  }

  /** A template renamed without a new hash: the table keeps the old reference, the clean-up removes its file. */
  lemma {:induction false} RenamedTemplateStrands(first: Upload, renamed: Upload)
    requires Proper(first) && Proper(renamed)
    requires first.kind == renamed.kind && first.hash == renamed.hash && first.short == renamed.short && first.safeName != renamed.safeName
    ensures var files: Files := map[StoredPath(first) := first.hash];
      var table: Table := map[(first.kind, first.hash) := ApprovedRow(DocumentOf(first), OPERATOR)];
      && FilesExist(files, table) && CommitOne(table, renamed) == Some((table, false))
      && StoredPath(first) !in FilesAfter(files, renamed)
      && !FilesExist(FilesAfter(files, renamed), table)
  {
    var files: Files := map[StoredPath(first) := first.hash];
    var key := (first.kind, first.hash);
    var table: Table := map[key := ApprovedRow(DocumentOf(first), OPERATOR)];
    assert ApprovedHashes(table, first.kind) == {first.hash} by {
      assert key in table;
    }
    forall kind | kind in DOCUMENT_TYPES
      ensures |ApprovedHashes(table, kind)| <= 1
    {
      if kind != first.kind { assert ApprovedHashes(table, kind) == {}; }
    }
    ReferenceOfStored(first);
    StoredIsInGlob(first);
    var prefix := UPLOADS + first.kind + "-" + first.short + "-";
    assert StoredPath(first)[|prefix|..] == first.safeName && StoredPath(renamed)[|prefix|..] == renamed.safeName;
    FilesAfterMembers(files, renamed, StoredPath(first));
    assert IsApproved(table, key) && !NamesFile(FilesAfter(files, renamed), table[key]);
  }

  /**
   * No renamed template is needed: an import may approve a file of the upload directory under another matching
   * name, and the next intake of the same content keeps that row and removes its file.
   */
  lemma {:induction false} ImportedUploadStrands(files: Files, table: Table, upload: Upload, name: string, source: string, approvedBy: string)
    requires Proper(upload) && InGlob(upload.kind, name) && name != StoredPath(upload)
    requires name in files && files[name] == upload.hash && FilesExist(files, table) && !Ambiguous(table)
    requires upload.hash !in ApprovedHashes(table, upload.kind)
    ensures var document := Document(upload.kind, source, LOCAL + name, upload.hash);
      var imported := ApplyAll(table, [document], approvedBy);
      && imported.Some? && FilesExist(files, imported.value.table) && Strands(imported.value.table, upload)
      && CommitOne(imported.value.table, upload) == Some((imported.value.table, false))
      && name !in FilesAfter(files, upload)
      && !FilesExist(FilesAfter(files, upload), imported.value.table)
  {
    var document := Document(upload.kind, source, LOCAL + name, upload.hash);
    var after := ApplyOne(table, document, approvedBy).value.0;
    ApplySingle(table, document, approvedBy);
    ApplyOneApproves(table, document, approvedBy);
    forall kind | kind in DOCUMENT_TYPES
      ensures |ApprovedHashes(after, kind)| <= 1
    {
      if kind != upload.kind { ApplyOneFrame(table, document, approvedBy, kind); }
    }
    assert FilesExist(files, after) by { ImportedFileExists(files, table, document, approvedBy); }
    var key := KeyOf(document);
    assert IsApproved(after, key) && NamesRemoved(after[key], upload);
    FilesAfterMembers(files, upload, name);
    IntakeKeepsFilesExactly(files, after, upload);
  }

  lemma {:induction false} ImportedFileExists(files: Files, table: Table, document: Document, approvedBy: string)
    requires FilesExist(files, table) && ApplyOne(table, document, approvedBy).Some?
    requires StartsWith(document.reference, LOCAL) && document.reference[|LOCAL|..] in files
    ensures FilesExist(files, ApplyOne(table, document, approvedBy).value.0)
  {
    var after := ApplyOne(table, document, approvedBy).value.0;
    forall key | IsApproved(after, key)
      ensures NamesFile(files, after[key])
    {
      if after[key] != ApprovedRow(document, approvedBy) {
        assert IsApproved(table, key) && after[key] == table[key];
      }
    }
  }

  // ---------- every step of every run ----------

  datatype Phase = Idle | Written(upload: Upload) | Stored(upload: Upload) | Committed(upload: Upload)

  datatype State = State(files: Files, table: Table, phase: Phase)

  /** `Cut` is any point where an intake stops: an exception, a dropped connection, a killed process. */
  datatype Step =
    | WriteTemporary(upload: Upload, content: string)
    | UnlinkTemporary
    | Rename
    | Commit
    | Clean(path: string)
    | Finish
    | Cut
    | ImportDocuments(documents: seq<Document>, approvedBy: string)

  predicate Enabled(s: State, step: Step) {
    match step
    case WriteTemporary(upload, _) => s.phase == Idle && Proper(upload)
    case UnlinkTemporary => s.phase.Written?
    case Rename => s.phase.Written? && TemporaryPath(s.phase.upload) in s.files
                   && s.files[TemporaryPath(s.phase.upload)] == s.phase.upload.hash
    case Commit => s.phase.Stored? && CommitOne(s.table, s.phase.upload).Some?
    case Clean(path) => s.phase.Committed? && path in Stale(s.files, s.phase.upload)
    case Finish => s.phase.Committed? && Stale(s.files, s.phase.upload) == {}
    case Cut => s.phase != Idle
    case ImportDocuments(documents, approvedBy) => s.phase == Idle && ApplyAll(s.table, documents, approvedBy).Some?
  }

  function Perform(s: State, step: Step): State
    requires Enabled(s, step)
  {
    match step
    case WriteTemporary(upload, content) => s.(files := s.files[TemporaryPath(upload) := content], phase := Written(upload))
    case UnlinkTemporary => s.(files := s.files - {TemporaryPath(s.phase.upload)}, phase := Idle)
    case Rename =>
      var upload := s.phase.upload;
      s.(files := (s.files - {TemporaryPath(upload)})[StoredPath(upload) := upload.hash], phase := Stored(upload))
    case Commit =>
      var upload := s.phase.upload;
      s.(table := CommitOne(s.table, upload).value.0, phase := Committed(upload))
    case Clean(path) => s.(files := s.files - {path})
    case Finish => s.(phase := Idle)
    case Cut => s.(phase := Idle)
    case ImportDocuments(documents, approvedBy) => s.(table := ApplyAll(s.table, documents, approvedBy).value.table)
  }

  // ---------- arbitrary names ----------

  /** `build_document` reads the file: a document that is imported names an existing one and has its hash. */
  predicate Reads(s: State, step: Step) {
    step.ImportDocuments? ==>
      forall k :: 0 <= k < |step.documents| ==>
        var reference := step.documents[k].reference;
        && StartsWith(reference, LOCAL) && reference[|LOCAL|..] in s.files
        && s.files[reference[|LOCAL|..]] == step.documents[k].hash
  }

  /** An intake's upload has passed the checks, and once renamed it is in place. */
  predicate Placed(s: State) {
    && (s.phase != Idle ==> Proper(s.phase.upload))
    && (s.phase.Stored? || s.phase.Committed? ==>
          StoredPath(s.phase.upload) in s.files && s.files[StoredPath(s.phase.upload)] == s.phase.upload.hash)
  }

  /** The step removes the file of an approved row. */
  ghost predicate Loses(s: State, step: Step) {
    match step
    case UnlinkTemporary => s.phase.Written? && Named(s.table, TemporaryPath(s.phase.upload))
    case Rename => s.phase.Written? && Named(s.table, TemporaryPath(s.phase.upload))
    case Clean(path) => Named(s.table, path)
    case _ => false
  }

  lemma {:induction false} StepKeepsPlaced(s: State, step: Step)
    requires Placed(s) && Enabled(s, step)
    ensures Placed(Perform(s, step))
  {
  }

  /** Without the path, the approved rows' files are all there exactly if none of the rows names it. */
  lemma {:induction false} WithoutPath(files: Files, rest: Files, table: Table, path: string)
    requires FilesExist(files, table) && files.Keys - {path} <= rest.Keys && path !in rest
    ensures FilesExist(rest, table) <==> !Named(table, path)
  {
    forall key | IsApproved(table, key)
      ensures NamesFile(rest, table[key]) <==> !Names(table[key], path)
    {
      assert NamesFile(files, table[key]);
    }
  }

  lemma {:induction false} CommitKeepsFiles(s: State)
    requires FilesExist(s.files, s.table) && Placed(s) && Enabled(s, Commit)
    ensures FilesExist(s.files, Perform(s, Commit).table)
  {
    var upload, t := s.phase.upload, Perform(s, Commit);
    forall key | IsApproved(t.table, key)
      ensures NamesFile(s.files, t.table[key])
    {
      CommittedRow(s.table, upload, key);
      ReferenceOfStored(upload);
    }
  }

  lemma {:induction false} ImportKeepsFiles(s: State, step: Step)
    requires FilesExist(s.files, s.table) && step.ImportDocuments? && Enabled(s, step) && Reads(s, step)
    ensures FilesExist(s.files, Perform(s, step).table)
  {
    var t := Perform(s, step);
    forall key | IsApproved(t.table, key)
      ensures NamesFile(s.files, t.table[key])
    {
      ImportedRow(s.table, step.documents, step.approvedBy, key);
    }
  }

  /** Whatever the names: one step keeps the files of all approved rows exactly if it removes none of them. */
  lemma {:induction false} StepKeepsFilesExactly(s: State, step: Step)
    requires FilesExist(s.files, s.table) && Placed(s) && Enabled(s, step) && Reads(s, step)
    ensures FilesExist(Perform(s, step).files, Perform(s, step).table) <==> !Loses(s, step)
  {
    var t := Perform(s, step);
    match step
    case WriteTemporary(_, _) => assert s.files.Keys <= t.files.Keys;
    case UnlinkTemporary => WithoutPath(s.files, t.files, s.table, TemporaryPath(s.phase.upload));
    case Rename =>
      TemporaryIsStored(s.phase.upload);
      WithoutPath(s.files, t.files, s.table, TemporaryPath(s.phase.upload));
    case Commit => CommitKeepsFiles(s);
    case Clean(path) => WithoutPath(s.files, t.files, s.table, path);
    case ImportDocuments(_, _) => ImportKeepsFiles(s, step);
    case _ =>
  }

  /** The steps follow one another from here on, under any names. */
  ghost predicate Follows(s: State, steps: seq<Step>)
    decreases |steps|
  {
    steps == [] || (Enabled(s, steps[0]) && Reads(s, steps[0]) && Follows(Perform(s, steps[0]), steps[1..]))
  }

  ghost predicate FilesExistThroughout(s: State, steps: seq<Step>)
    requires Follows(s, steps)
    decreases |steps|
  {
    FilesExist(s.files, s.table) && (steps == [] || FilesExistThroughout(Perform(s, steps[0]), steps[1..]))
  }

  ghost predicate NeverLoses(s: State, steps: seq<Step>)
    requires Follows(s, steps)
    decreases |steps|
  {
    steps == [] || (!Loses(s, steps[0]) && NeverLoses(Perform(s, steps[0]), steps[1..]))
  }

  /**
   * On every run of intakes and imports, under any names and wherever the intakes are cut off: the approved rows
   * name existing files at every step if and only if no clean-up and no removal of a temporary file takes a path
   * that an approved row names at that step.
   */
  lemma {:induction false} RunKeepsFilesExactly(s: State, steps: seq<Step>)
    requires FilesExist(s.files, s.table) && Placed(s) && Follows(s, steps)
    ensures FilesExistThroughout(s, steps) <==> NeverLoses(s, steps)
    decreases |steps|
  {
    if steps != [] {
      var next := Perform(s, steps[0]);
      StepKeepsFilesExactly(s, steps[0]);
      StepKeepsPlaced(s, steps[0]);
      if !Loses(s, steps[0]) {
        RunKeepsFilesExactly(next, steps[1..]);
      } else {
        assert !FilesExistThroughout(next, steps[1..]);
      }
    }
  }

  // ---------- stable names ----------

  /** The upload a content is stored as, when the template manifest names each content once and for all. */
  type Naming = (string, string) -> Upload

  /** An approved row names a file outside the upload directory, or the upload of its own content. */
  ghost predicate Anchored(naming: Naming, key: Key, reference: string) {
    StartsWith(reference, LOCAL) &&
    var path := reference[|LOCAL|..];
    !StartsWith(path, UPLOADS) || path == StoredPath(naming(key.0, key.1))
  }

  ghost predicate IsNaming(naming: Naming) {
    forall kind, hash :: kind in DOCUMENT_TYPES ==>
      Proper(naming(kind, hash)) && naming(kind, hash).kind == kind && naming(kind, hash).hash == hash
  }

  /**
   * The step uses the fixed names, and imports only files that exist and have the document's hash, outside the
   * upload directory or under those names.
   */
  ghost predicate Steady(naming: Naming, s: State, step: Step) {
    match step
    case WriteTemporary(upload, _) => upload == naming(upload.kind, upload.hash)
    case ImportDocuments(documents, _) =>
      && Reads(s, step)
      && forall k :: 0 <= k < |documents| ==> Anchored(naming, KeyOf(documents[k]), documents[k].reference)
    case _ => true
  }

  ghost predicate RowSafe(naming: Naming, s: State, key: Key)
    requires key in s.table
  {
    && NamesFile(s.files, s.table[key]) && Anchored(naming, key, s.table[key].reference)
    && (s.phase.Committed? && key.0 == s.phase.upload.kind ==> key.1 == s.phase.upload.hash)
  }

  /** What holds at every step. */
  ghost predicate Safe(naming: Naming, s: State) {
    && (forall key :: IsApproved(s.table, key) ==> RowSafe(naming, s, key))
    && Placed(s) && (s.phase != Idle ==> s.phase.upload == naming(s.phase.upload.kind, s.phase.upload.hash))
  }

  ghost predicate Runs(naming: Naming, s: State, steps: seq<Step>, t: State)
    decreases |steps|
  {
    if steps == [] then s == t
    else Enabled(s, steps[0]) && Steady(naming, s, steps[0]) && Runs(naming, Perform(s, steps[0]), steps[1..], t)
  }

  /** A path an approved row may name is not a temporary one. */
  lemma {:induction false} AnchoredIsNotTemporary(naming: Naming, key: Key, reference: string, upload: Upload)
    requires IsNaming(naming) && key.0 in DOCUMENT_TYPES && Anchored(naming, key, reference)
    ensures reference[|LOCAL|..] != TemporaryPath(upload)
  {
    StoredIsUpload(upload);
    var own := naming(key.0, key.1);
    StoredIsInGlob(own);
    TemporaryIsHidden(upload, own.kind);
  }

  lemma {:induction false} FileStepKeepsSafe(naming: Naming, s: State, step: Step)
    requires IsNaming(naming) && Safe(naming, s) && Enabled(s, step) && Steady(naming, s, step)
    requires step.WriteTemporary? || step.UnlinkTemporary? || step.Rename?
    ensures Safe(naming, Perform(s, step))
  {
    var t := Perform(s, step);
    var upload := if step.WriteTemporary? then step.upload else s.phase.upload;
    forall key | IsApproved(t.table, key)
      ensures RowSafe(naming, t, key)
    {
      assert IsApproved(s.table, key) && RowSafe(naming, s, key);
      AnchoredIsNotTemporary(naming, key, s.table[key].reference, upload);
    }
  }

  lemma {:induction false} CommitKeepsSafe(naming: Naming, s: State)
    requires IsNaming(naming) && Safe(naming, s) && Enabled(s, Commit)
    ensures Safe(naming, Perform(s, Commit))
  {
    var upload, t := s.phase.upload, Perform(s, Commit);
    forall key | IsApproved(t.table, key)
      ensures RowSafe(naming, t, key)
    {
      CommittedRow(s.table, upload, key);
      if IsApproved(s.table, key) {
        assert RowSafe(naming, s, key);
      } else {
        assert key == (upload.kind, upload.hash);
        ReferenceOfStored(upload);
      }
    }
  }

  lemma {:induction false} CleanKeepsSafe(naming: Naming, s: State, path: string)
    requires IsNaming(naming) && Safe(naming, s) && Enabled(s, Clean(path))
    ensures Safe(naming, Perform(s, Clean(path)))
  {
    var upload, t := s.phase.upload, Perform(s, Clean(path));
    forall key | IsApproved(t.table, key)
      ensures RowSafe(naming, t, key)
    {
      assert IsApproved(s.table, key) && RowSafe(naming, s, key);
      var own := naming(key.0, key.1);
      StoredIsInGlob(own);
      assert StartsWith(path, UPLOADS) by { GlobIsUpload(upload.kind, path); }
      if own.kind != upload.kind { GlobsAreDisjoint(own.kind, upload.kind, path); }
    }
  }

  lemma {:induction false} GlobIsUpload(kind: string, path: string)
    requires InGlob(kind, path)
    ensures StartsWith(path, UPLOADS)
  {
    var prefix := UPLOADS + kind + "-";
    assert path[..|prefix|] == prefix;
    assert path[..|UPLOADS|] == prefix[..|UPLOADS|] == UPLOADS;
  }

  /** An approved row after an import was approved before, or is that of an imported document. */
  lemma {:induction false} ImportedRow(table: Table, documents: seq<Document>, approvedBy: string, key: Key)
    requires ApplyAll(table, documents, approvedBy).Some?
    requires IsApproved(ApplyAll(table, documents, approvedBy).value.table, key)
    ensures var row := ApplyAll(table, documents, approvedBy).value.table[key];
      || (IsApproved(table, key) && table[key] == row)
      || exists k :: 0 <= k < |documents| && KeyOf(documents[k]) == key && row == ApprovedRow(documents[k], approvedBy)
    decreases |documents|
  {
    if documents != [] {
      var next, rest := ApplyOne(table, documents[0], approvedBy).value.0, documents[1..];
      ImportedRow(next, rest, approvedBy, key);
      var row := ApplyAll(table, documents, approvedBy).value.table[key];
      if k :| 0 <= k < |rest| && KeyOf(rest[k]) == key && row == ApprovedRow(rest[k], approvedBy) {
        assert documents[k + 1] == rest[k];
      }
    }
  }

  lemma {:induction false} ImportKeepsSafe(naming: Naming, s: State, documents: seq<Document>, approvedBy: string)
    requires Safe(naming, s) && Enabled(s, ImportDocuments(documents, approvedBy))
    requires Steady(naming, s, ImportDocuments(documents, approvedBy))
    ensures Safe(naming, Perform(s, ImportDocuments(documents, approvedBy)))
  {
    var t := Perform(s, ImportDocuments(documents, approvedBy));
    forall key | IsApproved(t.table, key)
      ensures RowSafe(naming, t, key)
    {
      ImportedRow(s.table, documents, approvedBy, key);
      if IsApproved(s.table, key) && s.table[key] == t.table[key] {
        assert RowSafe(naming, s, key);
      }
    }
  }

  lemma {:induction false} StepKeepsSafe(naming: Naming, s: State, step: Step)
    requires IsNaming(naming) && Safe(naming, s) && Enabled(s, step) && Steady(naming, s, step)
    ensures Safe(naming, Perform(s, step))
  {
    match step
    case WriteTemporary(_, _) => FileStepKeepsSafe(naming, s, step);
    case UnlinkTemporary => FileStepKeepsSafe(naming, s, step);
    case Rename => FileStepKeepsSafe(naming, s, step);
    case Commit => CommitKeepsSafe(naming, s);
    case Clean(path) => CleanKeepsSafe(naming, s, path);
    case ImportDocuments(documents, approvedBy) => ImportKeepsSafe(naming, s, documents, approvedBy);
    case Finish => PhaseEndKeepsSafe(naming, s);
    case Cut => PhaseEndKeepsSafe(naming, s);
  }

  lemma {:induction false} PhaseEndKeepsSafe(naming: Naming, s: State)
    requires Safe(naming, s)
    ensures Safe(naming, s.(phase := Idle))
  {
    forall key | IsApproved(s.table, key)
      ensures RowSafe(naming, s.(phase := Idle), key)
    {
      assert RowSafe(naming, s, key);
    }
  }

  /**
   * With stable names, after any number of steps of any run of intakes and imports, wherever the
   * intakes were cut off, every approved row names a file that exists.
   */
  lemma {:induction false} RunKeepsFiles(naming: Naming, s: State, steps: seq<Step>, t: State)
    requires IsNaming(naming) && Safe(naming, s) && Runs(naming, s, steps, t)
    ensures Safe(naming, t) && FilesExist(t.files, t.table)
    decreases |steps|
  {
    if steps == [] {
      forall key | IsApproved(t.table, key)
        ensures NamesFile(t.files, t.table[key])
      {
        assert RowSafe(naming, t, key);
      }
    } else {
      StepKeepsSafe(naming, s, steps[0]);
      RunKeepsFiles(naming, Perform(s, steps[0]), steps[1..], t);
    }
  }

  lemma {:induction false} CleaningRuns(naming: Naming, s: State) returns (steps: seq<Step>)
    requires s.phase.Committed?
    ensures Runs(naming, s, steps, State(s.files - Stale(s.files, s.phase.upload), s.table, Idle))
    decreases |Stale(s.files, s.phase.upload)|
  {
    var stale := Stale(s.files, s.phase.upload);
    if stale == {} {
      steps := [Finish];
      assert s.files - stale == s.files && steps[1..] == [];
    } else {
      var path :| path in stale;
      var next := Perform(s, Clean(path));
      assert Stale(next.files, s.phase.upload) == stale - {path};
      var rest := CleaningRuns(naming, next);
      assert next.files - (stale - {path}) == s.files - stale;
      steps := [Clean(path)] + rest;
      assert steps[1..] == rest;
    }
  }

  /** An intake that is not cut off runs through these steps to the files and the table of the closed form. */
  lemma {:induction false} CompletedIntakeRuns(naming: Naming, s: State, upload: Upload) returns (steps: seq<Step>)
    requires s.phase == Idle && Proper(upload) && upload == naming(upload.kind, upload.hash)
    requires CommitOne(s.table, upload).Some?
    ensures Runs(naming, s, steps,
      State(FilesAfter(s.files, upload), CommitOne(s.table, upload).value.0, Idle))
  {
    var write := WriteTemporary(upload, upload.hash);
    var s1 := Perform(s, write);
    var s2 := Perform(s1, Rename);
    assert s2.files == (s.files - {TemporaryPath(upload)})[StoredPath(upload) := upload.hash] by { TemporaryIsStored(upload); }
    var s3 := Perform(s2, Commit);
    var rest := CleaningRuns(naming, s3);
    var end := State(FilesAfter(s.files, upload), s3.table, Idle);
    RunsCons(naming, s2, Commit, rest, end);
    RunsCons(naming, s1, Rename, [Commit] + rest, end);
    RunsCons(naming, s, write, [Rename] + ([Commit] + rest), end);
    steps := [write] + ([Rename] + ([Commit] + rest));
  }

  lemma {:induction false} RunsCons(naming: Naming, s: State, step: Step, rest: seq<Step>, t: State)
    requires Enabled(s, step) && Steady(naming, s, step) && Runs(naming, Perform(s, step), rest, t)
    ensures Runs(naming, s, [step] + rest, t)
  {
    assert ([step] + rest)[1..] == rest;
  }

  lemma {:induction false} IngestedKeepsFiles(files: Files, table: Table, upload: Upload)
    requires Proper(upload) && CommitOne(table, upload).Some?
    ensures FilesExist(files, table) ==>
      (FilesExist(FilesAfter(files, upload), CommitOne(table, upload).value.0) <==> !Strands(table, upload))
  {
    if FilesExist(files, table) { IntakeKeepsFilesExactly(files, table, upload); }
  }

  // ---------- the intake as it runs through ----------

  datatype Outcome = ExtractionFailed | BuildFailed | TableRefused | Ingested(changed: bool)

  class Workspace {
    var files: Files
    var table: Table

    constructor (files: Files)
      ensures this.files == files && table == map[] && FilesExist(this.files, table)
    {
      this.files, table := files, map[];
    }

    /** `ingest_local_base_document` after validation; the two oracles say whether extraction and `build_document` succeed. */
    method Ingest(upload: Upload, extracts: bool, builds: bool) returns (outcome: Outcome)
      requires Proper(upload)
      modifies this
      ensures outcome == (
        if !extracts then ExtractionFailed
        else if !builds then BuildFailed
        else match CommitOne(old(table), upload)
          case None => TableRefused
          case Some(applied) => Ingested(applied.1))
      ensures outcome == ExtractionFailed ==> table == old(table) && files == old(files) - {TemporaryPath(upload)}
      ensures outcome == BuildFailed || outcome == TableRefused ==>
        table == old(table) && files == (old(files) - {TemporaryPath(upload)})[StoredPath(upload) := upload.hash]
      ensures outcome.Ingested? ==>
        table == CommitOne(old(table), upload).value.0 && files == FilesAfter(old(files), upload)
      ensures FilesExist(old(files), old(table)) && outcome.Ingested? ==>
        (FilesExist(files, table) <==> !Strands(old(table), upload))
    {
      TemporaryIsStored(upload);
      ghost var before := files;
      files := files[TemporaryPath(upload) := upload.hash];
      if !extracts {
        files := files - {TemporaryPath(upload)};
        return ExtractionFailed;
      }
      files := (files - {TemporaryPath(upload)})[StoredPath(upload) := upload.hash];
      assert files == (before - {TemporaryPath(upload)})[StoredPath(upload) := upload.hash];
      if !builds { return BuildFailed; }
      var applied := CommitOne(table, upload);
      if applied == None { return TableRefused; }
      IngestedKeepsFiles(before, table, upload);
      table := applied.value.0;
      RemoveStale(upload);
      return Ingested(applied.value.1);
    }

    /** The clean-up loop, in whatever order the directory lists its files. */
    method RemoveStale(upload: Upload)
      modifies this`files
      ensures files == old(files) - Stale(old(files), upload)
    {
      var stale := Stale(files, upload);
      ghost var before := files;
      while stale != {}
        invariant stale <= Stale(before, upload)
        invariant files == before - (Stale(before, upload) - stale)
        decreases |stale|
      {
        var path :| path in stale;
        files := files - {path};
        stale := stale - {path};
      }
    }
  }
}
