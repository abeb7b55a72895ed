/** Whether the file an approved row names has the approved content, at every step of every run. */
module DocumentContents {
  import opened SourceDocuments
  import opened DocumentIntake

  /** The row names a file with this content. */
  predicate HoldsContent(files: Files, row: Row, hash: string) {
    NamesFile(files, row) && files[row.reference[|LOCAL|..]] == hash
  }

  /** Every approved row of the two types names a file that has the row's hash. */
  ghost predicate Faithful(s: State) {
    forall key :: IsApproved(s.table, key) ==> HoldsContent(s.files, s.table[key], key.1)
  }

  /** An approved row names the path, but not for this content. */
  ghost predicate NamedForOther(table: Table, path: string, hash: string) {
    exists key :: IsApproved(table, key) && key.1 != hash && Names(table[key], path)
  }

  /** The step takes the file of an approved row, or writes another content over it. */
  ghost predicate Spoils(s: State, step: Step) {
    match step
    case WriteTemporary(upload, content) => NamedForOther(s.table, TemporaryPath(upload), content)
    case Rename => Loses(s, step) || Overwrites(s, step)
    case _ => Loses(s, step)
  }

  /** The step renames an upload onto the file of an approved row with another hash. */
  ghost predicate Overwrites(s: State, step: Step) {
    step.Rename? && s.phase.Written? && NamedForOther(s.table, StoredPath(s.phase.upload), s.phase.upload.hash)
  }

  /** Without the path, the approved rows keep their contents exactly if none of them names it. */
  lemma {:induction false} WithoutContent(s: State, path: string)
    requires Faithful(s)
    ensures Faithful(s.(files := s.files - {path})) <==> !Named(s.table, path)
  {
    var t := s.(files := s.files - {path});
    forall key | IsApproved(s.table, key)
      ensures HoldsContent(t.files, s.table[key], key.1) <==> !Names(s.table[key], path)
    {
      assert HoldsContent(s.files, s.table[key], key.1);
    }
  }

  /** With new content at the path, exactly if every approved row naming it is for that content. */
  lemma {:induction false} WithContent(s: State, path: string, hash: string)
    requires forall key :: IsApproved(s.table, key) && !Names(s.table[key], path) ==> HoldsContent(s.files, s.table[key], key.1)
    ensures Faithful(s.(files := s.files[path := hash])) <==> !NamedForOther(s.table, path, hash)
  {
    var t := s.(files := s.files[path := hash]);
    forall key | IsApproved(s.table, key)
      ensures HoldsContent(t.files, s.table[key], key.1) <==> !(key.1 != hash && Names(s.table[key], path))
    {
    }
  }

  lemma {:induction false} RenameKeepsContentsExactly(s: State)
    requires Faithful(s) && Placed(s) && Enabled(s, Rename)
    ensures Faithful(Perform(s, Rename)) <==> !Spoils(s, Rename)
  {
    var upload := s.phase.upload;
    var path := TemporaryPath(upload);
    var rest := s.(files := s.files - {path});
    TemporaryIsStored(upload);
    WithoutContent(s, path);
    if Named(s.table, path) {
      var key :| IsApproved(s.table, key) && Names(s.table[key], path);
      assert IsApproved(Perform(s, Rename).table, key) && !HoldsContent(Perform(s, Rename).files, s.table[key], key.1);
    } else {
      WithContent(rest, StoredPath(upload), upload.hash);
      assert Faithful(Perform(s, Rename)) <==> Faithful(rest.(files := rest.files[StoredPath(upload) := upload.hash]));
    }
  }

  lemma {:induction false} CommitKeepsContents(s: State)
    requires Placed(s) && Faithful(s) && Enabled(s, Commit)
    ensures Faithful(Perform(s, Commit))
  {
    var upload, t := s.phase.upload, Perform(s, Commit);
    forall key | IsApproved(t.table, key)
      ensures HoldsContent(t.files, t.table[key], key.1)
    {
      CommittedRow(s.table, upload, key);
      if IsApproved(s.table, key) {
        assert HoldsContent(s.files, s.table[key], key.1);
      } else {
        assert key == (upload.kind, upload.hash);
        ReferenceOfStored(upload);
      }
    }
  }

  lemma {:induction false} ImportKeepsContents(s: State, step: Step)
    requires Faithful(s) && step.ImportDocuments? && Enabled(s, step) && Reads(s, step)
    ensures Faithful(Perform(s, step))
  {
    var t := Perform(s, step);
    forall key | IsApproved(t.table, key)
      ensures HoldsContent(t.files, t.table[key], key.1)
    {
      ImportedRow(s.table, step.documents, step.approvedBy, key);
      if IsApproved(s.table, key) && s.table[key] == t.table[key] {
        assert HoldsContent(s.files, s.table[key], key.1);
      }
    }
  }

  lemma {:induction false} EndKeepsContents(s: State)
    requires Faithful(s)
    ensures Faithful(s.(phase := Idle))
  {
    forall key | IsApproved(s.table, key)
      ensures HoldsContent(s.files, s.table[key], key.1)
    {
    }
  }

  lemma {:induction false} SameContents(s: State, t: State)
    requires s.files == t.files && s.table == t.table
    ensures Faithful(s) <==> Faithful(t)
  {
  }

  /** Whatever the names: one step keeps the contents of all approved rows exactly when it spoils none of them. */
  lemma {:induction false} StepKeepsContentsExactly(s: State, step: Step)
    requires Placed(s) && Faithful(s) && Enabled(s, step) && Reads(s, step)
    ensures Faithful(Perform(s, step)) <==> !Spoils(s, step)
  {
    match step
    case WriteTemporary(upload, content) =>
      WithContent(s, TemporaryPath(upload), content);
      SameContents(Perform(s, step), s.(files := s.files[TemporaryPath(upload) := content]));
    case UnlinkTemporary =>
      WithoutContent(s, TemporaryPath(s.phase.upload));
      SameContents(Perform(s, step), s.(files := s.files - {TemporaryPath(s.phase.upload)}));
    case Rename => RenameKeepsContentsExactly(s);
    case Commit => CommitKeepsContents(s);
    case Clean(path) => WithoutContent(s, path);
    case ImportDocuments(_, _) => ImportKeepsContents(s, step);
    case Finish => EndKeepsContents(s);
    case Cut => EndKeepsContents(s);
  }

  /** The contents agree at every step of the run. */
  ghost predicate FaithfulThroughout(s: State, steps: seq<Step>)
    requires Follows(s, steps)
    decreases |steps|
  {
    Faithful(s) && (steps == [] || FaithfulThroughout(Perform(s, steps[0]), steps[1..]))
  }

  ghost predicate NeverSpoils(s: State, steps: seq<Step>)
    requires Follows(s, steps)
    decreases |steps|
  {
    steps == [] || (!Spoils(s, steps[0]) && NeverSpoils(Perform(s, steps[0]), steps[1..]))
  }

  /**
   * At every step of a run of intakes and imports, under any names and wherever the intakes are cut off, every
   * approved row names a file with exactly the approved content: if and only if no step takes such a file or
   * writes another content over it.
   */
  lemma {:induction false} RunKeepsContentsExactly(s: State, steps: seq<Step>)
    requires Placed(s) && Faithful(s) && Follows(s, steps)
    ensures FaithfulThroughout(s, steps) <==> NeverSpoils(s, steps)
    decreases |steps|
  {
    if steps != [] {
      StepKeepsContentsExactly(s, steps[0]);
      StepKeepsPlaced(s, steps[0]);
      if !Spoils(s, steps[0]) {
        RunKeepsContentsExactly(Perform(s, steps[0]), steps[1..]);
      } else {
        assert !FaithfulThroughout(Perform(s, steps[0]), steps[1..]);
      }
    }
  }

  // ---------- stable names ----------

  /** Under stable names only a rename can spoil a content. */
  lemma {:induction false} StableStepSpoils(naming: Naming, s: State, step: Step)
    requires IsNaming(naming) && Safe(naming, s) && Enabled(s, step)
    ensures Spoils(s, step) <==> Overwrites(s, step)
  {
    match step
    case WriteTemporary(upload, _) => TemporaryIsUnnamed(naming, s, upload);
    case UnlinkTemporary => TemporaryIsUnnamed(naming, s, s.phase.upload);
    case Rename => TemporaryIsUnnamed(naming, s, s.phase.upload);
    case Clean(path) => StaleIsUnnamed(naming, s, path);
    case _ =>
  }

  lemma {:induction false} TemporaryIsUnnamed(naming: Naming, s: State, upload: Upload)
    requires IsNaming(naming) && Safe(naming, s)
    ensures !Named(s.table, TemporaryPath(upload))
  {
    forall key | IsApproved(s.table, key)
      ensures !Names(s.table[key], TemporaryPath(upload))
    {
      assert RowSafe(naming, s, key);
      AnchoredIsNotTemporary(naming, key, s.table[key].reference, upload);
    }
  }

  lemma {:induction false} StaleIsUnnamed(naming: Naming, s: State, path: string)
    requires IsNaming(naming) && Safe(naming, s) && Enabled(s, Clean(path))
    ensures !Named(s.table, path)
  {
    var t := Perform(s, Clean(path));
    CleanKeepsSafe(naming, s, path);
    forall key | IsApproved(s.table, key)
      ensures !Names(s.table[key], path)
    {
      assert IsApproved(t.table, key) && RowSafe(naming, t, key);
    }
  }

  lemma {:induction false} RunFollows(naming: Naming, s: State, steps: seq<Step>, t: State)
    requires Runs(naming, s, steps, t)
    ensures Follows(s, steps)
    decreases |steps|
  {
    if steps != [] { RunFollows(naming, Perform(s, steps[0]), steps[1..], t); }
  }

  ghost predicate NeverOverwrites(s: State, steps: seq<Step>)
    requires Follows(s, steps)
    decreases |steps|
  {
    steps == [] || (!Overwrites(s, steps[0]) && NeverOverwrites(Perform(s, steps[0]), steps[1..]))
  }

  /** With stable names the one danger is a rename onto the file of an approved row with another hash. */
  lemma {:induction false} StableRunKeepsContentsExactly(naming: Naming, s: State, steps: seq<Step>, t: State)
    requires IsNaming(naming) && Safe(naming, s) && Faithful(s) && Runs(naming, s, steps, t) && Follows(s, steps)
    ensures FaithfulThroughout(s, steps) <==> NeverOverwrites(s, steps)
    ensures NeverOverwrites(s, steps) ==> Faithful(t)
    decreases |steps|
  {
    if steps != [] {
      StableStepSpoils(naming, s, steps[0]);
      StepKeepsContentsExactly(s, steps[0]);
      StepKeepsSafe(naming, s, steps[0]);
      if !Overwrites(s, steps[0]) {
        StableRunKeepsContentsExactly(naming, Perform(s, steps[0]), steps[1..], t);
      } else {
        assert !FaithfulThroughout(Perform(s, steps[0]), steps[1..]);
      }
    }
  }

  /** Different contents of a type are stored under different names. */
  ghost predicate Separates(naming: Naming) {
    forall kind, a, b :: kind in DOCUMENT_TYPES && a != b ==> StoredPath(naming(kind, a)) != StoredPath(naming(kind, b))
  }

  lemma {:induction false} SeparatedNeverOverwrites(naming: Naming, s: State, step: Step)
    requires IsNaming(naming) && Separates(naming) && Safe(naming, s)
    ensures !Overwrites(s, step)
  {
    if s.phase.Written? {
      var upload := s.phase.upload;
      forall key | IsApproved(s.table, key) && key.1 != upload.hash
        ensures !Names(s.table[key], StoredPath(upload))
      {
        assert RowSafe(naming, s, key);
        StoredIsUpload(upload);
        var own := naming(key.0, key.1);
        StoredIsInGlob(own);
        StoredIsInGlob(upload);
        if key.0 != upload.kind { GlobsAreDisjoint(key.0, upload.kind, StoredPath(upload)); }
        assert key.0 == upload.kind ==>
          StoredPath(naming(key.0, key.1)) != StoredPath(naming(upload.kind, upload.hash));
      }
    }
  }

  /** For the caller: where names tell contents apart, approved rows always name their own content. */
  lemma {:induction false} SeparatedRunKeepsContents(naming: Naming, s: State, steps: seq<Step>, t: State)
    requires IsNaming(naming) && Separates(naming) && Safe(naming, s) && Faithful(s) && Runs(naming, s, steps, t)
    ensures Follows(s, steps) && FaithfulThroughout(s, steps) && Faithful(t)
    decreases |steps|
  {
    if steps != [] {
      SeparatedNeverOverwrites(naming, s, steps[0]);
      StableStepSpoils(naming, s, steps[0]);
      StepKeepsContentsExactly(s, steps[0]);
      StepKeepsSafe(naming, s, steps[0]);
      SeparatedRunKeepsContents(naming, Perform(s, steps[0]), steps[1..], t);
    }
  }

  /**
   * Two contents with the same beginning of the hash and the same safe name: an intake of the second that is cut
   * off between its rename and its commit leaves the approved row of the first naming the second's content.
   */
  lemma {:induction false} SharedNameOverwrites(first: Upload, second: Upload)
    requires Proper(first) && Proper(second) && first.kind == second.kind && first.hash != second.hash
    requires first.short == second.short && first.safeName == second.safeName
    ensures var files: Files := map[StoredPath(first) := first.hash, TemporaryPath(second) := second.hash];
      var table: Table := map[(first.kind, first.hash) := ApprovedRow(DocumentOf(first), OPERATOR)];
      var s := State(files, table, Written(second));
      && Faithful(s) && Enabled(s, Rename) && Overwrites(s, Rename)
      && !Faithful(Perform(Perform(s, Rename), Cut)) && FilesExist(Perform(s, Rename).files, table)
  {
    var files: Files := map[StoredPath(first) := first.hash, TemporaryPath(second) := second.hash];
    var key := (first.kind, first.hash);
    var table: Table := map[key := ApprovedRow(DocumentOf(first), OPERATOR)];
    var s := State(files, table, Written(second));
    TemporaryIsStored(second);
    ReferenceOfStored(first);
    assert StoredPath(first) == StoredPath(second);
    assert IsApproved(table, key) && Names(table[key], StoredPath(second));
    var t := Perform(Perform(s, Rename), Cut);
    assert IsApproved(t.table, key) && !HoldsContent(t.files, t.table[key], key.1);
  }
}
