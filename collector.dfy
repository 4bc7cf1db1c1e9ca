/**
  The application state of File Collector and its operations on projects:
  creating, deleting, loading into the settings form, saving from it, and the
  collection run, which walks the configured folders, turns every file that
  is neither ignored nor unreadable into one record, and writes the records
  across numbered output documents.

  The filesystem is given as the directory tree under each configured folder,
  reading a file as a function from its path to its text (`None` when
  opening or decoding it fails), and the outcome of opening the first output
  document as a flag.
*/
module Collector {
  import opened Wrappers
  import opened StrOps
  import opened PathOps
  import opened IgnoreLists
  import opened Exclusion
  import opened DirWalk
  import opened Chunking
  import opened Seqs

  /** One saved project. */
  datatype Project = Project(
    folders: seq<string>,
    ignoreFolders: seq<string>,
    ignoreFiletypes: seq<string>,
    ignoreFilenames: seq<string>,
    outputPath: string,
    maxFileSize: int,
    preset: string,
    autoRun: bool)

  /** The record a new project starts with. */
  function NewProject(): Project {
    Project([], [], [], [], "", 1024, "None", false)
  }

  /** `set(entries)`. */
  function AsSet(entries: seq<string>): set<string> {
    set e | e in entries
  }

  /** What the walk of one configured folder reaches; a folder that does not exist yields nothing. */
  function FolderWalk(fs: map<string, Dir>, folder: string, ignoreFolders: set<string>): seq<Visit> {
    if folder in fs then WalkDir(folder, [], fs[folder], ignoreFolders) else []
  }

  /** The walks of `folders`, one after the other, in the configured order. */
  function Visits(fs: map<string, Dir>, folders: seq<string>, ignoreFolders: set<string>): seq<Visit> {
    if folders == [] then []
    else Visits(fs, folders[..|folders| - 1], ignoreFolders) + FolderWalk(fs, folders[|folders| - 1], ignoreFolders)
  }

  /** A visited file becomes a record: it is not ignored and it could be read. */
  predicate Included(v: Visit, p: Project, read: string -> Option<string>) {
    !IsSkippedFile(v.name, AsSet(p.ignoreFilenames), AsSet(p.ignoreFiletypes)) && read(v.path).Some?
  }

  /** The records of the included visits, in visiting order. */
  function Records(vs: seq<Visit>, p: Project, read: string -> Option<string>): (recs: seq<string>)
    ensures |recs| <= |vs|
    ensures forall k :: 0 <= k < |recs| ==> recs[k] != ""
  {
    if vs == [] then []
    else
      var v := vs[|vs| - 1];
      Records(vs[..|vs| - 1], p, read) + (if Included(v, p, read) then [Record(v.path, read(v.path).value)] else [])
  }

  lemma {:induction false} RecordsAppend(a: seq<Visit>, b: seq<Visit>, p: Project, read: string -> Option<string>)
    ensures Records(a + b, p, read) == Records(a, p, read) + Records(b, p, read)
    decreases |b|
  {
    if b == [] {
      assert a + b == a;
    } else {
      var n := |b|;
      assert (a + b)[..|a + b| - 1] == a + b[..n - 1];
      assert (a + b)[|a + b| - 1] == b[n - 1];
      RecordsAppend(a, b[..n - 1], p, read);
    }
  }

  /** One more visit adds its record, if it is included, and nothing else. */
  lemma RecordsSnoc(vs: seq<Visit>, j: nat, p: Project, read: string -> Option<string>)
    requires j < |vs|
    ensures Included(vs[j], p, read) ==>
      Records(vs[..j + 1], p, read) == Records(vs[..j], p, read) + [Record(vs[j].path, read(vs[j].path).value)]
    ensures !Included(vs[j], p, read) ==> Records(vs[..j + 1], p, read) == Records(vs[..j], p, read)
  {
    assert vs[..j + 1][..j] == vs[..j];
    AppendEmpty(Records(vs[..j], p, read));
  }

  /** The records of one more configured folder follow those of the folders before it. */
  lemma VisitsSnoc(fs: map<string, Dir>, folders: seq<string>, i: nat, ignoreFolders: set<string>,
                   p: Project, read: string -> Option<string>)
    requires i < |folders|
    ensures var walk := FolderWalk(fs, folders[i], ignoreFolders);
      Records(Visits(fs, folders[..i + 1], ignoreFolders), p, read)
        == Records(Visits(fs, folders[..i], ignoreFolders), p, read) + Records(walk, p, read)
  {
    var walk := FolderWalk(fs, folders[i], ignoreFolders);
    assert folders[..i + 1][..i] == folders[..i];
    RecordsAppend(Visits(fs, folders[..i], ignoreFolders), walk, p, read);
  }

  /** A record is collected exactly when some included visit produced it. */
  lemma {:induction false} RecordsComeFromIncludedVisits(vs: seq<Visit>, p: Project, read: string -> Option<string>, r: string)
    ensures r in Records(vs, p, read) <==>
      exists v :: v in vs && Included(v, p, read) && r == Record(v.path, read(v.path).value)
    decreases |vs|
  {
    if vs != [] {
      var init, v := vs[..|vs| - 1], vs[|vs| - 1];
      RecordsComeFromIncludedVisits(init, p, read, r);
      assert vs == init + [v];
      if exists u :: u in init && Included(u, p, read) && r == Record(u.path, read(u.path).value) {
        var u :| u in init && Included(u, p, read) && r == Record(u.path, read(u.path).value);
        assert u in vs;
      }
    }
  }

  /** How a collection run ends. */
  datatype RunResult =
    | NoProjectSelected
    | FoldersOrOutputMissing
    | OutputOpenFailed
    | Collected(paths: seq<string>, documents: seq<string>)

  /** The project selected for a run, when one is: a selection that is not the empty name. */
  predicate HasSelection(current: Option<string>) {
    current.Some? && current.value != ""
  }

  /** The records a run of project `p` collects. */
  function RunRecords(p: Project, fs: map<string, Dir>, read: string -> Option<string>): (recs: seq<string>)
    ensures |recs| <= |Visits(fs, p.folders, AsSet(p.ignoreFolders))|
    ensures forall k :: 0 <= k < |recs| ==> recs[k] != ""
  {
    Records(Visits(fs, p.folders, AsSet(p.ignoreFolders)), p, read)
  }

  /** The budget of one document in bytes: `max_file_size` kilobytes. */
  function MaxBytes(p: Project): int {
    p.maxFileSize * 1024
  }

  /**
    The run keeps `collected_size` and each record's size in kilobytes,
    `bytes / 1024`, and rotates when their sum exceeds `max_file_size`.
    Computed exactly, that is the byte comparison against `MaxBytes`.
  */
  lemma KbComparison(collected: nat, size: nat, p: Project)
    ensures (collected as real) / 1024.0 + (size as real) / 1024.0 > p.maxFileSize as real
      <==> collected + size > MaxBytes(p)
  {
  }

  /** What the run does, as a function of the selection, the projects and the filesystem. */
  function CollectionRun(current: Option<string>, projects: map<string, Project>, fs: map<string, Dir>,
                         read: string -> Option<string>, firstOpenOk: bool): RunResult
    requires current.Some? ==> current.value in projects
  {
    if !HasSelection(current) then NoProjectSelected
    else
      var p := projects[current.value];
      if p.folders == [] || p.outputPath == "" then FoldersOrOutputMissing
      else if !firstOpenOk then OutputOpenFailed
      else
        var w := View(PlaceAll(RunRecords(p, fs, read), MaxBytes(p)), p.outputPath);
        Collected(w.paths, w.documents)
  }

  /** The run stops before writing anything exactly in the three cases the code checks, in that order. */
  lemma RunStopsEarly(current: Option<string>, projects: map<string, Project>, fs: map<string, Dir>,
                      read: string -> Option<string>, firstOpenOk: bool)
    requires current.Some? ==> current.value in projects
    ensures var r := CollectionRun(current, projects, fs, read, firstOpenOk);
      && (r.NoProjectSelected? <==> !HasSelection(current))
      && (r.FoldersOrOutputMissing? <==>
            HasSelection(current) && (projects[current.value].folders == [] || projects[current.value].outputPath == ""))
      && (r.OutputOpenFailed? <==>
            HasSelection(current) && projects[current.value].folders != [] && projects[current.value].outputPath != "" && !firstOpenOk)
  {
  }

  /**
    A completed run names its documents `output_1.txt`, `output_2.txt`, ...
    under the output path, all different, one per document; reading the
    documents in order gives the records in order, none split.
  */
  lemma CollectedDocuments(p: Project, fs: map<string, Dir>, read: string -> Option<string>)
    ensures var recs := RunRecords(p, fs, read);
      var w := View(PlaceAll(recs, MaxBytes(p)), p.outputPath);
      && |w.paths| == |w.documents| >= 1
      && (forall i :: 0 <= i < |w.paths| ==> w.paths[i] == DocPath(p.outputPath, i + 1))
      && (forall i, j :: 0 <= i < j < |w.paths| ==> w.paths[i] != w.paths[j])
      && Concat(w.documents) == Concat(recs)
  {
    var recs := RunRecords(p, fs, read);
    var st := PlaceAll(recs, MaxBytes(p));
    DocPathsIndex(p.outputPath, |st.docs|);
    DocPathsDistinct(p.outputPath, |st.docs|);
    TextsConcat(st.docs);
  }

  /**
    Every document of a completed run stays within `max_file_size` KB, except
    a document that is one record larger than that on its own, and the first
    document, which stays empty when there is no record or the first record
    alone is too large.
  */
  lemma CollectedWithinBudget(p: Project, fs: map<string, Dir>, read: string -> Option<string>)
    ensures var recs := RunRecords(p, fs, read);
      var docs := View(PlaceAll(recs, MaxBytes(p)), p.outputPath).documents;
      && (forall i :: 0 <= i < |docs| ==>
            Utf8Length(docs[i]) <= MaxBytes(p) || (docs[i] in recs && Utf8Length(docs[i]) > MaxBytes(p)) || (i == 0 && docs[i] == ""))
      && (docs[0] == "" <==> recs == [] || Utf8Length(recs[0]) > MaxBytes(p))
  {
    TextsWithinBudget(RunRecords(p, fs, read), MaxBytes(p));
    FirstTextEmptyIff(RunRecords(p, fs, read), MaxBytes(p));
  }

  /**
    Whatever a run collects comes from a file that is reached under no
    ignored subdirectory, whose name and extension are not ignored, and that
    could be read.
  */
  lemma CollectedFilesAreAllowed(p: Project, fs: map<string, Dir>, read: string -> Option<string>, r: string)
    requires r in RunRecords(p, fs, read)
    ensures exists v :: (v in Visits(fs, p.folders, AsSet(p.ignoreFolders))
      && Allowed(v, AsSet(p.ignoreFolders))
      && !IsSkippedFile(v.name, AsSet(p.ignoreFilenames), AsSet(p.ignoreFiletypes))
      && read(v.path).Some? && r == Record(v.path, read(v.path).value))
  {
    var vs := Visits(fs, p.folders, AsSet(p.ignoreFolders));
    RecordsComeFromIncludedVisits(vs, p, read, r);
    var v :| v in vs && Included(v, p, read) && r == Record(v.path, read(v.path).value);
    VisitsAreAllowed(fs, p.folders, AsSet(p.ignoreFolders));
  }

  lemma {:induction false} VisitsAreAllowed(fs: map<string, Dir>, folders: seq<string>, ignoreFolders: set<string>)
    ensures forall v :: v in Visits(fs, folders, ignoreFolders) ==> Allowed(v, ignoreFolders)
    decreases |folders|
  {
    if folders != [] {
      var last := folders[|folders| - 1];
      VisitsAreAllowed(fs, folders[..|folders| - 1], ignoreFolders);
      if last in fs {
        NothingBelowIgnoredFolders(last, fs[last], ignoreFolders);
      }
    }
  }

  /** The settings form as `load_project_settings` fills it. */
  datatype SettingsForm = SettingsForm(
    folders: seq<string>,
    ignoreFolders: string,
    ignoreFiletypes: string,
    ignoreFilenames: string,
    outputPath: string,
    maxFileSize: string,
    preset: string,
    autoRun: bool)

  /** The form showing project `p`: each ignore list joined with `,`, the size written with `str`. */
  function FormOf(p: Project): (f: SettingsForm)
    ensures f.folders == p.folders && f.outputPath == p.outputPath && f.preset == p.preset && f.autoRun == p.autoRun
  {
    SettingsForm(p.folders, FormatIgnoreList(p.ignoreFolders), FormatIgnoreList(p.ignoreFiletypes),
                 FormatIgnoreList(p.ignoreFilenames), p.outputPath, IntString(p.maxFileSize), p.preset, p.autoRun)
  }

  /** The project `save_project` builds from the form, or `None` when the size is not an integer. */
  function ProjectFromForm(f: SettingsForm): (p: Option<Project>)
    ensures p.Some? <==> ParseInt(f.maxFileSize).Some?
  {
    match ParseInt(f.maxFileSize)
    case None => None
    case Some(n) =>
      Some(Project(f.folders, ParseIgnoreList(f.ignoreFolders), ParseIgnoreList(f.ignoreFiletypes),
                   ParseIgnoreList(f.ignoreFilenames), f.outputPath, n, f.preset, f.autoRun))
  }

  /** The ignore lists of a project are as saving leaves them. */
  predicate SavedShape(p: Project) {
    Normalized(p.ignoreFolders) && Normalized(p.ignoreFiletypes) && Normalized(p.ignoreFilenames)
  }

  /** Loading a saved project into the form and saving the form again changes nothing. */
  lemma LoadThenSaveKeepsProject(p: Project)
    requires SavedShape(p)
    ensures ProjectFromForm(FormOf(p)) == Some(p)
  {
    IntRoundTrip(p.maxFileSize);
    ParseFormatRoundTrip(p.ignoreFolders);
    ParseFormatRoundTrip(p.ignoreFiletypes);
    ParseFormatRoundTrip(p.ignoreFilenames);
  }

  /** A new project is already in saved form: loading it and saving it back changes nothing. */
  lemma NewProjectSurvivesSave()
    ensures SavedShape(NewProject())
    ensures ProjectFromForm(FormOf(NewProject())) == Some(NewProject())
  {
    LoadThenSaveKeepsProject(NewProject());
  }

  /** Saving twice is saving once: whatever a save stores, loading and saving again stores the same. */
  lemma SaveIsIdempotent(f: SettingsForm)
    requires ProjectFromForm(f).Some?
    ensures ProjectFromForm(FormOf(ProjectFromForm(f).value)) == ProjectFromForm(f)
  {
    LoadThenSaveKeepsProject(ProjectFromForm(f).value);
  }

  /**
    One file of a walk: an ignored or unreadable file is passed over, any
    other is written as one record.
  */
  method WriteFile(w: ChunkWriter, v: Visit, p: Project, read: string -> Option<string>,
                   ignoreFilenames: set<string>, ignoreFiletypes: set<string>, ghost written: seq<string>)
    requires ignoreFilenames == AsSet(p.ignoreFilenames) && ignoreFiletypes == AsSet(p.ignoreFiletypes)
    requires w.Valid() && w.layout == PlaceAll(written, w.maxBytes)
    modifies w
    ensures w.Valid()
    ensures Included(v, p, read) ==> w.layout == PlaceAll(written + [Record(v.path, read(v.path).value)], w.maxBytes)
    ensures !Included(v, p, read) ==> w.layout == old(w.layout) && w.State() == old(w.State())
  {
    if !IsSkippedFile(v.name, ignoreFilenames, ignoreFiletypes) {
      var content := read(v.path);
      if content.Some? {
        var record := Record(v.path, content.value);
        PlaceAllSnoc(written, record, w.maxBytes);
        w.Write(record);
      }
    }
  }

  /**
    The loop over the files of one walk: each file that is not ignored and
    can be read is written as one record, in walking order.
  */
  method WriteWalk(w: ChunkWriter, visits: seq<Visit>, p: Project, read: string -> Option<string>, ghost done: seq<string>)
    requires w.Valid() && w.layout == PlaceAll(done, w.maxBytes)
    modifies w
    ensures w.Valid()
    ensures w.layout == PlaceAll(done + Records(visits, p, read), w.maxBytes)
  {
    var ignoreFiletypes := AsSet(p.ignoreFiletypes);
    var ignoreFilenames := AsSet(p.ignoreFilenames);
    var j := 0;
    ghost var written := done;
    TakeNone(visits);
    AppendEmpty(done);
    while j < |visits|
      invariant 0 <= j <= |visits|
      invariant w.Valid() && w.layout == PlaceAll(written, w.maxBytes)
      invariant written == done + Records(visits[..j], p, read)
    {
      var v := visits[j];
      WriteFile(w, v, p, read, ignoreFilenames, ignoreFiletypes, written);
      RecordsSnoc(visits, j, p, read);
      if Included(v, p, read) {
        var record := Record(v.path, read(v.path).value);
        AppendAssoc(done, Records(visits[..j], p, read), [record]);
        written := written + [record];
      }
      j := j + 1;
    }
    TakeAll(visits);
  }

  /** The loop over the configured folders, each walked in turn. */
  method CollectFolders(w: ChunkWriter, p: Project, fs: map<string, Dir>, read: string -> Option<string>)
    requires w.Valid() && w.layout == PlaceAll([], w.maxBytes)
    modifies w
    ensures w.Valid()
    ensures w.layout == PlaceAll(RunRecords(p, fs, read), w.maxBytes)
  {
    var ignoreFolders := AsSet(p.ignoreFolders);
    var i := 0;
    ghost var written: seq<string> := [];
    TakeNone(p.folders);
    while i < |p.folders|
      invariant 0 <= i <= |p.folders|
      invariant written == Records(Visits(fs, p.folders[..i], ignoreFolders), p, read)
      invariant w.Valid() && w.layout == PlaceAll(written, w.maxBytes)
    {
      var visits := FolderWalk(fs, p.folders[i], ignoreFolders);
      WriteWalk(w, visits, p, read, written);
      VisitsSnoc(fs, p.folders, i, ignoreFolders, p, read);
      written := written + Records(visits, p, read);
      i := i + 1;
    }
    TakeAll(p.folders);
  }

  /**
    The writing part of a run: a writer opened on `output_1.txt` under the
    output path takes the records of every configured folder in turn.
  */
  method Collect(p: Project, fs: map<string, Dir>, read: string -> Option<string>)
    returns (paths: seq<string>, documents: seq<string>)
    ensures var w := View(PlaceAll(RunRecords(p, fs, read), MaxBytes(p)), p.outputPath);
      paths == w.paths && documents == w.documents
  {
    var w := new ChunkWriter(p.outputPath, MaxBytes(p));
    CollectFolders(w, p, fs, read);
    paths, documents := w.outputFilePaths, w.documents;
  }

  datatype CreateOutcome = Cancelled | AlreadyExists | Created
  datatype DeleteOutcome = NothingSelected | NotConfirmed | Deleted
  datatype SaveOutcome = SaveWithoutSelection | InvalidMaxFileSize | Saved

  /**
    The application state the core works on: the projects by name, the
    selected project, the document paths of the last completed run, and
    whether the watched folders changed since the last run or load.
  */
  class FileCollectorApp {
    var projects: map<string, Project>
    var currentProject: Option<string>
    var outputFiles: seq<string>
    var filesChanged: bool

    /** A selected project is one of the projects. */
    ghost predicate Valid()
      reads this
    {
      currentProject.Some? ==> currentProject.value in projects
    }

    constructor (projects: map<string, Project>)
      ensures Valid()
      ensures this.projects == projects && currentProject == None
      ensures outputFiles == [] && !filesChanged
    {
      this.projects := projects;
      currentProject := None;
      outputFiles := [];
      filesChanged := false;
    }

    /**
      `create_new_project`: a cancelled or empty name does nothing, a name in
      use is refused, and a new name gets the default project and is selected;
      its settings are then loaded, which clears the change flag.
    */
    method CreateNewProject(name: Option<string>) returns (outcome: CreateOutcome)
      requires Valid()
      modifies this
      ensures Valid()
      ensures outcome == Cancelled <==> name.None? || name.value == ""
      ensures outcome == AlreadyExists <==> name.Some? && name.value != "" && name.value in old(projects)
      ensures outcome == Created ==> projects == old(projects)[name.value := NewProject()] && currentProject == name
      ensures outcome != Created ==> projects == old(projects) && currentProject == old(currentProject)
      ensures outcome == Created ==> !filesChanged
      ensures outcome != Created ==> filesChanged == old(filesChanged)
      ensures outputFiles == old(outputFiles)
    {
      if name.None? || name.value == "" {
        return Cancelled;
      }
      if name.value in projects {
        return AlreadyExists;
      }
      projects := projects[name.value := NewProject()];
      currentProject := name;
      // the new project is shown, and showing a project loads its settings
      filesChanged := false;
      outcome := Created;
    }

    /**
      `delete_project`: without a selection nothing happens; when the user
      confirms, the selected project is removed and nothing stays selected.
    */
    method DeleteProject(confirm: bool) returns (outcome: DeleteOutcome)
      requires Valid()
      modifies this
      ensures Valid()
      ensures outcome == NothingSelected <==> !HasSelection(old(currentProject))
      ensures outcome == NotConfirmed <==> HasSelection(old(currentProject)) && !confirm
      ensures outcome == Deleted ==> projects == old(projects) - {old(currentProject).value} && currentProject == None
      ensures outcome != Deleted ==> projects == old(projects) && currentProject == old(currentProject)
      ensures outputFiles == old(outputFiles) && filesChanged == old(filesChanged)
    {
      if !HasSelection(currentProject) {
        return NothingSelected;
      }
      if !confirm {
        return NotConfirmed;
      }
      projects := projects - {currentProject.value};
      currentProject := None;
      outcome := Deleted;
    }

    /**
      `load_project_settings`: when the selection names a project (the empty
      name included), the form shows it and the change flag is cleared.
    */
    method LoadProjectSettings() returns (form: Option<SettingsForm>)
      requires Valid()
      modifies this
      ensures Valid()
      ensures form.Some? <==> old(currentProject).Some? && old(currentProject).value in old(projects)
      ensures form.Some? ==> (currentProject.Some? && currentProject.value in projects
        && form.value == FormOf(projects[currentProject.value]) && !filesChanged)
      ensures form.None? ==> filesChanged == old(filesChanged)
      ensures projects == old(projects) && currentProject == old(currentProject) && outputFiles == old(outputFiles)
    {
      if currentProject.Some? && currentProject.value in projects {
        form := Some(FormOf(projects[currentProject.value]));
        filesChanged := false;
      } else {
        form := None;
      }
    }

    /**
      `save_project`: refused without a selection or when the size is not an
      integer; otherwise the selected project is replaced by the form's.
    */
    method SaveProject(form: SettingsForm) returns (outcome: SaveOutcome)
      requires Valid()
      modifies this
      ensures Valid()
      ensures !HasSelection(old(currentProject)) ==> outcome == SaveWithoutSelection && projects == old(projects)
      ensures outcome == InvalidMaxFileSize <==> HasSelection(old(currentProject)) && ProjectFromForm(form).None?
      ensures outcome != Saved ==> projects == old(projects)
      ensures HasSelection(old(currentProject)) && ProjectFromForm(form).Some? ==>
        outcome == Saved && projects == old(projects)[old(currentProject).value := ProjectFromForm(form).value]
      ensures currentProject == old(currentProject) && outputFiles == old(outputFiles) && filesChanged == old(filesChanged)
    {
      var p := ProjectFromForm(form);
      if !HasSelection(currentProject) {
        outcome := SaveWithoutSelection;
      } else if p.None? {
        outcome := InvalidMaxFileSize;
      } else {
        projects := projects[currentProject.value := p.value];
        outcome := Saved;
      }
    }

    /**
      `run_file_collection`: checks the selection, the folders and the output
      path, opens `output_1.txt`, then writes a record for every included file
      the walks reach, in order. A completed run remembers the document paths
      and clears the change flag.
    */
    method RunFileCollection(fs: map<string, Dir>, read: string -> Option<string>, firstOpenOk: bool)
      returns (result: RunResult)
      requires Valid()
      modifies this
      ensures Valid()
      ensures result == CollectionRun(currentProject, projects, fs, read, firstOpenOk)
      ensures projects == old(projects) && currentProject == old(currentProject)
      ensures result.Collected? ==> outputFiles == result.paths && !filesChanged
      ensures !result.Collected? ==> outputFiles == old(outputFiles) && filesChanged == old(filesChanged)
    {
      if !HasSelection(currentProject) {
        return NoProjectSelected;
      }
      var p := projects[currentProject.value];
      if p.folders == [] || p.outputPath == "" {
        return FoldersOrOutputMissing;
      }
      if !firstOpenOk {
        return OutputOpenFailed;
      }
      var paths, documents := Collect(p, fs, read);
      outputFiles, filesChanged := paths, false;
      result := Collected(paths, documents);
    }
  }
}
