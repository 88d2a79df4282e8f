/**
 * The file-backed stores (build/lib/src/storage.py): where a subject's question bank, a
 * subject's progress history and the registry of subject names are kept, and how a
 * Subject is rebuilt from what its file holds.
 *
 * The file system is a Disk object: one map per data directory from filename stem to the
 * parsed record. The JSON text itself is not modelled; a record stands for what `json.load`
 * gives back for what `json.dumps` wrote.
 */
module Storage {
  import opened Models

  // ---------------------------------------------------------------------------
  // Filenames
  // ---------------------------------------------------------------------------

  /** `s.replace(" ", "-")`. */
  function ReplaceSpaces(s: string): (r: string)
  {
    if s == [] then [] else [if s[0] == ' ' then '-' else s[0]] + ReplaceSpaces(s[1..])
  }

  predicate IsUpper(c: char)
  {
    'A' <= c <= 'Z'
  }

  function LowerChar(c: char): char
  {
    if IsUpper(c) then (c as int - 'A' as int + 'a' as int) as char else c
  }

  /** `s.lower()`, on the ASCII letters. */
  function Lower(s: string): (r: string)
  {
    if s == [] then [] else [LowerChar(s[0])] + Lower(s[1..])
  }

  /** The subject store's filename stem: spaces become dashes, then everything is lower-cased. */
  function SubjectFileName(name: string): (f: string)
    ensures |f| == |name|
    ensures forall k :: 0 <= k < |f| ==> f[k] != ' ' && !IsUpper(f[k])
  {
    ReplaceSpacesShape(name);
    LowerShape(ReplaceSpaces(name));
    Lower(ReplaceSpaces(name))
  }

  /** The progress store's filename stem: spaces become dashes, case is kept. */
  function ProgressFileName(name: string): (f: string)
    ensures |f| == |name|
    ensures forall k :: 0 <= k < |f| ==> f[k] != ' ' && (f[k] == name[k] || name[k] == ' ')
  {
    ReplaceSpacesShape(name);
    ReplaceSpaces(name)
  }

  lemma {:induction false} ReplaceSpacesShape(s: string)
    ensures |ReplaceSpaces(s)| == |s|
    ensures forall k :: 0 <= k < |s| ==> ReplaceSpaces(s)[k] == if s[k] == ' ' then '-' else s[k]
  {
    if s != [] {
      ReplaceSpacesShape(s[1..]);
    }
  }

  lemma {:induction false} LowerShape(s: string)
    ensures |Lower(s)| == |s|
    ensures forall k :: 0 <= k < |s| ==> Lower(s)[k] == LowerChar(s[k]) && !IsUpper(Lower(s)[k])
    ensures forall k :: 0 <= k < |s| ==> (Lower(s)[k] == ' ' <==> s[k] == ' ')
  {
    if s != [] {
      LowerShape(s[1..]);
    }
  }

  /** Deriving the subject filename from a subject filename changes nothing. */
  lemma {:induction false} SubjectFileNameIdempotent(name: string)
    ensures SubjectFileName(SubjectFileName(name)) == SubjectFileName(name)
  {
    var f := SubjectFileName(name);
    var g := SubjectFileName(f);
    ReplaceSpacesShape(f);
    LowerShape(ReplaceSpaces(f));
    assert forall k :: 0 <= k < |f| ==> g[k] == f[k];
  }

  /**
   * The two stores agree on a name's filename exactly when the name has no upper-case
   * letter; a name with one is looked up under two different stems.
   */
  lemma {:induction false} FileNamesAgreeIff(name: string)
    ensures SubjectFileName(name) == ProgressFileName(name) <==> forall k :: 0 <= k < |name| ==> !IsUpper(name[k])
  {
    ReplaceSpacesShape(name);
    LowerShape(ReplaceSpaces(name));
    if forall k :: 0 <= k < |name| ==> !IsUpper(name[k]) {
      assert forall k :: 0 <= k < |name| ==> SubjectFileName(name)[k] == ProgressFileName(name)[k];
    } else {
      var k :| 0 <= k < |name| && IsUpper(name[k]);
      assert SubjectFileName(name)[k] != ProgressFileName(name)[k];
    }
  }

  /**
   * Names that differ only in the case of letters share one subject file, while the
   * registry keeps them apart.
   */
  lemma {:induction false} SubjectFileNameIgnoresCase(a: string, b: string)
    requires |a| == |b|
    requires forall k :: 0 <= k < |a| ==> LowerChar(a[k]) == LowerChar(b[k])
    ensures SubjectFileName(a) == SubjectFileName(b)
  {
    ReplaceSpacesShape(a);
    ReplaceSpacesShape(b);
    LowerShape(ReplaceSpaces(a));
    LowerShape(ReplaceSpaces(b));
    forall k | 0 <= k < |a|
      ensures SubjectFileName(a)[k] == SubjectFileName(b)[k]
    {
      assert a[k] == ' ' <==> b[k] == ' ';
    }
  }

  // ---------------------------------------------------------------------------
  // Rebuilding a subject from its record
  // ---------------------------------------------------------------------------

  /** Python truthiness of a stored optional string: neither null nor empty. */
  predicate Truthy(v: Option<string>)
  {
    v.Some? && v.value != ""
  }

  /**
   * What a stored optional field becomes on load: the value if truthy, otherwise absent.
   * A loaded field is never the empty string, and it never holds a value that was not stored.
   */
  function Reloaded(v: Option<string>): (r: Option<string>)
    ensures r != Some("")
    ensures r.Some? ==> r == v
  {
    if Truthy(v) then v else None
  }

  /** Null and the empty string both load as absent; any other string loads as itself. */
  lemma ReloadedCases(text: string)
    ensures Reloaded(None) == None
    ensures Reloaded(Some("")) == None
    ensures text != "" ==> Reloaded(Some(text)) == Some(text)
  {
  }

  /** Loading a field that was itself loaded changes nothing. */
  lemma ReloadedIdempotent(v: Option<string>)
    ensures Reloaded(Reloaded(v)) == Reloaded(v)
  {
  }

  /** A field survives a load exactly when it is not the empty string. */
  lemma ReloadedFixedPointIff(v: Option<string>)
    ensures Reloaded(v) == v <==> v != Some("")
  {
  }

  /** A question as load rebuilds it from record `r` when it is the `pos`-th one added. */
  function ReloadedQuestion(r: QuestionRecord, pos: int): QuestionRecord
  {
    QuestionRecord(pos, r.text, r.choices, r.answer, Reloaded(r.attachment), Reloaded(r.passage))
  }

  /**
   * The record `to_dict` writes for a question comes back from a load unchanged exactly
   * when the question sits at the position its id names and neither optional field is the
   * empty string.
   */
  lemma QuestionRecordReloads(q: Question, pos: int)
    ensures ReloadedQuestion(q.ToRecord(), pos) == q.ToRecord() <==>
              q.id == pos && q.attachment != Some("") && q.passage != Some("")
  {
  }

  /** The questions load rebuilds: file order, ids 1..n from a fresh counter. */
  function LoadedQuestions(rs: seq<QuestionRecord>): (out: seq<QuestionRecord>)
    ensures |out| == |rs|
    ensures forall k :: 0 <= k < |rs| ==> out[k] == ReloadedQuestion(rs[k], k + 1)
  {
    if rs == [] then [] else LoadedQuestions(rs[..|rs| - 1]) + [ReloadedQuestion(rs[|rs| - 1], |rs|)]
  }

  /** Loading one more stored question appends its reloaded record, numbered after the rest. */
  lemma LoadedQuestionsStep(rs: seq<QuestionRecord>, i: nat)
    requires i < |rs|
    ensures LoadedQuestions(rs[..i + 1]) == LoadedQuestions(rs[..i]) + [ReloadedQuestion(rs[i], i + 1)]
  {
  }

  /**
   * The subject load rebuilds from a stored record: the stored name, each question's
   * text, choices and answer in file order, optional fields kept only when truthy; the
   * stored ids and counter are not used, ids become 1..n and the counter n.
   */
  function Loaded(r: SubjectRecord): (s: SubjectRecord)
    ensures s.name == r.name && s.counter == |r.questions| == |s.questions|
    ensures forall k :: 0 <= k < |r.questions| ==>
              var (q, p) := (s.questions[k], r.questions[k]);
              && q.id == k + 1
              && q.text == p.text && q.choices == p.choices && q.answer == p.answer
              && q.attachment == Reloaded(p.attachment) && q.passage == Reloaded(p.passage)
  {
    SubjectRecord(r.name, LoadedQuestions(r.questions), |r.questions|)
  }

  /** Loading what a load produced gives it back unchanged. */
  lemma LoadedIdempotent(r: SubjectRecord)
    ensures Loaded(Loaded(r)) == Loaded(r)
  {
  }

  /**
   * A stored subject survives a load exactly when its ids are already 1..n in file order,
   * its counter is n, and every optional field is absent or non-empty.
   */
  lemma LoadedFixedPointIff(r: SubjectRecord)
    ensures Loaded(r) == r <==>
              && r.counter == |r.questions|
              && (forall k :: 0 <= k < |r.questions| ==> r.questions[k].id == k + 1)
              && (forall k :: 0 <= k < |r.questions| ==>
                    r.questions[k].attachment != Some("") && r.questions[k].passage != Some(""))
  {
  }

  /**
   * Deleting the question at position `i` of a freshly loaded subject and saving it, then
   * loading again: the questions before `i` keep their ids, every later id moves down by
   * one, and the counter falls back to the number of questions.
   */
  lemma DeleteSaveLoadShiftsIds(r: SubjectRecord, i: nat)
    requires Loaded(r) == r
    requires i < |r.questions|
    ensures var after := Loaded(r.(questions := RemoveAt(r.questions, i)));
            && after.counter == r.counter - 1
            && (forall k :: 0 <= k < i ==> after.questions[k].id == r.questions[k].id)
            && (forall k :: i <= k < |after.questions| ==> after.questions[k].id == r.questions[k + 1].id - 1)
  {
  }

  // ---------------------------------------------------------------------------
  // Stores
  // ---------------------------------------------------------------------------

  /**
   * The files the stores read and write: the subjects directory, the progress directory
   * (both by filename stem) and the single registry file.
   */
  class Disk {
    /** A subject file holds a subject record, or JSON null (`None`). */
    var subjectFiles: map<string, Option<SubjectRecord>>
    var progressFiles: map<string, ProgressRecord>
    var userFile: Option<seq<string>>

    constructor (subjectFiles: map<string, Option<SubjectRecord>>, progressFiles: map<string, ProgressRecord>,
                 userFile: Option<seq<string>>)
      ensures this.subjectFiles == subjectFiles && this.progressFiles == progressFiles
      ensures this.userFile == userFile
    {
      this.subjectFiles := subjectFiles;
      this.progressFiles := progressFiles;
      this.userFile := userFile;
    }
  }

  class SubjectFile {
    const subjectName: string
    const filename: string
    var subject: Subject?

    constructor (subjectName: string)
      ensures this.subjectName == subjectName && filename == SubjectFileName(subjectName)
      ensures subject == null
    {
      this.subjectName := subjectName;
      this.filename := SubjectFileName(subjectName);
      this.subject := null;
    }

    /**
     * Overwrites this subject's file with the subject's record, or with JSON null when no
     * subject is held; no other file changes.
     */
    method Save(disk: Disk)
      modifies disk
      ensures subject == null ==> disk.subjectFiles == old(disk.subjectFiles)[filename := None]
      ensures subject != null ==> disk.subjectFiles == old(disk.subjectFiles)[filename := Some(subject.ToRecord())]
      ensures disk.progressFiles == old(disk.progressFiles) && disk.userFile == old(disk.userFile)
    {
      if subject == null {
        disk.subjectFiles := disk.subjectFiles[filename := None];
      } else {
        disk.subjectFiles := disk.subjectFiles[filename := Some(subject.ToRecord())];
      }
    }

    /**
     * Rebuilds the subject from its file: a new Subject with counter 0, and every stored
     * question put back through AddQuestion. `found` is false where the program raises:
     * FileNotFoundError for a missing file, TypeError for a file holding null (its
     * `data['name']`); then nothing changes.
     */
    method Load(disk: Disk) returns (found: bool)
      modifies this
      ensures found <==> filename in disk.subjectFiles && disk.subjectFiles[filename].Some?
      ensures found ==> && subject != null && fresh(subject)
                        && subject.Valid() && subject.IdsFresh()
                        && subject.ToRecord() == Loaded(disk.subjectFiles[filename].value)
      ensures !found ==> subject == old(subject)
    {
      if filename !in disk.subjectFiles || disk.subjectFiles[filename].None? {
        return false;
      }
      subject := Rebuild(disk.subjectFiles[filename].value);
      found := true;
    }
  }

  /**
   * One stored question made into a Question object as load does it: text, choices and
   * answer through the constructor, the stored id copied (AddQuestion overwrites it), and
   * each optional field only when truthy.
   */
  method RestoreQuestion(r: QuestionRecord) returns (q: Question)
    ensures fresh(q)
    ensures q.ToRecord() == r.(attachment := Reloaded(r.attachment), passage := Reloaded(r.passage))
  {
    q := new Question(r.text, r.choices, r.answer);
    q.id := r.id;
    if Truthy(r.attachment) {
      q.attachment := r.attachment;
    }
    if Truthy(r.passage) {
      q.passage := r.passage;
    }
  }

  /**
   * The body of SubjectFile.load: a new Subject with the stored name and counter 0, and
   * every stored question put back through AddQuestion, in file order.
   */
  method Rebuild(data: SubjectRecord) returns (s: Subject)
    ensures fresh(s) && s.Valid() && s.IdsFresh()
    ensures s.ToRecord() == Loaded(data)
  {
    s := new Subject(data.name, 0);
    var i := 0;
    while i < |data.questions|
      invariant 0 <= i <= |data.questions|
      invariant fresh(s) && s.Valid() && s.IdsFresh()
      invariant s.ToRecord() == SubjectRecord(data.name, LoadedQuestions(data.questions[..i]), i)
    {
      RestoreInto(s, data, i);
      i := i + 1;
    }
    assert data.questions[..i] == data.questions;
  }

  /**
   * Saving a subject and loading the file back gives the subject's record as a load
   * rebuilds it; by `LoadedFixedPointIff` that is the saved record itself exactly when its
   * ids are 1..n, its counter n, and no optional field is empty.
   */
  method SubjectRoundTrip(saved: SubjectFile, loaded: SubjectFile, disk: Disk)
    requires saved.subject != null && loaded.filename == saved.filename
    modifies disk, loaded
    ensures loaded.subject != null && loaded.subject.ToRecord() == Loaded(old(saved.subject.ToRecord()))
  {
    ghost var record := saved.subject.ToRecord();
    saved.Save(disk);
    assert disk.subjectFiles[loaded.filename] == Some(record);
    var found := loaded.Load(disk);
  }

  /** One turn of the load loop: the `i`-th stored question restored and added to `s`. */
  method RestoreInto(s: Subject, data: SubjectRecord, i: nat)
    requires i < |data.questions|
    requires s.Valid() && s.IdsFresh()
    requires s.ToRecord() == SubjectRecord(data.name, LoadedQuestions(data.questions[..i]), i)
    modifies s
    ensures s.Valid() && s.IdsFresh()
    ensures s.ToRecord() == SubjectRecord(data.name, LoadedQuestions(data.questions[..i + 1]), i + 1)
  {
    var q := RestoreQuestion(data.questions[i]);
    s.AddQuestion(q);
    LoadedQuestionsStep(data.questions, i);
  }

  class ProgressFile {
    const subjectName: string
    const filename: string
    var progress: Progress?

    constructor (subjectName: string)
      ensures this.subjectName == subjectName && filename == ProgressFileName(subjectName)
      ensures progress == null
    {
      this.subjectName := subjectName;
      this.filename := ProgressFileName(subjectName);
      this.progress := null;
    }

    /** Overwrites this subject's progress file with the whole history; no other file changes. */
    method Save(disk: Disk)
      requires progress != null
      modifies disk
      ensures disk.progressFiles == old(disk.progressFiles)[filename := progress.ToRecord()]
      ensures disk.subjectFiles == old(disk.subjectFiles) && disk.userFile == old(disk.userFile)
    {
      disk.progressFiles := disk.progressFiles[filename := progress.ToRecord()];
    }

    /**
     * Restores the history exactly as stored: the stored subject name and quiz list. `found`
     * is false where the program raises FileNotFoundError, and then nothing changes.
     */
    method Load(disk: Disk) returns (found: bool)
      modifies this
      ensures found <==> filename in disk.progressFiles
      ensures found ==> progress != null && fresh(progress) && progress.ToRecord() == disk.progressFiles[filename]
      ensures !found ==> progress == old(progress)
    {
      if filename !in disk.progressFiles {
        return false;
      }
      var data := disk.progressFiles[filename];
      progress := new Progress(data.subjectName, data.quizzes);
      found := true;
    }
  }

  /** Saving a history and loading the file back gives the same subject name and quizzes. */
  method ProgressRoundTrip(saved: ProgressFile, loaded: ProgressFile, disk: Disk)
    requires saved.progress != null && loaded.filename == saved.filename
    modifies disk, loaded
    ensures loaded.progress != null && loaded.progress.ToRecord() == old(saved.progress.ToRecord())
  {
    saved.Save(disk);
    var found := loaded.Load(disk);
  }

  /** The registry of subject names. */
  class UserFile {
    var subjects: seq<string>

    constructor ()
      ensures subjects == []
    {
      subjects := [];
    }

    /** Writes the registry file; no other file changes. */
    method Save(disk: Disk)
      modifies disk
      ensures disk.userFile == Some(subjects)
      ensures disk.subjectFiles == old(disk.subjectFiles) && disk.progressFiles == old(disk.progressFiles)
    {
      disk.userFile := Some(subjects);
    }

    /** Reads back the registry file, names in the order they were saved. */
    method Load(disk: Disk) returns (found: bool)
      modifies this
      ensures found <==> disk.userFile.Some?
      ensures found ==> subjects == disk.userFile.value
      ensures !found ==> subjects == old(subjects)
    {
      if disk.userFile.None? {
        return false;
      }
      subjects := disk.userFile.value;
      found := true;
    }
  }

  /** Saving the registry and loading it back gives the same names in the same order. */
  method RegistryRoundTrip(saved: UserFile, loaded: UserFile, disk: Disk)
    modifies disk, loaded
    ensures loaded.subjects == saved.subjects
  {
    saved.Save(disk);
    var found := loaded.Load(disk);
    assert found;
  }

  // ---------------------------------------------------------------------------
  // Attachments
  // ---------------------------------------------------------------------------

  /** posixpath.join of two components: an absolute second part replaces the first. */
  function JoinPath(dir: string, name: string): string
  {
    if |name| > 0 && name[0] == '/' then name
    else if dir == [] || dir[|dir| - 1] == '/' then dir + name
    else dir + "/" + name
  }

  /** How an f-string shows an optional value: None prints as "None". */
  function Shown(v: Option<string>): string
  {
    if v.Some? then v.value else "None"
  }

  /** The file an attachment reference resolves to: `<attachment dir>/<attachment>.pdf`. */
  function AttachmentPath(attachmentDir: string, attachment: Option<string>): (p: string)
    ensures |p| >= 4 && p[|p| - 4..] == ".pdf"
    ensures attachmentDir != [] && attachmentDir[|attachmentDir| - 1] != '/' && attachment.Some?
            && (attachment.value == [] || attachment.value[0] != '/')
            ==> p == attachmentDir + "/" + attachment.value + ".pdf"
  {
    var file := Shown(attachment) + ".pdf";
    var p := JoinPath(attachmentDir, file);
    assert p[|p| - |file|..] == file;
    assert file[|file| - 4..] == ".pdf";
    assert p[|p| - 4..] == file[|file| - 4..];
    p
  }

  /** Inside one attachment directory, different relative references resolve to different files. */
  lemma AttachmentPathInjective(attachmentDir: string, a: string, b: string)
    requires attachmentDir != [] && attachmentDir[|attachmentDir| - 1] != '/'
    requires a == [] || a[0] != '/'
    requires b == [] || b[0] != '/'
    requires AttachmentPath(attachmentDir, Some(a)) == AttachmentPath(attachmentDir, Some(b))
    ensures a == b
  {
    var prefix := attachmentDir + "/";
    var pa := AttachmentPath(attachmentDir, Some(a));
    assert pa == prefix + (a + ".pdf");
    assert pa == prefix + (b + ".pdf");
    assert a + ".pdf" == pa[|prefix|..] == b + ".pdf";
    assert a == (a + ".pdf")[..|a|];
    assert b == (b + ".pdf")[..|b|];
  }
}
