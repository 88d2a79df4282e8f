/**
 * The session coordinator (src/session.py): turns a subject name into a loaded Subject or
 * Progress, creating and saving an empty one the first time a name is used.
 *
 * The program keeps the registry of subject names in a package-level list that is the
 * registry file's own list; here that registry object and the Disk are handed to the
 * Session when it is made.
 */
module Sessions {
  import opened Models
  import opened Storage

  class Session {
    const subjectName: string
    const sf: SubjectFile
    const registry: UserFile
    const disk: Disk

    ghost predicate Valid()
    {
      sf.subjectName == subjectName && sf.filename == SubjectFileName(subjectName)
    }

    constructor (subjectName: string, registry: UserFile, disk: Disk)
      ensures Valid() && fresh(sf) && sf.subject == null
      ensures this.subjectName == subjectName && this.registry == registry && this.disk == disk
    {
      this.subjectName := subjectName;
      this.sf := new SubjectFile(subjectName);
      this.registry := registry;
      this.disk := disk;
    }

    /**
     * A registered name is loaded from its subject file and nothing is written; `null`
     * stands for the error the program lets through when that file is missing
     * (FileNotFoundError) or holds null (TypeError). An unregistered name goes through
     * AddSubject, which saves the new subject through a file object of its own, so the
     * session's subject file is left holding nothing. Either way the name is registered
     * afterwards.
     */
    method LoadSubject() returns (s: Subject?)
      requires Valid()
      modifies sf, registry, disk
      ensures subjectName in registry.subjects
      ensures old(subjectName in registry.subjects) ==>
                && registry.subjects == old(registry.subjects)
                && disk.subjectFiles == old(disk.subjectFiles)
                && disk.progressFiles == old(disk.progressFiles)
                && disk.userFile == old(disk.userFile)
                && (s == null <==> !(sf.filename in disk.subjectFiles && disk.subjectFiles[sf.filename].Some?))
                && (s == null ==> sf.subject == old(sf.subject))
                && (s != null ==> && s == sf.subject && fresh(s) && s.Valid() && s.IdsFresh()
                                  && s.ToRecord() == Loaded(disk.subjectFiles[sf.filename].value))
      ensures old(subjectName !in registry.subjects) ==>
                && registry.subjects == old(registry.subjects) + [subjectName]
                && disk.userFile == Some(registry.subjects)
                && disk.subjectFiles == old(disk.subjectFiles)[sf.filename := Some(SubjectRecord(subjectName, [], 0))]
                && disk.progressFiles == old(disk.progressFiles)
                && sf.subject == old(sf.subject)
                && s != null && fresh(s) && s.Valid() && s.IdsFresh()
                && s.ToRecord() == SubjectRecord(subjectName, [], 0)
    {
      if subjectName in registry.subjects {
        var found := sf.Load(disk);
        if found {
          s := sf.subject;
        } else {
          s := null;
        }
      } else {
        s := AddSubject(subjectName);
      }
    }

    /**
     * LoadSubject as the add-question command needs it: the same, except that a new subject
     * is also held by the session's subject file, so saving that file stores it.
     */
    method LoadSubjectHeld() returns (s: Subject?)
      requires Valid()
      modifies sf, registry, disk
      ensures subjectName in registry.subjects
      ensures s != null ==> s == sf.subject
      ensures old(subjectName in registry.subjects) ==>
                && registry.subjects == old(registry.subjects)
                && disk.subjectFiles == old(disk.subjectFiles)
                && disk.progressFiles == old(disk.progressFiles)
                && disk.userFile == old(disk.userFile)
                && (s == null <==> !(sf.filename in disk.subjectFiles && disk.subjectFiles[sf.filename].Some?))
                && (s != null ==> && fresh(s) && s.Valid() && s.IdsFresh()
                                  && s.ToRecord() == Loaded(disk.subjectFiles[sf.filename].value))
      ensures old(subjectName !in registry.subjects) ==>
                && registry.subjects == old(registry.subjects) + [subjectName]
                && disk.userFile == Some(registry.subjects)
                && disk.subjectFiles == old(disk.subjectFiles)[sf.filename := Some(SubjectRecord(subjectName, [], 0))]
                && disk.progressFiles == old(disk.progressFiles)
                && s != null && fresh(s) && s.Valid() && s.IdsFresh()
                && s.ToRecord() == SubjectRecord(subjectName, [], 0)
    {
      if subjectName in registry.subjects {
        s := LoadSubject();
      } else {
        s := AddSubject(subjectName);
        sf.subject := s;
      }
    }

    /**
     * Registers `subjectName` (appending it even when it is already there), saves the
     * registry, and saves an empty subject (no questions, counter 0) under the name's
     * subject filename, replacing any file already there.
     */
    method AddSubject(subjectName: string) returns (s: Subject)
      modifies registry, disk
      ensures fresh(s) && s.Valid() && s.IdsFresh()
      ensures s.ToRecord() == SubjectRecord(subjectName, [], 0)
      ensures registry.subjects == old(registry.subjects) + [subjectName]
      ensures disk.userFile == Some(registry.subjects)
      ensures disk.subjectFiles == old(disk.subjectFiles)[SubjectFileName(subjectName) := Some(SubjectRecord(subjectName, [], 0))]
      ensures disk.progressFiles == old(disk.progressFiles)
    {
      s := new Subject(subjectName, 0);
      registry.subjects := registry.subjects + [subjectName];
      registry.Save(disk);
      var file := new SubjectFile(subjectName);
      file.subject := s;
      file.Save(disk);
    }

    /**
     * The stored history when the progress file exists, with nothing written; otherwise a
     * new empty history for this subject, saved and returned. Either way the file exists
     * afterwards.
     */
    method LoadProgress() returns (p: Progress)
      modifies disk
      ensures fresh(p)
      ensures ProgressFileName(subjectName) in disk.progressFiles
      ensures disk.subjectFiles == old(disk.subjectFiles) && disk.userFile == old(disk.userFile)
      ensures var fn := ProgressFileName(subjectName);
              fn in old(disk.progressFiles) ==>
                disk.progressFiles == old(disk.progressFiles) && p.ToRecord() == old(disk.progressFiles[fn])
      ensures var fn := ProgressFileName(subjectName);
              fn !in old(disk.progressFiles) ==>
                && disk.progressFiles == old(disk.progressFiles)[fn := ProgressRecord(subjectName, [])]
                && p.ToRecord() == ProgressRecord(subjectName, [])
    {
      var pfile := new ProgressFile(subjectName);
      var found := pfile.Load(disk);
      if found {
        p := pfile.progress;
      } else {
        p := AddProgress(pfile);
      }
    }

    /** Saves a new, empty history for this session's subject through `pfile`. */
    method AddProgress(pfile: ProgressFile) returns (p: Progress)
      modifies pfile, disk
      ensures fresh(p) && pfile.progress == p
      ensures p.ToRecord() == ProgressRecord(subjectName, [])
      ensures disk.progressFiles == old(disk.progressFiles)[pfile.filename := ProgressRecord(subjectName, [])]
      ensures disk.subjectFiles == old(disk.subjectFiles) && disk.userFile == old(disk.userFile)
    {
      p := new Progress(subjectName, []);
      pfile.progress := p;
      pfile.Save(disk);
    }
  }

  /**
   * Two progress loads in a row: the second finds the file the first may have created,
   * writes nothing, and returns the same history.
   */
  method ProgressCreatedOnce(session: Session)
    returns (first: Progress, second: Progress, ghost afterFirst: map<string, ProgressRecord>)
    modifies session.disk
    ensures first.ToRecord() == second.ToRecord()
    ensures ProgressFileName(session.subjectName) in session.disk.progressFiles
    ensures var fn := ProgressFileName(session.subjectName);
            afterFirst == if fn in old(session.disk.progressFiles) then old(session.disk.progressFiles)
                          else old(session.disk.progressFiles)[fn := ProgressRecord(session.subjectName, [])]
    ensures session.disk.progressFiles == afterFirst
  {
    first := session.LoadProgress();
    afterFirst := session.disk.progressFiles;
    second := session.LoadProgress();
  }

  /**
   * A name that is not registered but whose subject filename is already taken (for instance
   * by a registered name that differs only in case): loading it replaces that file with an
   * empty subject.
   */
  method UnregisteredNameReplacesSharedFile(session: Session) returns (s: Subject?)
    requires session.Valid()
    requires session.subjectName !in session.registry.subjects
    requires SubjectFileName(session.subjectName) in session.disk.subjectFiles
    modifies session.sf, session.registry, session.disk
    ensures SubjectFileName(session.subjectName) in session.disk.subjectFiles
    ensures session.disk.subjectFiles[SubjectFileName(session.subjectName)] == Some(SubjectRecord(session.subjectName, [], 0))
  {
    s := session.LoadSubject();
  }

  /**
   * The add-question command (src/cli.py:39-62) on a name that is not registered yet, as
   * written: the new subject is saved by `add_subject`, the question is added to it, and
   * then the session's subject file, which holds no subject, is saved. The file ends up
   * holding null, the question is not stored, and the next load of the now registered
   * name fails.
   */
  method NewSubjectQuestionLost(registry: UserFile, disk: Disk, name: string, q: Question)
    returns (reloaded: Subject?)
    requires name !in registry.subjects
    modifies registry, disk, q
    ensures name in registry.subjects
    ensures SubjectFileName(name) in disk.subjectFiles && disk.subjectFiles[SubjectFileName(name)] == None
    ensures reloaded == null
  {
    var session := new Session(name, registry, disk);
    AddQuestionAndSave(session, q);
    reloaded := Reload(registry, disk, name);
  }

  /** Lines 40, 59 and 62 of the add-question command, for a name that is not registered. */
  method AddQuestionAndSave(session: Session, q: Question)
    requires session.Valid() && session.sf.subject == null
    requires session.subjectName !in session.registry.subjects
    modifies session.sf, session.registry, session.disk, q
    ensures session.subjectName in session.registry.subjects
    ensures session.sf.filename in session.disk.subjectFiles
    ensures session.disk.subjectFiles[session.sf.filename] == None
  {
    var subject := NewSubject(session, false);
    subject.AddQuestion(q);
    session.sf.Save(session.disk);
  }

  /**
   * The same command with the new subject held by the session's subject file
   * (`LoadSubjectHeld`): the file stores the subject with the question as id 1, and the
   * next load gives that question back.
   */
  method NewSubjectQuestionKept(registry: UserFile, disk: Disk, name: string, q: Question)
    returns (reloaded: Subject?)
    requires name !in registry.subjects
    modifies registry, disk, q
    ensures name in registry.subjects
    ensures var stored := SubjectRecord(name, [old(q.ToRecord()).(id := 1)], 1);
            && SubjectFileName(name) in disk.subjectFiles
            && disk.subjectFiles[SubjectFileName(name)] == Some(stored)
            && reloaded != null && reloaded.ToRecord() == Loaded(stored)
  {
    var session := new Session(name, registry, disk);
    AddQuestionAndSaveHeld(session, q);
    reloaded := Reload(registry, disk, name);
  }

  /** AddQuestionAndSave with `LoadSubjectHeld` in place of `LoadSubject`. */
  method AddQuestionAndSaveHeld(session: Session, q: Question)
    requires session.Valid()
    requires session.subjectName !in session.registry.subjects
    modifies session.sf, session.registry, session.disk, q
    ensures session.subjectName in session.registry.subjects
    ensures session.sf.filename in session.disk.subjectFiles
    ensures session.disk.subjectFiles[session.sf.filename]
            == Some(SubjectRecord(session.subjectName, [old(q.ToRecord()).(id := 1)], 1))
  {
    ghost var before := q.ToRecord();
    var subject := NewSubject(session, true);
    subject.AddQuestion(q);
    assert subject.ToRecord().questions == [before.(id := 1)];
    session.sf.Save(session.disk);
  }

  /**
   * Line 40 of the add-question command for a name that is not registered: through
   * `LoadSubjectHeld` when `held`, otherwise through `LoadSubject` as written.
   */
  method NewSubject(session: Session, held: bool) returns (subject: Subject)
    requires session.Valid()
    requires session.subjectName !in session.registry.subjects
    modifies session.sf, session.registry, session.disk
    ensures fresh(subject) && subject.Valid() && subject.questions == [] && subject.counter == 0
    ensures subject.name == session.subjectName
    ensures session.subjectName in session.registry.subjects
    ensures held ==> session.sf.subject == subject
    ensures !held ==> session.sf.subject == old(session.sf.subject)
  {
    var s: Subject?;
    if held {
      s := session.LoadSubjectHeld();
    } else {
      s := session.LoadSubject();
    }
    subject := s;
  }

  /** A later command loading a registered name: null exactly when its file is missing or null. */
  method Reload(registry: UserFile, disk: Disk, name: string) returns (reloaded: Subject?)
    requires name in registry.subjects
    modifies registry, disk
    ensures registry.subjects == old(registry.subjects) && disk.subjectFiles == old(disk.subjectFiles)
    ensures var fn := SubjectFileName(name);
            reloaded == null <==> !(fn in disk.subjectFiles && disk.subjectFiles[fn].Some?)
    ensures var fn := SubjectFileName(name);
            reloaded != null ==> reloaded.ToRecord() == Loaded(disk.subjectFiles[fn].value)
  {
    var next := new Session(name, registry, disk);
    reloaded := next.LoadSubject();
  }

  /**
   * A three-question quiz answered right, wrong, right: two correct answers, and the
   * record appended to an empty history is quiz 1 with score 2 out of 3.
   */
  method ScoringScenario(quiz: QuizSession, wrong: string, end: Timestamp) returns (record: QuizRecord)
    requires quiz.Valid() && quiz.length == 3 && quiz.current == 0
    requires wrong != quiz.questions[1].answer
    modifies quiz
    ensures quiz.correct == 2 && quiz.IsFinished()
    ensures record.id == 1 && record.score == 2 && record.length == 3
  {
    var q0, q2 := quiz.questions[0], quiz.questions[2];
    var r0 := quiz.AnswerCurrent(q0.answer);
    var r1 := quiz.AnswerCurrent(wrong);
    var r2 := quiz.AnswerCurrent(q2.answer);
    quiz.Finish(end);
    var history := new Progress(quiz.subject.name, []);
    history.AddQuiz(quiz);
    record := history.quizzes[0];
  }
}
