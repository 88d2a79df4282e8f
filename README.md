# Quiz engine, stores and coordinator of a quiz-study tool, in Dafny

This project models the core of a command-line tool for studying with multiple-choice
questions. The tool keeps subjects, each holding a bank of questions. It runs quizzes on
random draws from a bank and keeps a history of quiz scores per subject.

- `models.dfy` (module `Models`) covers the data model and the quiz engine.
  - A **Question** has an id, a text, its incorrect choices, the answer, and an optional
    attachment and passage.
  - A **Subject** holds a question list and a counter. The counter stamps each added
    question with the next id.
  - A **QuizSession** draws `length` questions from distinct positions of a subject's list.
    It serves them one at a time, scores by exact string equality, records a snapshot
    `QuizAnswer` for each, and moves its cursor on.
  - A **Progress** history appends one record per finished quiz, with ids 1, 2, 3, ...
  - The two deletions the command line performs are here too: delete a question, and
    delete a choice.
  Question, Subject, QuizSession and Progress are classes, because the program changes
  their fields in place. Their persisted shapes (`QuestionRecord`, `SubjectRecord`,
  `QuizRecord`, `ProgressRecord`) and `QuizAnswer` are datatypes.
- `storage.dfy` (module `Storage`) covers the three stores and the attachment path.
  - The file system is a `Disk` object: a map from filename stem to record for the
    subjects directory, another for the progress directory, and the one registry file.
    A subject file may hold JSON null: that is what saving a subject file object with no
    subject writes.
  - The subject store lower-cases names; the progress store keeps their case.
  - Loading a subject rebuilds it through `AddQuestion` on a fresh counter. So ids come
    back as 1..n in file order, whatever the file said.
- `session.dfy` (module `Sessions`) covers the coordinator.
  - Loading an unregistered subject name registers it and saves an empty subject.
  - Loading a missing progress file creates and saves an empty history.

Randomness is nondeterministic choice (`:|`): `random.sample` yields some set of distinct
positions, and `random.shuffle` some permutation. Timestamps are opaque strings, and the
clock is a parameter. Where the program raises, the model returns `null` or `false`:
`random.sample` on a bad length, a missing or null subject file for a registered name, a
missing progress file, and a choice index outside the list. Where the program simply
crashes on misuse, a `requires` states the condition: indexing past the end in
`prepare_question` (its caller checks `is_finished` first, src/cli.py:77-79) and in
`answer_current`, or `strftime` on an unset end time in `add_quiz`.

Behaviour of the code worth knowing, which the model keeps:
- `add_subject` does no duplicate check. A registered name is appended a second time; the
  only guard is in the command layer (src/cli.py:21).
- `finish` does not check that the session is finished.
- Answering past the end is an IndexError, not a dedicated error.
- Saving and loading a subject does not keep ids: load renumbers them 1..n and resets the
  counter to n. After a deletion, later ids shift down (`Storage.DeleteSaveLoadShiftsIds`).
- The two stores derive filenames differently (`Storage.FileNamesAgreeIff`). Names that
  differ only in case share one subject file (`Storage.SubjectFileNameIgnoresCase`).
- Adding a question to a subject name that is not registered yet loses the question and
  leaves a subject file holding null (see Findings).
- A stored question missing the `attachment` or `passage` key raises KeyError on load.
  Only null, an empty string or a non-empty string are modelled. The first two load as
  absent.

## Model

| member | source | states |
|---|---|---|
| `Models.Question.constructor` | src/models.py:5-11 | a new question has id 0, the given text, choices and answer, and no attachment or passage |
| `Models.Question.AddChoice` | src/models.py:13-14 | the choice is appended last; no other field changes |
| `Models.Question.AddAttachment` | src/models.py:16-17 | only the attachment changes, to the given name |
| `Models.Question.AddPassage` | src/models.py:19-20 | only the passage changes, to the given text |
| `Models.Question.DeleteChoice` | src/cli.py:196 | false (the IndexError) exactly when the index is outside Python's range for the list, and then nothing changes; otherwise the first choice equal to the indexed one (negative indices count from the end) is removed: at or before that index, exactly one copy, every other field kept |
| `Models.FirstIndexOf` | src/cli.py:196 | the position `list.remove` deletes holds the value, and no earlier position does |
| `Models.Subject.constructor` | src/models.py:33-36 | a subject starts with no questions, the given counter, and no id handed out |
| `Models.Subject.AddQuestion` | src/models.py:38-44 | the counter rises by exactly 1; the question gets the new counter as id and goes last; no other field changes; the id was never handed out before; earlier questions' records are unchanged; distinct ids stay distinct |
| `Models.RemovedIdNotReissued` | src/models.py:41-44 | after deleting a question, the next added question's id is the old counter plus 1, never the deleted id |
| `Models.FirstWithId` | src/models.py:47 | the position found is the first whose id equals the one asked for, or the end of the list when none does |
| `Models.WithId` | src/models.py:47 | the comprehension keeps only questions with that id; it is empty exactly when none matches, and it starts with the first match in list order |
| `Models.Subject.QuestionById` | src/models.py:46-47 | the result is the first question in list order with that id; None (the IndexError) exactly when no question has it |
| `Models.Subject.RemoveQuestion` | src/cli.py:180 | the first occurrence of the question is removed; the other questions keep their order and records, and so their ids; the counter and handed-out ids are kept; distinct ids stay distinct |
| `Models.Sample` | src/models.py:69 | `length` distinct positions, each inside the pool |
| `Models.Shuffle` | src/models.py:84 | the result is a permutation of its input |
| `Models.QuizSession.constructor` | src/models.py:65-73 | exactly `length` questions from distinct positions of the subject's list; cursor, correct count and answers start at 0, 0 and empty; start time set, no end time |
| `Models.QuizSession.Start` | src/models.py:65-73 | gives null (random.sample's ValueError) exactly when `length` is negative or exceeds the pool size; otherwise a session as the constructor states |
| `Models.QuizSession.PrepareQuestion` | src/models.py:75-77 | the question at the cursor is the one drawn from the pool for this turn; as a function of the state it changes nothing, so repeated calls agree |
| `Models.QuizSession.PrepareSelections` | src/models.py:79-89 | one option per choice plus one for the answer, numbered 1..n in order; the option strings are a permutation of the choices followed by the answer |
| `Models.OptionsOfZip` | src/models.py:85-89 | zipping the numbers 1..n with the shuffled options keeps every option, in order, each paired with the number at its position |
| `Models.CountCorrect` | src/models.py:93-95 | the count of answers marked correct is at most the number of answers, and equals it exactly when every answer is correct |
| `Models.QuizSession.AnswerCurrent` | src/models.py:91-101 | the result is exact string equality with the current answer; correct rises by 1 exactly when it is true; the cursor rises by 1; one snapshot of the question's id and text is appended; the invariant 0 ≤ correct ≤ current = number of answers ≤ length, with correct equal to the number of correct answers, is kept |
| `Models.QuizSession.IsFinished` | src/models.py:103-104 | true exactly when every drawn question has been answered, that is, when no question remains to serve |
| `Models.QuizSession.Finish` | src/models.py:106-107 | only the end time changes |
| `Models.Progress.constructor` | src/models.py:111-113 | a history with the given subject name and its own quiz list |
| `Models.Progress.AddQuiz` | src/models.py:115-124 | one record is appended with id = previous count + 1, the quiz's answers, score = correct count, its length, and start and end times; earlier records are untouched; ids 1..n stay dense |
| `Sessions.ScoringScenario` | src/models.py:91-124 | answering a three-question quiz right, wrong, right gives correct = 2 and a finished session; the record appended to an empty history is quiz 1 with score 2 and length 3 |
| `Storage.SubjectFileName` | build/lib/src/storage.py:13 | the stem has the name's length, no space and no upper-case letter |
| `Storage.SubjectFileNameIdempotent` | build/lib/src/storage.py:13 | applying the subject filename rule to its own result changes nothing |
| `Storage.SubjectFileNameIgnoresCase` | build/lib/src/storage.py:13 | names that differ only in letter case get the same subject filename |
| `Storage.ProgressFileName` | build/lib/src/storage.py:37 | the stem has the name's length and no space; every character except a replaced space is kept as is, case included |
| `Storage.FileNamesAgreeIff` | build/lib/src/storage.py:37 | the progress filename equals the subject filename (line 13) exactly when the name has no upper-case letter |
| `Storage.Reloaded` | build/lib/src/storage.py:28-31 | a loaded optional field is never the empty string, so absent and empty cannot be told apart after a load; a present field holds exactly the stored value |
| `Storage.ReloadedCases` | build/lib/src/storage.py:28-31 | null and the empty string both load as absent; any other string loads as itself |
| `Storage.ReloadedIdempotent` | build/lib/src/storage.py:28-31 | loading a field that was already loaded changes nothing |
| `Storage.ReloadedFixedPointIff` | build/lib/src/storage.py:28-31 | a stored field survives a load exactly when it is not the empty string |
| `Storage.QuestionRecordReloads` | src/models.py:22-30 | the record `to_dict` writes for a question comes back from a load unchanged exactly when its id is its position and neither optional field is the empty string |
| `Storage.RestoreQuestion` | build/lib/src/storage.py:26-31 | a new question with the stored text, choices, answer and id; the optional fields are kept only when truthy |
| `Storage.LoadedQuestions` | build/lib/src/storage.py:25-32 | the rebuilt questions are in file order; the k-th keeps its stored content and gets id k+1 |
| `Storage.Loaded` | build/lib/src/storage.py:24-32 | the rebuilt subject keeps the stored name, and each question's text, choices and answer in file order; ids become 1..n and the counter n, whatever was stored |
| `Storage.LoadedIdempotent` | build/lib/src/storage.py:21-32 | loading a subject that was saved right after a load gives it back unchanged |
| `Storage.LoadedFixedPointIff` | build/lib/src/storage.py:21-32 | a stored subject loads back unchanged exactly when its ids are 1..n, its counter is n and no optional field is the empty string |
| `Storage.DeleteSaveLoadShiftsIds` | build/lib/src/storage.py:24-32 | after deleting position i of a loaded subject, a save and a load keep the ids before i, lower every later id by one, and reduce the counter by one |
| `Storage.SubjectFile.constructor` | build/lib/src/storage.py:11-14 | the filename is the subject filename of the name; no subject is held |
| `Storage.SubjectFile.Save` | build/lib/src/storage.py:16-19 | only this subject's file changes: to the subject's full record, or to JSON null when no subject is held |
| `Storage.SubjectRoundTrip` | src/models.py:49-54 | saving the record `to_dict` builds for a subject and loading the file back gives that record as a load rebuilds it |
| `Storage.Rebuild` | build/lib/src/storage.py:24-32 | a new, valid subject with the stored name whose record is the stored one after a load: the questions in file order, renumbered 1..n, optional fields kept only when truthy, counter n; its ids are distinct |
| `Storage.SubjectFile.Load` | build/lib/src/storage.py:21-32 | found exactly when the file exists and holds a subject rather than null; the held subject is then new, its record is the rebuilt one, and its ids are distinct; otherwise (FileNotFoundError, or TypeError on null) nothing changes |
| `Storage.ProgressFile.constructor` | build/lib/src/storage.py:35-38 | the filename is the progress filename of the name; no history is held |
| `Storage.ProgressFile.Save` | build/lib/src/storage.py:40-43 | only this subject's progress file changes, to the whole history |
| `Storage.ProgressFile.Load` | build/lib/src/storage.py:45-48 | found exactly when the file exists; the history then holds the stored subject name and quiz list as stored |
| `Storage.ProgressRoundTrip` | src/models.py:137-141 | saving the record `to_dict` builds for a history and loading the file back gives the same subject name and quizzes |
| `Storage.UserFile.constructor` | build/lib/src/storage.py:51-53 | the registry starts empty |
| `Storage.UserFile.Save` | build/lib/src/storage.py:55-58 | the registry file holds the names in order; no other file changes |
| `Storage.UserFile.Load` | build/lib/src/storage.py:60-63 | found exactly when the registry file exists; the names are then those stored, in order |
| `Storage.RegistryRoundTrip` | build/lib/src/storage.py:55-63 | saving the registry and loading it back gives the same names in the same order |
| `Storage.AttachmentPath` | build/lib/src/storage.py:65-67 | the path ends in ".pdf"; for a relative name in a directory without a trailing slash it is `<dir>/<name>.pdf` |
| `Storage.AttachmentPathInjective` | build/lib/src/storage.py:67 | in one attachment directory, different relative names resolve to different paths |
| `Sessions.Session.constructor` | src/session.py:6-8 | the session's subject file belongs to its name and holds no subject yet |
| `Sessions.Session.LoadSubject` | src/session.py:10-15 | for a registered name: registry and files unchanged; the result is the subject rebuilt from that name's subject file, or null (FileNotFoundError) when the file is missing. For an unregistered name: as AddSubject, and the session's subject file still holds no subject. Afterwards the name is registered |
| `Sessions.Session.LoadSubjectHeld` | src/session.py:10-24 | corrected load: as LoadSubject, except that a new subject is also held by the session's subject file, so whatever is returned is what saving that file stores |
| `Sessions.Session.AddSubject` | src/session.py:17-24 | the name is appended to the registry even when already there; the registry is saved; an empty subject (no questions, counter 0) is stored under the name's subject filename and returned |
| `Sessions.UnregisteredNameReplacesSharedFile` | src/session.py:17-24 | loading an unregistered name whose subject filename is already in use leaves that file holding an empty subject |
| `Sessions.Session.LoadProgress` | src/session.py:26-32 | when the progress file exists, it returns the stored history and writes nothing; otherwise it stores and returns a new empty history for the subject; afterwards the file exists |
| `Sessions.Session.AddProgress` | src/session.py:34-38 | a new empty history for the session's subject is held by the file object and saved under its filename |
| `Sessions.ProgressCreatedOnce` | src/session.py:26-38 | two progress loads in a row return the same history; the first leaves the progress files unchanged when the file existed, otherwise adds an empty history; the second writes nothing |
| `Sessions.NewSubjectQuestionLost` | src/cli.py:39-62 | the add-question command on an unregistered name, as written: the name is registered, the subject file ends up holding null, and the next load of the name fails |
| `Sessions.NewSubjectQuestionKept` | src/cli.py:39-62 | the same command with the corrected load: the subject file holds the subject with the question as id 1 and counter 1, and the next load gives it back |

## Left out

- The presentation layer (src/views.py) is not part of this model: console tables, charts
  and opening attachments with the host's viewer.
- The command layer (src/cli.py) is not modelled: argument parsing, prompts, confirmation
  of deletions, and the attachment directory listing at src/cli.py:48. Only its two list
  mutations are modelled: `Question.DeleteChoice` and `Subject.RemoveQuestion`.
- The command layer calls `prepare_selections` on a Question (src/cli.py:83,
  src/cli.py:147), which has no such method. The model follows the definition on the quiz
  session.
- config.py is not part of this model. The attachment directory is a parameter of
  `Storage.AttachmentPath`, and file paths are reduced to filename stems.
- The package initialisation that loads the registry at import time is not part of this
  model. The registry object and the Disk are passed to `Sessions.Session` instead.
- JSON text, file opening and writing, and malformed files are not modelled. Each store is
  a map from filename stem to the parsed record.
- A stored value of another JSON type than null or string in `attachment`/`passage` is not
  modelled, and neither is a missing key (a KeyError).
- `Storage.ProgressFile.Save` requires a history to be held. With none, the program would
  write JSON `null`; both callers (src/session.py:36, src/cli.py:105) set the history first.
- Date and time handling (`datetime.now`, `strftime`, `strptime`) is not modelled.
  Timestamps are opaque strings passed in.
- `Progress.prepare_data` and its score percentages are left out, because they are
  floating-point values.
- Default arguments are not modelled; callers pass every argument. This covers
  `length=10`, `choices=[]`, `answer=""` and `counter=0`.
- The shared mutable default lists of `Question` and `Progress` are not modelled. Each
  object gets its own sequence.
- `Storage.AttachmentPath`: joins paths by POSIX rules only (`/` separator, a leading `/`
  makes a name absolute). On Windows, `os.path.join` follows ntpath rules (`\` and `/`
  separators, drive letters), which the model does not capture.
- `Storage.SubjectFileName`: lower-casing covers the ASCII letters A-Z only, not Python's
  full Unicode `str.lower`.
- `Storage.FileNamesAgreeIff`: inherits the ASCII-only lower-casing. For a name with a
  non-ASCII capital such as "É", the model gives equal stems where Python's differ.
- `Storage.SubjectFileNameIgnoresCase`: inherits the ASCII-only lower-casing. Names that
  differ only in non-ASCII letter case are not covered.
- `Models.Sample`: states only which draws are possible (distinct positions), not that
  `random.sample` draws uniformly.
- `Models.Shuffle`: states only that the result is a permutation, not that
  `random.shuffle` is uniform.
- The counter increment (`increment_counter`) has no member of its own. Its single use is
  folded into `Models.Subject.AddQuestion`.
- Concurrent writers to the same files are not modelled; the program is single-process.

## Findings

| source | as written | input that shows it | evidently intended | confidence | as-written member | corrected member |
|---|---|---|---|---|---|---|
| src/session.py:17-24 | `add_subject` saves the new subject through a `SubjectFile` of its own and leaves the session's `sf.subject` unset; the add-question command then saves `session.sf` (src/cli.py:62), which writes JSON null over the new file | `addq` with any subject name that is not registered | the session's subject file holds the new subject, so the first question is stored and the subject loads again | not executed | `Sessions.NewSubjectQuestionLost` | `Sessions.NewSubjectQuestionKept` (through `Sessions.Session.LoadSubjectHeld`) |
