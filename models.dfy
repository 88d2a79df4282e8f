/**
 * The quiz engine and its data model (src/models.py): questions, subjects with their
 * id counter, quiz sessions and the per-subject progress history.
 *
 * Objects whose fields the program updates in place (Question, Subject, QuizSession,
 * Progress) are classes; immutable values (QuizAnswer) and the persisted shape of each
 * entity (the dictionaries `to_dict` and the JSON writer produce) are datatypes.
 */
module Models {

  datatype Option<+T> = None | Some(value: T)

  /** A point in time, already formatted as "YYYY-MM-DD HH:MM:SS". The model never looks inside it. */
  type Timestamp = string

  // ---------------------------------------------------------------------------
  // Persisted shapes
  // ---------------------------------------------------------------------------

  /** A question as it is written to a subject file: every field, optional ones as null or a string. */
  datatype QuestionRecord = QuestionRecord(
    id: int,
    text: string,
    choices: seq<string>,
    answer: string,
    attachment: Option<string>,
    passage: Option<string>)

  /** A subject as it is written to its subject file. */
  datatype SubjectRecord = SubjectRecord(name: string, questions: seq<QuestionRecord>, counter: int)

  /** The outcome of one question in a quiz; the question's id and text are copied, not referenced. */
  datatype QuizAnswer = QuizAnswer(questionId: int, questionText: string, givenAnswer: string, isCorrect: bool)

  /** One completed quiz in a progress history. */
  datatype QuizRecord = QuizRecord(
    id: int,
    answers: seq<QuizAnswer>,
    score: int,
    length: int,
    start: Timestamp,
    end: Timestamp)

  /** A progress history as it is written to its progress file. */
  datatype ProgressRecord = ProgressRecord(subjectName: string, quizzes: seq<QuizRecord>)

  // ---------------------------------------------------------------------------
  // Sequence helpers
  // ---------------------------------------------------------------------------

  /** The position Python reads for index `i` of a list of length `n` (negative indices count from the end). */
  function PyIndex(i: int, n: nat): (k: nat)
    requires -(n as int) <= i < n
    ensures k < n && k % n == i % n
  {
    if i < 0 then i + n else i
  }

  /** The position `list.remove(v)` deletes: the first element equal to `v`. */
  function FirstIndexOf<T(==)>(s: seq<T>, v: T): (k: nat)
    requires v in s
    ensures k < |s| && s[k] == v
    ensures forall j :: 0 <= j < k ==> s[j] != v
  {
    if s[0] == v then 0 else 1 + FirstIndexOf(s[1..], v)
  }

  /** `s` without its element at position `k`. */
  function RemoveAt<T>(s: seq<T>, k: nat): (r: seq<T>)
    requires k < |s|
    ensures |r| == |s| - 1
    ensures forall j :: 0 <= j < k ==> r[j] == s[j]
    ensures forall j :: k <= j < |r| ==> r[j] == s[j + 1]
  {
    s[..k] + s[k + 1..]
  }

  /** Deleting the element at a position removes exactly one copy of it. */
  lemma RemoveAtMultiset<T>(s: seq<T>, k: nat)
    requires k < |s|
    ensures multiset(RemoveAt(s, k)) == multiset(s) - multiset{s[k]}
  {
    assert s == s[..k] + [s[k]] + s[k + 1..];
  }

  // ---------------------------------------------------------------------------
  // Question
  // ---------------------------------------------------------------------------

  class Question {
    var id: int
    var text: string
    var choices: seq<string>
    var answer: string
    var attachment: Option<string>
    var passage: Option<string>

    /** The record `to_dict` builds from the current fields: each key holds the field of its name. */
    function ToRecord(): QuestionRecord
      reads this
    {
      QuestionRecord(id, text, choices, answer, attachment, passage)
    }

    /** A new question has id 0, no attachment and no passage; it gets its own choice list. */
    constructor (text: string, choices: seq<string>, answer: string)
      ensures ToRecord() == QuestionRecord(0, text, choices, answer, None, None)
    {
      this.id := 0;
      this.text := text;
      this.choices := choices;
      this.answer := answer;
      this.attachment := None;
      this.passage := None;
    }

    method AddChoice(choice: string)
      modifies this
      ensures ToRecord() == old(ToRecord()).(choices := old(choices) + [choice])
    {
      choices := choices + [choice];
    }

    method AddAttachment(attachmentName: string)
      modifies this
      ensures ToRecord() == old(ToRecord()).(attachment := Some(attachmentName))
    {
      attachment := Some(attachmentName);
    }

    method AddPassage(passage: string)
      modifies this
      ensures ToRecord() == old(ToRecord()).(passage := Some(passage))
    {
      this.passage := Some(passage);
    }

    /**
     * Deletes a choice chosen by (possibly negative) index the way the command line does:
     * it looks the value up and removes the FIRST choice equal to it, which is an earlier
     * duplicate when there is one. `deleted` is false where the program raises IndexError
     * (the index is outside the list), and then nothing changes.
     */
    method DeleteChoice(index: int) returns (deleted: bool)
      modifies this
      ensures deleted <==> -|old(choices)| <= index < |old(choices)|
      ensures !deleted ==> ToRecord() == old(ToRecord())
      ensures deleted ==>
              var victim := old(choices)[PyIndex(index, |old(choices)|)];
              var k := FirstIndexOf(old(choices), victim);
              && k <= PyIndex(index, |old(choices)|)
              && ToRecord() == old(ToRecord()).(choices := RemoveAt(old(choices), k))
              && multiset(choices) == multiset(old(choices)) - multiset{victim}
    {
      if !(-|choices| <= index < |choices|) {
        return false;
      }
      var victim := choices[PyIndex(index, |choices|)];
      var k := FirstIndexOf(choices, victim);
      RemoveAtMultiset(choices, k);
      choices := RemoveAt(choices, k);
      deleted := true;
    }
  }

  /** The records of a list of questions, in list order. */
  function QuestionRecords(qs: seq<Question>): (rs: seq<QuestionRecord>)
    reads qs
    ensures |rs| == |qs|
    ensures forall k :: 0 <= k < |qs| ==> rs[k] == qs[k].ToRecord()
  {
    if qs == [] then [] else QuestionRecords(qs[..|qs| - 1]) + [qs[|qs| - 1].ToRecord()]
  }

  /** The position of the first question whose id is `qid`, or `|qs|` when there is none. */
  function FirstWithId(qs: seq<Question>, qid: int): (k: nat)
    reads qs
    ensures k <= |qs|
    ensures forall j :: 0 <= j < k ==> qs[j].id != qid
    ensures k < |qs| ==> qs[k].id == qid
  {
    if qs == [] then 0
    else if qs[0].id == qid then 0
    else 1 + FirstWithId(qs[1..], qid)
  }

  /** The list comprehension `[q for q in qs if q.id == qid]`. */
  function WithId(qs: seq<Question>, qid: int): (ms: seq<Question>)
    reads qs
    ensures forall m :: m in ms ==> m in qs && m.id == qid
    ensures |ms| == 0 <==> FirstWithId(qs, qid) == |qs|
    ensures |ms| > 0 ==> ms[0] == qs[FirstWithId(qs, qid)]
  {
    if qs == [] then []
    else (if qs[0].id == qid then [qs[0]] else []) + WithId(qs[1..], qid)
  }

  // ---------------------------------------------------------------------------
  // Subject
  // ---------------------------------------------------------------------------

  class Subject {
    var name: string
    var questions: seq<Question>
    var counter: int
    /** Every id this subject has handed out, including those of questions removed since. */
    ghost var issued: set<int>

    /** The counter is never below an id already handed out. */
    ghost predicate Valid()
      reads this
    {
      forall x :: x in issued ==> x <= counter
    }

    /** The ids of the questions are distinct, and each was handed out by this subject. */
    ghost predicate IdsFresh()
      reads this, questions
    {
      && (forall i, j :: 0 <= i < j < |questions| ==> questions[i].id != questions[j].id)
      && (forall i :: 0 <= i < |questions| ==> questions[i].id in issued)
    }

    /** The record `to_dict` (and the JSON writer) produce. */
    function ToRecord(): SubjectRecord
      reads this, questions
    {
      SubjectRecord(name, QuestionRecords(questions), counter)
    }

    constructor (name: string, counter: int)
      ensures Valid() && IdsFresh() && issued == {}
      ensures ToRecord() == SubjectRecord(name, [], counter)
    {
      this.name := name;
      this.questions := [];
      this.counter := counter;
      this.issued := {};
    }

    /**
     * Stamps `q` with the next counter value and appends it. The id handed out was never
     * handed out before, even if questions have been removed in between.
     */
    method AddQuestion(q: Question)
      requires Valid()
      modifies this, q
      ensures Valid()
      ensures name == old(name)
      ensures counter == old(counter) + 1
      ensures questions == old(questions) + [q]
      ensures q.ToRecord() == old(q.ToRecord()).(id := counter)
      ensures q.id !in old(issued) && issued == old(issued) + {q.id}
      ensures q !in old(questions) ==> ToRecord().questions == old(ToRecord().questions) + [q.ToRecord()]
      ensures q !in old(questions) && old(IdsFresh()) ==> IdsFresh()
    {
      counter := counter + 1;
      q.id := counter;
      questions := questions + [q];
      issued := issued + {q.id};
      assert forall k :: 0 <= k < |old(questions)| ==> questions[k] == old(questions)[k];
    }

    /**
     * The first question, in list order, whose id is `qid`; `None` stands for the IndexError
     * the program raises when no question has that id.
     */
    function QuestionById(qid: int): (r: Option<Question>)
      reads this, questions
      ensures r.None? <==> forall k :: 0 <= k < |questions| ==> questions[k].id != qid
      ensures r.Some? ==> r.value.id == qid && r.value == questions[FirstWithId(questions, qid)]
    {
      var matches := WithId(questions, qid);
      if |matches| == 0 then None else Some(matches[0])
    }

    /**
     * `questions.remove(q)` (the delete-question command): removes the first occurrence of
     * `q`. The counter is kept, so no id is handed out twice, and the surviving questions
     * keep their ids.
     */
    method RemoveQuestion(q: Question)
      requires Valid()
      requires q in questions
      modifies this
      ensures Valid()
      ensures name == old(name) && counter == old(counter) && issued == old(issued)
      ensures questions == RemoveAt(old(questions), FirstIndexOf(old(questions), q))
      ensures ToRecord().questions == RemoveAt(old(ToRecord().questions), FirstIndexOf(old(questions), q))
      ensures old(IdsFresh()) ==> IdsFresh()
    {
      var k := FirstIndexOf(questions, q);
      questions := RemoveAt(questions, k);
    }
  }

  /**
   * Deleting a question and then adding another: the new question's id is not the deleted
   * one's, because the counter was not wound back.
   */
  method RemovedIdNotReissued(subject: Subject, removed: Question, added: Question)
    requires subject.Valid() && subject.IdsFresh()
    requires removed in subject.questions && added !in subject.questions
    modifies subject, added
    ensures added.id != old(removed.id) && added.id == old(subject.counter) + 1
    ensures subject.IdsFresh()
  {
    subject.RemoveQuestion(removed);
    subject.AddQuestion(added);
  }

  // ---------------------------------------------------------------------------
  // Quiz sessions
  // ---------------------------------------------------------------------------

  /** `picks` names `length` distinct positions of a pool of size `n`. */
  predicate IsSample(picks: seq<int>, n: int, length: int)
  {
    && |picks| == length
    && (forall k :: 0 <= k < |picks| ==> 0 <= picks[k] < n)
    && (forall i, j :: 0 <= i < j < |picks| ==> picks[i] != picks[j])
  }

  /** random.sample, by position: `length` distinct positions of a pool of size `n`, in some order. */
  method Sample(n: nat, length: nat) returns (picks: seq<int>)
    requires length <= n
    ensures IsSample(picks, n, length)
  {
    ghost var firsts := seq(length, k requires 0 <= k < length => k);
    assert IsSample(firsts, n, length);
    picks :| IsSample(picks, n, length);
  }

  /** The number of answers marked correct. */
  function CountCorrect(answers: seq<QuizAnswer>): (n: nat)
    ensures n <= |answers|
    ensures n == |answers| <==> forall k :: 0 <= k < |answers| ==> answers[k].isCorrect
  {
    if answers == [] then 0
    else CountCorrect(answers[..|answers| - 1]) + (if answers[|answers| - 1].isCorrect then 1 else 0)
  }

  /** random.shuffle: some reordering of `s`, each element kept as often as it occurs. */
  method Shuffle<T(==)>(s: seq<T>) returns (r: seq<T>)
    ensures multiset(r) == multiset(s)
  {
    r :| multiset(r) == multiset(s);
  }

  /** The options offered for a question: the strings of the (index, option) pairs. */
  function Options(selections: seq<(int, string)>): seq<string>
  {
    seq(|selections|, k requires 0 <= k < |selections| => selections[k].1)
  }

  /** Python's `zip`: pairs up positions, as many as the shorter list has. */
  function Zip<A, B>(a: seq<A>, b: seq<B>): seq<(A, B)>
  {
    var n := if |a| <= |b| then |a| else |b|;
    seq(n, k requires 0 <= k < n => (a[k], b[k]))
  }

  /**
   * Numbering a list of options and reading the options back gives the list unchanged;
   * each pair carries the number at its own position.
   */
  lemma OptionsOfZip(numbers: seq<int>, options: seq<string>)
    requires |numbers| == |options|
    ensures |Zip(numbers, options)| == |options|
    ensures forall k :: 0 <= k < |options| ==> Zip(numbers, options)[k].0 == numbers[k]
    ensures Options(Zip(numbers, options)) == options
  {
  }

  class QuizSession {
    var subject: Subject
    var correct: int
    var length: int
    var questions: seq<Question>
    var current: int
    var startTime: Timestamp
    var answers: seq<QuizAnswer>
    var endTime: Option<Timestamp>
    /** The subject's question list when the session was drawn. */
    ghost var pool: seq<Question>
    /** The positions of `pool` the session drew, in serving order. */
    ghost var picks: seq<int>

    ghost predicate Valid()
      reads this
    {
      && 0 <= correct <= current == |answers| <= length == |questions|
      && correct == CountCorrect(answers)
      && IsSample(picks, |pool|, length)
      && (forall k :: 0 <= k < |questions| ==> questions[k] == pool[picks[k]])
    }

    /**
     * Draws `length` questions from distinct positions of the subject's list (random.sample,
     * modelled as an arbitrary choice) and starts with nothing answered.
     */
    constructor (subject: Subject, length: int, now: Timestamp)
      requires 0 <= length <= |subject.questions|
      ensures Valid()
      ensures this.subject == subject && this.length == length && pool == subject.questions
      ensures current == 0 && correct == 0 && answers == []
      ensures startTime == now && endTime == None
    {
      var all := subject.questions;
      var chosen := Sample(|all|, length);
      this.subject := subject;
      this.correct := 0;
      this.length := length;
      this.questions := seq(length, k requires 0 <= k < length => all[chosen[k]]);
      this.current := 0;
      this.startTime := now;
      this.answers := [];
      this.endTime := None;
      this.pool := subject.questions;
      this.picks := chosen;
    }

    /**
     * Builds a session, or gives null where random.sample raises ValueError: a length that
     * is negative or larger than the subject's question list.
     */
    static method Start(subject: Subject, length: int, now: Timestamp) returns (s: QuizSession?)
      ensures s == null <==> !(0 <= length <= |subject.questions|)
      ensures s != null ==> fresh(s) && s.Valid() && s.subject == subject && s.length == length
      ensures s != null ==> s.pool == subject.questions && |s.questions| == length
      ensures s != null ==> s.current == 0 && s.correct == 0 && s.answers == [] && s.startTime == now && s.endTime == None
    {
      if 0 <= length <= |subject.questions| {
        s := new QuizSession(subject, length, now);
      } else {
        s := null;
      }
    }

    /** The question at the cursor: the one drawn from the pool for this turn. */
    function PrepareQuestion(): (q: Question)
      reads this
      requires 0 <= current < |questions|
      ensures Valid() ==> q == pool[picks[current]] && q in pool
    {
      questions[current]
    }

    /**
     * The numbered options for `question`: its choices and its answer in some order
     * (random.shuffle, modelled as an arbitrary permutation), numbered from 1.
     */
    method PrepareSelections(question: Question) returns (selections: seq<(int, string)>)
      ensures |selections| == |question.choices| + 1
      ensures forall k :: 0 <= k < |selections| ==> selections[k].0 == k + 1
      ensures multiset(Options(selections)) == multiset(question.choices + [question.answer])
    {
      var mc: seq<string> := [];
      for i := 0 to |question.choices|
        invariant mc == question.choices[..i]
      {
        mc := mc + [question.choices[i]];
      }
      assert question.choices[..|question.choices|] == question.choices;
      mc := mc + [question.answer];
      var shuffled := Shuffle(mc);
      assert |shuffled| == |multiset(shuffled)| == |mc|;
      var opts: seq<int> := [];
      for i := 1 to |shuffled| + 1
        invariant |opts| == i - 1
        invariant forall k :: 0 <= k < |opts| ==> opts[k] == k + 1
      {
        opts := opts + [i];
      }
      selections := Zip(opts, shuffled);
      OptionsOfZip(opts, shuffled);
    }

    /**
     * Scores `answer` against the current question by exact string equality, records a
     * snapshot of the question's id and text, and moves the cursor on.
     */
    method AnswerCurrent(answer: string) returns (result: bool)
      requires Valid()
      requires current < |questions|
      modifies this
      ensures Valid()
      ensures var q := old(questions[current]);
              && result == (q.answer == answer)
              && answers == old(answers) + [QuizAnswer(q.id, q.text, answer, result)]
      ensures correct == old(correct) + (if result then 1 else 0)
      ensures current == old(current) + 1
      ensures subject == old(subject) && length == old(length) && questions == old(questions)
      ensures startTime == old(startTime) && endTime == old(endTime)
      ensures pool == old(pool) && picks == old(picks)
    {
      var question := questions[current];
      if question.answer == answer {
        correct := correct + 1;
        result := true;
      } else {
        result := false;
      }
      current := current + 1;
      var qa := QuizAnswer(question.id, question.text, answer, result);
      assert (answers + [qa])[..|answers|] == answers;
      answers := answers + [qa];
    }

    /** The session is over exactly when every drawn question has been answered. */
    function IsFinished(): (r: bool)
      reads this
      ensures Valid() ==> (r <==> |answers| == |questions|)
      ensures Valid() ==> (!r <==> current < |questions|)
    {
      current == length
    }

    /** Records the end time; nothing checks that the session is finished. */
    method Finish(now: Timestamp)
      modifies this
      ensures endTime == Some(now)
      ensures subject == old(subject) && correct == old(correct) && length == old(length)
      ensures questions == old(questions) && current == old(current) && answers == old(answers)
      ensures startTime == old(startTime) && pool == old(pool) && picks == old(picks)
    {
      endTime := Some(now);
    }
  }

  // ---------------------------------------------------------------------------
  // Progress
  // ---------------------------------------------------------------------------

  /** Quiz ids are 1, 2, ..., n in list order. */
  ghost predicate DenseIds(quizzes: seq<QuizRecord>)
  {
    forall k :: 0 <= k < |quizzes| ==> quizzes[k].id == k + 1
  }

  class Progress {
    var subjectName: string
    var quizzes: seq<QuizRecord>

    function ToRecord(): ProgressRecord
      reads this
    {
      ProgressRecord(subjectName, quizzes)
    }

    /** A progress history with its own list of quizzes. */
    constructor (subjectName: string, quizzes: seq<QuizRecord>)
      ensures ToRecord() == ProgressRecord(subjectName, quizzes)
    {
      this.subjectName := subjectName;
      this.quizzes := quizzes;
    }

    /**
     * Appends the record of a finished quiz with the next id. Earlier records are left as
     * they were, so ids 1..n stay 1..n+1.
     */
    method AddQuiz(quiz: QuizSession)
      requires quiz.endTime.Some?
      modifies this
      ensures subjectName == old(subjectName)
      ensures quizzes == old(quizzes) + [QuizRecord(|old(quizzes)| + 1, quiz.answers, quiz.correct,
                                                    quiz.length, quiz.startTime, quiz.endTime.value)]
      ensures DenseIds(old(quizzes)) ==> DenseIds(quizzes)
    {
      var qz := QuizRecord(|quizzes| + 1, quiz.answers, quiz.correct, quiz.length,
                           quiz.startTime, quiz.endTime.value);
      quizzes := quizzes + [qz];
    }
  }
}
