/** `gui/quiz_screen.py`: a quiz session with structural validation of the
    question list, one step per confirmed answer, and 10 EXP per correct
    answer emitted when the last question is answered. */
module QuizScreen {
  import opened Values
  import opened Questions

  datatype Screen = Screen(questions: seq<Json>, current: nat, correct: nat)

  /** The counters of a session in progress. */
  predicate InProgress(s: Screen) {
    s.correct <= s.current <= |s.questions|
  }

  // ---------------------------------------------------------------------
  // Validation

  /** Why `_validate_quiz_data` rejects a record, in the order it checks. */
  datatype Defect = NotADict | MissingText | BadOptions | MissingAnswer | AnswerNotAnOption

  /** The `ValueError` raised: no questions, or the 1-based number of the
      first bad question and what is wrong with it. */
  datatype QuizError = NoQuestions | BadQuestion(number: nat, defect: Defect)

  /** A usable question: a dict with "question", a non-empty "options"
      list, and an "answer" equal to one of the options. */
  predicate WellFormed(q: Json) {
    && q.JObj?
    && "question" in q.fields
    && "options" in q.fields
    && q.fields["options"].JList?
    && |q.fields["options"].items| > 0
    && "answer" in q.fields
    && q.fields["answer"] in q.fields["options"].items
  }

  /** The checks of one loop iteration of `_validate_quiz_data`, in order. */
  function ItemDefect(q: Json): (d: Option<Defect>)
    ensures d.None? <==> WellFormed(q)
  {
    if !q.JObj? then Some(NotADict)
    else if "question" !in q.fields then Some(MissingText)
    else if "options" !in q.fields || !q.fields["options"].JList?
            || |q.fields["options"].items| == 0 then Some(BadOptions)
    else if "answer" !in q.fields then Some(MissingAnswer)
    else if q.fields["answer"] !in q.fields["options"].items then Some(AnswerNotAnOption)
    else None
  }

  /** `_validate_quiz_data`: accepts a non-empty list whose every record is
      well formed; otherwise reports the first offending record. */
  method ValidateQuizData(qs: seq<Json>) returns (err: Option<QuizError>)
    ensures err.None? <==> |qs| > 0 && forall i :: 0 <= i < |qs| ==> WellFormed(qs[i])
    ensures err == Some(NoQuestions) <==> |qs| == 0
    ensures err.Some? && err.value.BadQuestion? ==>
              1 <= err.value.number <= |qs|
              && ItemDefect(qs[err.value.number - 1]) == Some(err.value.defect)
              && forall j :: 0 <= j < err.value.number - 1 ==> WellFormed(qs[j])
  {
    if |qs| == 0 {
      return Some(NoQuestions);
    }
    var i := 0;
    while i < |qs|
      invariant 0 <= i <= |qs|
      invariant forall j :: 0 <= j < i ==> WellFormed(qs[j])
    {
      var d := ItemDefect(qs[i]);
      if d.Some? {
        return Some(BadQuestion(i + 1, d.value));
      }
      i := i + 1;
    }
    return None;
  }

  // ---------------------------------------------------------------------
  // Session

  /** What `start_quiz` shows. `DisplayError` is the exception that
      escapes when the validated first record cannot be shown (validation
      does not look at the types of the question text or the options). */
  datatype StartOutcome = LoadError | FormatError(error: QuizError) | DisplayError | Started

  /** `start_quiz`: anything but a non-empty list is refused and nothing
      changes; otherwise the session is reset before validation, so a
      format error leaves the new questions loaded with zero counters. */
  method StartQuiz(s: Screen, data: Json) returns (s': Screen, out: StartOutcome)
    ensures out == LoadError <==> !(data.JList? && |data.items| > 0)
    ensures out == LoadError ==> s' == s
    ensures out != LoadError ==> s' == Screen(data.items, 0, 0) && InProgress(s')
    ensures out == Started <==> data.JList? && |data.items| > 0
                                && (forall i :: 0 <= i < |data.items| ==> WellFormed(data.items[i]))
                                && Displayable(data.items[0])
    ensures out == DisplayError <==> data.JList? && |data.items| > 0
                                     && (forall i :: 0 <= i < |data.items| ==> WellFormed(data.items[i]))
                                     && !Displayable(data.items[0])
    ensures out.FormatError? ==>
              out.error.BadQuestion?
              && 1 <= out.error.number <= |data.items|
              && ItemDefect(data.items[out.error.number - 1]) == Some(out.error.defect)
              && forall j :: 0 <= j < out.error.number - 1 ==> WellFormed(data.items[j])
  {
    if !data.JList? || |data.items| == 0 {
      return s, LoadError;
    }
    s' := Screen(data.items, 0, 0);
    var err := ValidateQuizData(data.items);
    if err.Some? {
      out := FormatError(err.value);
    } else if !Displayable(data.items[0]) {
      out := DisplayError;
    } else {
      out := Started;
    }
  }

  /** A validated record whose options are numbers passes validation but
      cannot be shown. */
  lemma NumericOptionsNotShown()
    ensures var q := JObj(map["question" := JStr("2 + 2"),
                              "options" := JList([JInt(4)]),
                              "answer" := JInt(4)]);
            WellFormed(q) && !Displayable(q)
  {
  }

  /** What `_on_next` reports. */
  datatype Event =
    | NoSelection
    | Fault
    | Answered(correct: bool)
    | Finished(correct: bool, exp: int)

  /** `_on_next`: grades the choice, advances the cursor by one, and on the
      last question emits 10 EXP per correct answer, clearing the question
      list and the cursor but not the correct-answer count. */
  function OnNext(s: Screen, selected: Option<string>): (r: (Screen, Event))
    ensures selected.None? ==> r == (s, NoSelection)
    ensures r.1 == NoSelection <==> selected.None?
    ensures r.1 == Fault <==> selected.Some? && AnswerAt(s.questions, s.current).None?
    ensures r.1 == Fault ==> r.0 == s
    ensures (r.1.Answered? || r.1.Finished?) ==>
              (r.1.correct <==> AnswerAt(s.questions, s.current) == Some(JStr(selected.value)))
              && r.0.correct == s.correct + (if r.1.correct then 1 else 0)
    ensures r.1.Answered? ==>
              r.0.questions == s.questions && r.0.current == s.current + 1 < |s.questions|
    ensures r.1.Finished? <==> r.1 !in {NoSelection, Fault} && s.current + 1 == |s.questions|
    ensures r.1.Finished? ==>
              s.current + 1 == |s.questions| && r.0.questions == [] && r.0.current == 0
              && r.1.exp == 10 * r.0.correct
    ensures InProgress(s) && r.1.Answered? ==> InProgress(r.0)
    ensures InProgress(s) && r.1.Finished? ==> r.0.correct <= |s.questions|
  {
    match GradeChoice(s.questions, s.current, selected)
    case Unselected => (s, NoSelection)
    case Unanswerable => (s, Fault)
    case Graded(ok) =>
      var correct := s.correct + (if ok then 1 else 0);
      var current := s.current + 1;
      if current < |s.questions| then (Screen(s.questions, current, correct), Answered(ok))
      else (Screen([], 0, correct), Finished(ok, correct * 10))
  }

  /** Confirming `picks` one after another; the event of the last step. */
  function Play(s: Screen, picks: seq<string>): (Screen, Option<Event>) {
    if picks == [] then (s, None)
    else
      var (prev, _) := Play(s, picks[..|picks| - 1]);
      var (next, e) := OnNext(prev, Some(picks[|picks| - 1]));
      (next, Some(e))
  }

  /** Before the last answer the session holds the question list, the number
      of answers given as cursor, and the reference count of right answers. */
  lemma {:induction false} PlayPrefix(qs: seq<Json>, picks: seq<string>)
    requires AllAnswerable(qs) && |picks| < |qs|
    ensures Play(Screen(qs, 0, 0), picks).0 == Screen(qs, |picks|, CountCorrect(qs, picks))
  {
    if picks != [] {
      var init := picks[..|picks| - 1];
      PlayPrefix(qs, init);
      assert init == picks[..|picks| - 1];
    }
  }

  /** Answering every question emits ten times the number of right answers. */
  lemma PlayWholeQuiz(qs: seq<Json>, picks: seq<string>)
    requires AllAnswerable(qs) && |qs| > 0 && |picks| == |qs|
    ensures Play(Screen(qs, 0, 0), picks).1.Some?
    ensures Play(Screen(qs, 0, 0), picks).1.value.Finished?
    ensures Play(Screen(qs, 0, 0), picks).1.value.exp == 10 * CountCorrect(qs, picks)
    ensures Play(Screen(qs, 0, 0), picks).0 == Screen([], 0, CountCorrect(qs, picks))
  {
    PlayPrefix(qs, picks[..|picks| - 1]);
  }

  /** After a quiz with at least one right answer the screen keeps the count
      with an empty question list, outside the in-progress bounds. */
  lemma StaleScoreAfterQuiz(s: Screen, pick: string)
    requires InProgress(s) && s.current + 1 == |s.questions|
    requires AnswerAt(s.questions, s.current) == Some(JStr(pick))
    ensures OnNext(s, Some(pick)).1 == Finished(true, 10 * (s.correct + 1))
    ensures !InProgress(OnNext(s, Some(pick)).0)
  {
  }

  /** A single option suffices when it is the answer. */
  lemma SingleOptionAccepted(text: string, option: string)
    ensures WellFormed(JObj(map["question" := JStr(text),
                                "options" := JList([JStr(option)]),
                                "answer" := JStr(option)]))
  {
  }
}
