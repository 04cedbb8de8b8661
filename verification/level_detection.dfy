/** `gui/level_detection_screen.py`: the level test. Like the quiz screen
    it grades one confirmed answer per step, but it takes the question list
    unchecked, emits the raw number of right answers, and keeps its state
    after the last question. */
module LevelDetection {
  import opened Values
  import opened Questions

  datatype Test = Test(questions: seq<Json>, current: nat, correct: nat)

  predicate InProgress(t: Test) {
    t.correct <= t.current <= |t.questions|
  }

  /** What `start_test` leaves on screen. */
  datatype Display = ShowsQuestion | ShowsLoadError | RaisesOnDisplay

  /** `start_test`: installs the list with both counters at zero, then
      shows the first question, or the loading error for an empty list.
      Building the view of a record that is not displayable raises, after
      the state is installed. */
  function StartTest(questions: seq<Json>): (r: (Test, Display))
    ensures r.0 == Test(questions, 0, 0) && InProgress(r.0)
    ensures r.1 == ShowsLoadError <==> |questions| == 0
    ensures r.1 == ShowsQuestion <==> |questions| > 0 && Displayable(questions[0])
  {
    (Test(questions, 0, 0),
     if |questions| == 0 then ShowsLoadError
     else if Displayable(questions[0]) then ShowsQuestion
     else RaisesOnDisplay)
  }

  /** `reset_screen`. */
  function ResetScreen(t: Test): (r: Test)
    ensures r.questions == [] && r.current == 0 && r.correct == 0
  {
    Test([], 0, 0)
  }

  datatype Event =
    | NoSelection
    | Fault
    | Answered(correct: bool)
    | Finished(correct: bool, score: nat)

  /** `_on_next`: grades the choice and advances the cursor by one; on the
      last question it emits the raw score and leaves the state as it is. */
  function OnNext(t: Test, selected: Option<string>): (r: (Test, Event))
    ensures selected.None? ==> r == (t, NoSelection)
    ensures r.1 == NoSelection <==> selected.None?
    ensures r.1 == Fault <==> selected.Some? && AnswerAt(t.questions, t.current).None?
    ensures r.1 == Fault ==> r.0 == t
    ensures (r.1.Answered? || r.1.Finished?) ==>
              (r.1.correct <==> AnswerAt(t.questions, t.current) == Some(JStr(selected.value)))
              && r.0 == Test(t.questions, t.current + 1, t.correct + (if r.1.correct then 1 else 0))
    ensures r.1.Answered? <==> r.1 !in {NoSelection, Fault} && t.current + 1 < |t.questions|
    ensures r.1.Finished? ==> t.current + 1 == |t.questions| && r.1.score == r.0.correct
    ensures InProgress(t) ==> InProgress(r.0)
    ensures InProgress(t) && r.1.Finished? ==> r.1.score <= |t.questions|
  {
    match GradeChoice(t.questions, t.current, selected)
    case Unselected => (t, NoSelection)
    case Unanswerable => (t, Fault)
    case Graded(ok) =>
      var next := Test(t.questions, t.current + 1, t.correct + (if ok then 1 else 0));
      if next.current < |t.questions| then (next, Answered(ok))
      else (next, Finished(ok, next.correct))
  }

  /** Once the test is complete, further clicks change nothing: the cursor
      is past the last question. */
  lemma CompletedTestIsInert(t: Test, selected: Option<string>)
    requires t.current == |t.questions|
    ensures OnNext(t, selected).0 == t
    ensures OnNext(t, selected).1 in {NoSelection, Fault}
  {
  }

  /** Confirming `picks` one after another; the event of the last step. */
  function Play(t: Test, picks: seq<string>): (Test, Option<Event>) {
    if picks == [] then (t, None)
    else
      var (prev, _) := Play(t, picks[..|picks| - 1]);
      var (next, e) := OnNext(prev, Some(picks[|picks| - 1]));
      (next, Some(e))
  }

  /** After any number of answers the cursor counts them and the score is
      the reference count of right answers. */
  lemma {:induction false} PlayCounts(qs: seq<Json>, picks: seq<string>)
    requires AllAnswerable(qs) && |picks| <= |qs|
    ensures Play(StartTest(qs).0, picks).0 == Test(qs, |picks|, CountCorrect(qs, picks))
  {
    if picks != [] {
      var init := picks[..|picks| - 1];
      PlayCounts(qs, init);
    }
  }

  /** Answering every question emits the number of right answers. */
  lemma {:induction false} PlayWholeTest(qs: seq<Json>, picks: seq<string>)
    requires AllAnswerable(qs) && |qs| > 0 && |picks| == |qs|
    ensures Play(StartTest(qs).0, picks).1 ==
              Some(Finished(PickCorrect(qs, picks, |picks| - 1), CountCorrect(qs, picks)))
  {
    PlayCounts(qs, picks[..|picks| - 1]);
  }
}
