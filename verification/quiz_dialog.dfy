/** `gui/quiz_dialog.py`: a modal quiz that shows right/wrong feedback per
    answer, keeps no score, and is accepted after the last question. */
module QuizDialog {
  import opened Values
  import opened Questions
  import LanguageProcessor

  datatype Dialog = Dialog(questions: seq<Json>, current: nat)

  /** The constructor: starts at the first question of whatever
      `quiz_data` it is handed (the decoded response, unchecked). Building
      that question raises unless the value is a non-empty list whose first
      record has a usable "question" and "options": indexing an empty list
      or string raises `IndexError`, a dict has no key `0` (`KeyError`),
      and a string's first character, a number, a Boolean or `None` cannot
      be subscripted as the record (`TypeError`). Then there is no dialog. */
  function Open(quizData: Json): (r: Option<Dialog>)
    ensures r.Some? <==> quizData.JList? && |quizData.items| > 0 && Displayable(quizData.items[0])
    ensures r.Some? ==> r.value.questions == quizData.items && r.value.current == 0
  {
    if quizData.JList? && |quizData.items| > 0 && Displayable(quizData.items[0])
    then Some(Dialog(quizData.items, 0))
    else None
  }

  /** A first record holding only an answer gives no dialog, and neither
      does a decoded value that is a single question dict instead of a list. */
  lemma AnswerOnlyRecordFails()
    ensures Open(JList([JObj(map["answer" := JStr("a")])])).None?
    ensures Open(JObj(map["question" := JStr("q"), "options" := JList([JStr("a")]),
                          "answer" := JStr("a")])).None?
  {
  }

  /** What `prepare_quiz_data` hands over decides whether a dialog opens:
      a decoded value that is not a list never does, and the one-record
      fallback opens but its record has no "answer", so confirming any
      option stops the handler. */
  lemma PreparedDataOpens(decoded: Json, pick: string)
    ensures !decoded.JList? ==> Open(LanguageProcessor.PrepareQuizData(Some(decoded))).None?
    ensures Open(LanguageProcessor.PrepareQuizData(None)).Some?
    ensures OnNext(Open(LanguageProcessor.PrepareQuizData(None)).value, Some(pick)).1 == Fault
  {
    assert LanguageProcessor.PrepareQuizData(None).items[0] == LanguageProcessor.FallbackQuestion;
  }

  datatype Event = NoSelection | Fault | Answered(correct: bool) | Accepted(correct: bool)

  /** `_on_next`: grades the choice for feedback only, advances the cursor
      by one whether or not it was right, and accepts the dialog when the
      cursor reaches the end of the list. */
  function OnNext(d: Dialog, selected: Option<string>): (r: (Dialog, Event))
    ensures selected.None? ==> r == (d, NoSelection)
    ensures r.1 == NoSelection <==> selected.None?
    ensures r.1 == Fault <==> selected.Some? && AnswerAt(d.questions, d.current).None?
    ensures r.1 == Fault ==> r.0 == d
    ensures (r.1.Answered? || r.1.Accepted?) ==>
              r.0 == Dialog(d.questions, d.current + 1)
              && (r.1.correct <==> AnswerAt(d.questions, d.current) == Some(JStr(selected.value)))
    ensures r.1.Accepted? <==> r.1 !in {NoSelection, Fault} && r.0.current == |d.questions|
  {
    match GradeChoice(d.questions, d.current, selected)
    case Unselected => (d, NoSelection)
    case Unanswerable => (d, Fault)
    case Graded(ok) =>
      var next := Dialog(d.questions, d.current + 1);
      if next.current < |d.questions| then (next, Answered(ok)) else (next, Accepted(ok))
  }

  /** Confirming `picks` one after another; the event of the last step. */
  function Play(d: Dialog, picks: seq<string>): (Dialog, Option<Event>) {
    if picks == [] then (d, None)
    else
      var (prev, _) := Play(d, picks[..|picks| - 1]);
      var (next, e) := OnNext(prev, Some(picks[|picks| - 1]));
      (next, Some(e))
  }

  /** Any answers, right or wrong, move the cursor one question each. */
  lemma {:induction false} PlayAdvances(qs: seq<Json>, picks: seq<string>)
    requires AllAnswerable(qs) && 0 < |qs| && Displayable(qs[0]) && |picks| <= |qs|
    ensures Play(Open(JList(qs)).value, picks).0 == Dialog(qs, |picks|)
    ensures 0 < |picks| ==> (Play(Open(JList(qs)).value, picks).1.value.Accepted? <==> |picks| == |qs|)
  {
    if picks != [] {
      PlayAdvances(qs, picks[..|picks| - 1]);
    }
  }
}
