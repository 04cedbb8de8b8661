/** What the quiz screen, the level-test screen and the quiz dialog share:
    a list of question records (decoded JSON), a cursor into it, and the
    grading of the option a user confirmed. The Qt button group is
    abstracted as the text of the checked option, if any. */
module Questions {
  import opened Values

  /** `questions[current]["answer"]`, or `None` where Python raises
      (cursor past the end, record not a dict, no "answer" key). */
  function AnswerAt(qs: seq<Json>, current: nat): (r: Option<Json>)
    ensures r.Some? <==> current < |qs| && Field(qs[current], "answer").Some?
  {
    if current < |qs| then Field(qs[current], "answer") else None
  }

  /** A value `QLabel` or `QPushButton` takes as its text: a string, or
      `None`, which selects the constructor without text. */
  predicate TextOrNone(v: Json) {
    v.JStr? || v.JNull?
  }

  /** Values `for opt in ...` can build one button per item from: a string
      (one button per character), a dict (one per key), or a list of texts. */
  predicate ButtonSource(o: Json) {
    o.JStr? || o.JObj? || (o.JList? && forall i :: 0 <= i < |o.items| ==> TextOrNone(o.items[i]))
  }

  /** A record the question view can be built from: subscripting "question"
      and "options" succeeds and both widget constructors accept what they
      get. Any other record raises while the view is being built. */
  predicate Displayable(q: Json) {
    && q.JObj?
    && "question" in q.fields && TextOrNone(q.fields["question"])
    && "options" in q.fields && ButtonSource(q.fields["options"])
  }

  /** Every record can be graded. */
  predicate AllAnswerable(qs: seq<Json>) {
    forall i :: 0 <= i < |qs| ==> Field(qs[i], "answer").Some?
  }

  /** The outcome of confirming a choice on question `current`. */
  datatype Grade = Unselected | Unanswerable | Graded(correct: bool)

  /** The check every `_on_next` makes before moving: no checked option
      means nothing to grade; a record that cannot be read stops the
      handler; otherwise the choice is right iff its text equals the
      stored answer exactly. */
  function GradeChoice(qs: seq<Json>, current: nat, selected: Option<string>): (g: Grade)
    ensures g == Unselected <==> selected.None?
    ensures g == Unanswerable <==> selected.Some? && AnswerAt(qs, current).None?
    ensures g.Graded? ==> (g.correct <==> AnswerAt(qs, current) == Some(JStr(selected.value)))
  {
    if selected.None? then Unselected
    else
      match AnswerAt(qs, current)
      case None => Unanswerable
      case Some(a) => Graded(a == JStr(selected.value))
  }

  /** Whether pick `i` answers question `i` exactly. */
  predicate PickCorrect(qs: seq<Json>, picks: seq<string>, i: nat)
    requires i < |picks|
  {
    AnswerAt(qs, i) == Some(JStr(picks[i]))
  }

  /** How many of `picks` match the answers of the questions at the same
      positions: the reference score of a session. */
  function CountCorrect(qs: seq<Json>, picks: seq<string>): (n: nat)
    ensures n <= |picks|
  {
    if picks == [] then 0
    else CountCorrect(qs, picks[..|picks| - 1])
         + (if PickCorrect(qs, picks, |picks| - 1) then 1 else 0)
  }
}
