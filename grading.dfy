/** The answering page of app.py, without its widgets: each parsed question is
    offered as a radio group whose first entry is a placeholder, the choice is
    recorded in the session's `user_selections`, and an answer record is built
    for the submission. The user's choice for each question is an input. */
module Grading {
  import opened Wrappers
  import opened McqParser

  /** The dummy first entry of every radio group. */
  const PLACEHOLDER: string := "-- Select an option --"

  /** One entry of `current_answers`: the dictionary with the keys `question`,
      `options`, `user_answer`, `correct_answer` and `is_correct`. */
  datatype AnswerRecord = AnswerRecord(
    question: string,
    options: seq<string>,
    userAnswer: Option<string>,
    correctAnswer: string,
    isCorrect: bool)

  /** `options_for_radio`: the placeholder followed by the question's options. */
  function RadioChoices(m: Mcq): (r: seq<string>)
    ensures |r| == |m.options| + 1 && r[0] == PLACEHOLDER
    ensures forall i :: 0 <= i < |m.options| ==> r[i + 1] == m.options[i]
  {
    [PLACEHOLDER] + m.options
  }

  /** `options_for_radio.index(current)`, or 0 when `current` is not in the
      list; `None` is never in it, since every entry is a string. */
  function DefaultIndex(choices: seq<string>, current: Option<string>): (r: nat)
    ensures choices != [] ==> r < |choices|
    ensures current.Some? && current.value in choices ==>
      choices[r] == current.value && forall j :: 0 <= j < r ==> choices[j] != current.value
    ensures (current.None? || current.value !in choices) ==> r == 0
  {
    if current.None? then 0 else FirstIndex(choices, current.value)
  }

  /** The position of the first `x` in `xs`, or 0 when there is none. */
  function FirstIndex(xs: seq<string>, x: string): (r: nat)
    ensures xs != [] ==> r < |xs|
    ensures x in xs ==> xs[r] == x && forall j :: 0 <= j < r ==> xs[j] != x
    ensures x !in xs ==> r == 0
    decreases |xs|
  {
    if xs == [] || xs[0] == x then 0
    else
      var k := FirstIndex(xs[1..], x);
      if x in xs[1..] then k + 1 else 0
  }

  /** When the page is drawn again, each radio group opens on the choice
      stored for it, so a stored answer survives a rerun; a group with no
      stored answer opens on the placeholder. */
  lemma DefaultIndexReopens(m: Mcq, selected: string)
    ensures var choices := RadioChoices(m);
      choices[DefaultIndex(choices, Stored(selected))] ==
        if selected in choices then selected else PLACEHOLDER
  {
  }

  /** The value stored in `user_selections[i]` for a radio choice. */
  function Stored(selected: string): (r: Option<string>)
    ensures r.None? <==> selected == PLACEHOLDER
    ensures r.Some? ==> r.value == selected
  {
    if selected != PLACEHOLDER then Some(selected) else None
  }

  /** A record says the answer is correct exactly when an answer was given
      and it is the correct answer's text. */
  predicate Consistent(r: AnswerRecord) {
    r.isCorrect <==> r.userAnswer == Some(r.correctAnswer)
  }

  /** The record built for question `m` when `selected` is chosen. */
  function Grade(m: Mcq, selected: string): (r: AnswerRecord)
    ensures r.question == m.question && r.options == m.options && r.correctAnswer == m.answer
    ensures r.userAnswer.None? <==> selected == PLACEHOLDER
    ensures r.userAnswer.Some? ==> r.userAnswer.value == selected
    ensures r.isCorrect <==> selected != PLACEHOLDER && selected == m.answer
    ensures Consistent(r)
  {
    var isCorrect := selected == m.answer;
    AnswerRecord(
      m.question,
      m.options,
      Stored(selected),
      m.answer,
      if selected != PLACEHOLDER then isCorrect else false)
  }

  /** The records of the whole page, question by question. */
  function GradeAll(questions: seq<Mcq>, chosen: seq<string>): (rs: seq<AnswerRecord>)
    requires |chosen| == |questions|
    ensures |rs| == |questions|
    ensures forall i :: 0 <= i < |rs| ==> rs[i] == Grade(questions[i], chosen[i])
  {
    seq(|questions|, i requires 0 <= i < |questions| => Grade(questions[i], chosen[i]))
  }

  /** The page's loop: builds `current_answers` and rewrites
      `user_selections`, after first resetting it to all `None` when its
      length does not match the questions. `chosen[i]` is what the radio
      group of question `i` returned. */
  method CollectAnswers(questions: seq<Mcq>, selections: seq<Option<string>>, chosen: seq<string>)
    returns (answers: seq<AnswerRecord>, selections': seq<Option<string>>)
    requires |chosen| == |questions|
    ensures answers == GradeAll(questions, chosen)
    ensures |selections'| == |questions|
    ensures forall i :: 0 <= i < |questions| ==> selections'[i] == answers[i].userAnswer
  {
    selections' := selections;
    if |selections'| != |questions| {
      selections' := seq(|questions|, _ => None);
    }
    answers := [];
    for i := 0 to |questions|
      invariant |selections'| == |questions|
      invariant answers == GradeAll(questions[..i], chosen[..i])
      invariant forall j :: 0 <= j < i ==> selections'[j] == Stored(chosen[j])
    {
      var m := questions[i];
      var selected := chosen[i];
      if selected != PLACEHOLDER {
        selections' := selections'[i := Some(selected)];
      } else {
        selections' := selections'[i := None];
      }
      var isCorrect := selected == m.answer;
      answers := answers + [AnswerRecord(
        m.question,
        m.options,
        if selected != PLACEHOLDER then Some(selected) else None,
        m.answer,
        if selected != PLACEHOLDER then isCorrect else false)];
    }
    assert questions[..|questions|] == questions;
    assert chosen[..|chosen|] == chosen;
  }

  /** The test behind the submit button: `any(ans["user_answer"] is None ...)`
      refuses the submission. */
  function CanSubmit(answers: seq<AnswerRecord>): (r: bool)
    ensures r <==> forall i :: 0 <= i < |answers| ==> answers[i].userAnswer.Some?
    decreases |answers|
  {
    if answers == [] then true
    else answers[0].userAnswer.Some? && CanSubmit(answers[1..])
  }

  /** A page can be submitted exactly when no radio group is left on the
      placeholder. */
  lemma SubmitIffAllChosen(questions: seq<Mcq>, chosen: seq<string>)
    requires |chosen| == |questions|
    ensures CanSubmit(GradeAll(questions, chosen)) <==>
      forall i :: 0 <= i < |chosen| ==> chosen[i] != PLACEHOLDER
  {
  }

  /** For a parsed question whose answer text is not the placeholder's, the
      radio group offers a choice graded correct: the correct option itself. */
  lemma CorrectChoiceOffered(m: Mcq)
    requires WellFormed(m) && m.answer != PLACEHOLDER
    ensures exists c :: c in RadioChoices(m) && Grade(m, c).isCorrect
  {
    var i :| 0 <= i < 4 && i < |m.options| && m.answer == m.options[i];
    var choices := RadioChoices(m);
    assert choices[i + 1] == m.answer;
    assert m.answer in choices;
    assert Grade(m, m.answer).isCorrect;
  }

  /** An option whose text is the placeholder's can never be answered: the
      choice is recorded as no answer, so a question whose correct answer is
      that text is never graded correct. */
  lemma PlaceholderAnswerNeverCorrect(m: Mcq, selected: string)
    requires m.answer == PLACEHOLDER
    ensures !Grade(m, selected).isCorrect
  {
  }
}
