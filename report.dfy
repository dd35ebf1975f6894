/** The parts of `create_pdf_report` in app.py that compute something: the
    score printed on the report card and the default file name. The PDF
    layout itself is not modelled. */
module Report {
  import opened Wrappers
  import opened Text
  import opened McqParser
  import opened Grading

  /** `sum(1 for a in answers if a.get('is_correct', False))`. */
  function CorrectCount(answers: seq<AnswerRecord>): (n: nat)
    ensures n <= |answers|
    ensures n == |answers| <==> forall i :: 0 <= i < |answers| ==> answers[i].isCorrect
    ensures n == 0 <==> forall i :: 0 <= i < |answers| ==> !answers[i].isCorrect
    decreases |answers|
  {
    if answers == [] then 0
    else (if answers[0].isCorrect then 1 else 0) + CorrectCount(answers[1..])
  }

  /** The count of one list of answers followed by another is the sum of
      their counts. */
  lemma {:induction false} CorrectCountAppend(a: seq<AnswerRecord>, b: seq<AnswerRecord>)
    ensures CorrectCount(a + b) == CorrectCount(a) + CorrectCount(b)
    decreases |a|
  {
    if a == [] {
      assert a + b == b;
    } else {
      CorrectCountAppend(a[1..], b);
      assert (a + b)[0] == a[0];
      assert (a + b)[1..] == a[1..] + b;
    }
  }

  /** What the report card's summary line shows. */
  datatype Score = Score(total: nat, correct: nat)

  /** `total_questions` and `correct_count`. */
  function ScoreOf(answers: seq<AnswerRecord>): (s: Score)
    ensures s.total == |answers| && s.correct == CorrectCount(answers)
    ensures s.correct <= s.total
  {
    Score(|answers|, CorrectCount(answers))
  }

  /** A submitted page scores full marks exactly when every radio choice is
      the question's correct answer (and not the placeholder), and scores
      zero exactly when none is. */
  lemma PageScore(questions: seq<Mcq>, chosen: seq<string>)
    requires |chosen| == |questions|
    ensures var s := ScoreOf(GradeAll(questions, chosen));
      s.total == |questions| &&
      (s.correct == s.total <==> forall i :: 0 <= i < |questions| ==>
        chosen[i] != PLACEHOLDER && chosen[i] == questions[i].answer) &&
      (s.correct == 0 <==> forall i :: 0 <= i < |questions| ==>
        chosen[i] == PLACEHOLDER || chosen[i] != questions[i].answer)
  {
    var rs := GradeAll(questions, chosen);
    assert forall i :: 0 <= i < |rs| ==> rs[i] == Grade(questions[i], chosen[i]);
  }

  const DEFAULT_NAME: string := "candidate"
  const REPORT_SUFFIX: string := "_report.pdf"

  /** `name.replace(" ", "_").lower()`. */
  function CleanName(name: string): (r: string)
    ensures |r| == |name|
    ensures forall i :: 0 <= i < |name| ==>
      r[i] == if name[i] == ' ' then '_' else LowerChar(name[i])
  {
    Lower(ReplaceChar(name, ' ', '_'))
  }

  /** The cleaned name keeps the length of the name, has no spaces and no
      upper-case ASCII letters, and cleaning it again changes nothing. */
  lemma CleanNameShape(name: string)
    ensures |CleanName(name)| == |name|
    ensures ' ' !in CleanName(name)
    ensures forall i :: 0 <= i < |name| ==> !('A' <= CleanName(name)[i] <= 'Z')
    ensures CleanName(CleanName(name)) == CleanName(name)
  {
  }

  /** The file name of the report: the one given, or else the cleaned user
      name (`candidate` when the user information has no name) followed by
      `_report.pdf`. */
  function ReportFileName(name: Option<string>, filename: Option<string>): (r: string)
    ensures filename.Some? ==> r == filename.value
    ensures filename.None? ==>
      |r| == |name.GetOr(DEFAULT_NAME)| + |REPORT_SUFFIX| &&
      r[|r| - |REPORT_SUFFIX|..] == REPORT_SUFFIX &&
      r[..|r| - |REPORT_SUFFIX|] == CleanName(name.GetOr(DEFAULT_NAME))
  {
    var cleaned := CleanName(name.GetOr(DEFAULT_NAME));
    if filename.None? then cleaned + REPORT_SUFFIX else filename.value
  }
}
