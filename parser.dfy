/** `parse_mcqs` in app.py: a line-by-line state machine that turns the
    question generator's free text into (question, options, correct answer)
    triples. The text arrives already split into lines. The specification is
    the fold `Run` over the lines; `ParseMcqs` is the loop that `parse_mcqs`
    in app.py runs, and it is proved equal to that fold. */
module McqParser {
  import opened Wrappers
  import opened Text
  import opened Seqs

  /** One accepted question: its text, its option texts and the text of the
      option the answer letter picked. */
  datatype Mcq = Mcq(question: string, options: seq<string>, answer: string)

  /** The question being assembled: the variables `q` and `opts`. Python's
      `q = None` is the empty string here, since `if q` rejects both alike. */
  datatype Pending = Pending(question: string, options: seq<string>)

  const IDLE: Pending := Pending("", [])

  /** The whole state of the loop: the question being assembled and the list
      `questions` accepted so far. */
  datatype Machine = Machine(pending: Pending, questions: seq<Mcq>)

  const START: Machine := Machine(IDLE, [])

  /** What one stripped line means to the parser. */
  datatype Line =
    | QuestionLine(text: string)
    | OptionsLine(options: seq<string>)
    | AnswerLine(index: Option<nat>)
    | OtherLine

  const QUESTION_TAG: string := "Q:"
  const OPTIONS_TAG: string := "Options:"
  const ANSWER_TAG: string := "Answer:"

  /** The answer letters, in the order of the option they name. */
  const LETTERS: string := "ABCD"

  /** The lookup `{"A": 0, "B": 1, "C": 2, "D": 3}.get(letter, None)`. */
  function AnswerIndex(letter: string): (r: Option<nat>)
    ensures r.Some? <==> |letter| == 1 && 'A' <= letter[0] <= 'D'
    ensures r.Some? ==> r.value < 4 && letter == [LETTERS[r.value]]
  {
    if letter == "A" then Some(0)
    else if letter == "B" then Some(1)
    else if letter == "C" then Some(2)
    else if letter == "D" then Some(3)
    else None
  }

  /** `line.split(":")[-1].strip().upper()`. */
  function AnswerLetter(line: string): (r: string)
    ensures |r| == |Strip(LastField(line, ':'))|
    ensures ':' !in r
    ensures forall i :: 0 <= i < |r| ==> !('a' <= r[i] <= 'z')
  {
    var field := LastField(line, ':');
    StripKeepsOut(field, ':');
    UpperKeepsOut(Strip(field), ':');
    Upper(Strip(field))
  }

  /** The answer letter is read case-insensitively from the text after the
      last colon: it is accepted exactly when that text, stripped, is one of
      the letters A to D in either case. */
  lemma AnswerLetterAccepted(line: string)
    ensures var t := Strip(LastField(line, ':'));
      AnswerIndex(AnswerLetter(line)).Some? <==>
      |t| == 1 && ('A' <= t[0] <= 'D' || 'a' <= t[0] <= 'd')
  {
    var t := Strip(LastField(line, ':'));
    if |t| == 1 {
      UpperLetter(t[0]);
      assert AnswerLetter(line)[0] == UpperChar(t[0]);
    }
  }

  /** The upper case of a character is one of `A` to `D` exactly when the
      character is one of them in either case. */
  lemma UpperLetter(c: char)
    ensures 'A' <= UpperChar(c) <= 'D' <==> 'A' <= c <= 'D' || 'a' <= c <= 'd'
  {
  }

  /** What one piece contributes to `[o.strip() for o in parts if o.strip()]`. */
  function NonBlank(part: string): (r: seq<string>)
    ensures |r| <= 1 && forall j :: 0 <= j < |r| ==> r[j] != [] && Trimmed(r[j])
  {
    var o := Strip(part);
    if o != [] then [o] else []
  }

  /** `[o.strip() for o in parts if o.strip()]`. */
  function NonBlankStripped(parts: seq<string>): (r: seq<string>)
    ensures |r| <= |parts|
    ensures forall i :: 0 <= i < |r| ==> r[i] != [] && Trimmed(r[i])
  {
    FlatMapLength(NonBlank, parts);
    FlatMapElements(NonBlank, parts, o => o != [] && Trimmed(o));
    FlatMap(NonBlank, parts)
  }

  /** A character a part does not contain is not in what it contributes. */
  lemma NonBlankPartKeepsOut(part: string, c: char)
    requires c !in part
    ensures forall j :: 0 <= j < |NonBlank(part)| ==> c !in NonBlank(part)[j]
  {
    StripKeepsOut(part, c);
  }

  /** A character no part contains is in none of the kept pieces. */
  lemma NonBlankKeepsOut(parts: seq<string>, c: char)
    requires forall i :: 0 <= i < |parts| ==> c !in parts[i]
    ensures forall i :: 0 <= i < |NonBlankStripped(parts)| ==> c !in NonBlankStripped(parts)[i]
  {
    forall i | 0 <= i < |parts|
      ensures forall j :: 0 <= j < |NonBlank(parts[i])| ==> c !in NonBlank(parts[i])[j]
    {
      NonBlankPartKeepsOut(parts[i], c);
    }
    FlatMapElements(NonBlank, parts, o => c !in o);
  }

  /** The option text one `[`-segment contributes: the stripped text after its
      first `]`, or nothing when it has no `]`. */
  function OptionText(item: string): (r: seq<string>)
    ensures |r| <= 1 && forall j :: 0 <= j < |r| ==> Trimmed(r[j])
    ensures r == [] <==> ']' !in item
  {
    if ']' in item then [Strip(AfterFirst(item, ']'))] else []
  }

  /** The inner loop's result: the option texts of the segments, in order. */
  function OptionTexts(items: seq<string>): (r: seq<string>)
    ensures |r| <= |items|
    ensures forall i :: 0 <= i < |r| ==> Trimmed(r[i])
  {
    FlatMapLength(OptionText, items);
    FlatMapElements(OptionText, items, Trimmed);
    FlatMap(OptionText, items)
  }

  /** The segments `temp_opts` of an `Options:` line: the stripped, non-blank
      pieces of the text after the tag, split on `[`. There are at most one
      more of them than the line has `[` characters, and none contains one. */
  function OptionSegments(line: string): (r: seq<string>)
    ensures |r| <= Count(line, '[') + 1
    ensures forall i :: 0 <= i < |r| ==> r[i] != [] && Trimmed(r[i]) && '[' !in r[i]
  {
    var parts := Split(Strip(Drop(line, |OPTIONS_TAG|)), '[');
    OptionsBodyCount(line);
    NonBlankKeepsOut(parts, '[');
    NonBlankStripped(parts)
  }

  /** The options an `Options:` line yields. Each comes from its own
      `[`-segment, so there is at most one more option than there are `[`
      characters (the text before the first `[` is a segment too), and every
      option is already stripped. */
  function OptionsOf(line: string): (r: seq<string>)
    ensures |r| <= Count(line, '[') + 1
    ensures forall i :: 0 <= i < |r| ==> Trimmed(r[i])
  {
    OptionsBodyCount(line);
    OptionTexts(OptionSegments(line))
  }

  /** The three tags begin with different letters, so a line carries at most one. */
  lemma TagInitials(line: string)
    ensures StartsWith(line, QUESTION_TAG) ==> line[0] == 'Q'
    ensures StartsWith(line, OPTIONS_TAG) ==> line[0] == 'O'
    ensures StartsWith(line, ANSWER_TAG) ==> line[0] == 'A'
  {
    if StartsWith(line, QUESTION_TAG) { assert line[..2][0] == line[0]; }
    if StartsWith(line, OPTIONS_TAG) { assert line[..8][0] == line[0]; }
    if StartsWith(line, ANSWER_TAG) { assert line[..7][0] == line[0]; }
  }

  /** What `Classify` guarantees of every line: texts are stripped and an
      answer index, when there is one, is below 4. */
  predicate LineTrimmed(kind: Line) {
    match kind
    case QuestionLine(text) => Trimmed(text)
    case OptionsLine(options) => forall i :: 0 <= i < |options| ==> Trimmed(options[i])
    case AnswerLine(index) => index.Some? ==> index.value < 4
    case OtherLine => true
  }

  /** How the loop body reads one raw line: strip it, then test the three
      prefixes in the source's order. */
  function Classify(raw: string): (kind: Line)
    ensures kind.QuestionLine? <==> StartsWith(Strip(raw), QUESTION_TAG)
    ensures kind.OptionsLine? <==> StartsWith(Strip(raw), OPTIONS_TAG)
    ensures kind.AnswerLine? <==> StartsWith(Strip(raw), ANSWER_TAG)
    ensures kind.OptionsLine? ==> |kind.options| <= Count(raw, '[') + 1
    ensures LineTrimmed(kind)
  {
    var line := Strip(raw);
    StripCount(raw, '[');
    TagInitials(line);
    if StartsWith(line, QUESTION_TAG) then
      QuestionLine(Strip(line[|QUESTION_TAG|..]))
    else if StartsWith(line, OPTIONS_TAG) then OptionsLine(OptionsOf(line))
    else if StartsWith(line, ANSWER_TAG) then AnswerLine(AnswerIndex(AnswerLetter(line)))
    else OtherLine
  }

  /** The triple an `Answer:` line appends: only when the question and options
      are non-empty and the letter's index is in range. */
  function Emit(p: Pending, index: Option<nat>): (r: seq<Mcq>)
    ensures |r| <= 1
    ensures r != [] <==>
      p.question != [] && p.options != [] && index.Some? && index.value < |p.options|
    ensures r != [] ==>
      (index.Some? && index.value < |p.options| &&
       r[0].question == p.question && r[0].options == p.options &&
       r[0].answer == p.options[index.value])
  {
    if p.question != [] && p.options != [] && index.Some? && index.value < |p.options|
    then [Mcq(p.question, p.options, p.options[index.value])]
    else []
  }

  /** One iteration of the loop. */
  function Step(m: Machine, line: Line): (r: Machine)
    ensures |r.questions| <= |m.questions| + 1
    ensures !line.AnswerLine? ==> r.questions == m.questions
    ensures line.AnswerLine? ==> r.pending == IDLE
    ensures line.QuestionLine? ==> r.pending.options == []
    ensures line.OptionsLine? ==> r.pending.question == m.pending.question
    ensures line.OtherLine? ==> r == m
  {
    match line
    case QuestionLine(text) => Machine(Pending(text, []), m.questions)
    case OptionsLine(options) => Machine(Pending(m.pending.question, options), m.questions)
    case AnswerLine(index) => Machine(IDLE, m.questions + Emit(m.pending, index))
    case OtherLine => m
  }

  /** The state after the loop has read lines that classify as `kinds`. */
  function RunLines(kinds: seq<Line>): Machine
    decreases |kinds|
  {
    if kinds == [] then START
    else Step(RunLines(kinds[..|kinds| - 1]), kinds[|kinds| - 1])
  }

  /** Every line as the loop body reads it. */
  function Classified(lines: seq<string>): seq<Line> {
    Map(Classify, lines)
  }

  /** The state after the loop has read every line of `lines`. */
  function Run(lines: seq<string>): Machine {
    RunLines(Classified(lines))
  }

  /** The list `parse_mcqs` returns. */
  function Parse(lines: seq<string>): seq<Mcq> {
    Run(lines).questions
  }

  /** Lines that classify as `kinds` run as `kinds` do. */
  lemma RunFrom(lines: seq<string>, kinds: seq<Line>)
    requires Classified(lines) == kinds
    ensures Run(lines) == RunLines(kinds)
  {
  }

  lemma RunLinesSnoc(kinds: seq<Line>, kind: Line)
    ensures RunLines(kinds + [kind]) == Step(RunLines(kinds), kind)
  {
    assert (kinds + [kind])[..|kinds|] == kinds;
  }

  lemma RunSnoc(lines: seq<string>, line: string)
    ensures Run(lines + [line]) == Step(Run(lines), Classify(line))
  {
    MapSnoc(Classify, lines, line);
    RunLinesSnoc(Classified(lines), Classify(line));
  }

  lemma ClassifiedPrefix(lines: seq<string>, j: nat)
    requires j <= |lines|
    ensures Classified(lines[..j]) == Classified(lines)[..j]
  {
    MapPrefix(Classify, lines, j);
  }

  /** The inner loop of the `Options:` branch, which rebuilds `opts`. */
  method ExtractOptions(line: string) returns (opts: seq<string>)
    ensures opts == OptionsOf(line)
  {
    var optionsText := Strip(Drop(line, |OPTIONS_TAG|));
    var tempOpts := NonBlankStripped(Split(optionsText, '['));
    opts := [];
    for i := 0 to |tempOpts|
      invariant opts == OptionTexts(tempOpts[..i])
    {
      var item := tempOpts[i];
      FlatMapPrefix(OptionText, tempOpts, i);
      if ']' in item {
        opts := opts + [Strip(AfterFirst(item, ']'))];
      }
    }
    TakeAll(tempOpts);
  }

  /** The acceptance test of an `Answer:` line: the triple is appended only
      when the question and options are non-empty and the index is in range. */
  method Accept(q: string, opts: seq<string>, correctIndex: Option<nat>, questions: seq<Mcq>)
    returns (questions': seq<Mcq>)
    ensures questions' == questions + Emit(Pending(q, opts), correctIndex)
  {
    questions' := questions;
    if q != [] && opts != [] && correctIndex.Some? && correctIndex.value < |opts| {
      questions' := questions + [Mcq(q, opts, opts[correctIndex.value])];
    }
  }

  /** The body of the loop: one raw line read against the variables `q`,
      `opts` and `questions`. */
  method ReadLine(raw: string, q: string, opts: seq<string>, questions: seq<Mcq>)
    returns (q': string, opts': seq<string>, questions': seq<Mcq>)
    ensures Machine(Pending(q', opts'), questions') ==
      Step(Machine(Pending(q, opts), questions), Classify(raw))
  {
    ghost var kind := Classify(raw);
    var line := Strip(raw);
    TagInitials(line);
    q', opts', questions' := q, opts, questions;
    if StartsWith(line, QUESTION_TAG) {
      q' := Strip(line[|QUESTION_TAG|..]);
      opts' := [];
      assert kind == QuestionLine(q');
    } else if StartsWith(line, OPTIONS_TAG) {
      opts' := ExtractOptions(line);
      assert kind == OptionsLine(opts');
    } else if StartsWith(line, ANSWER_TAG) {
      var correctIndex := AnswerIndex(AnswerLetter(line));
      assert kind == AnswerLine(correctIndex);
      questions' := Accept(q, opts, correctIndex, questions);
      q', opts' := "", [];
    } else {
      assert kind == OtherLine;
    }
  }

  /** `parse_mcqs`: the loop over the lines. */
  method ParseMcqs(lines: seq<string>) returns (questions: seq<Mcq>)
    ensures questions == Parse(lines)
  {
    questions := [];
    var q: string, opts: seq<string> := "", [];
    for i := 0 to |lines|
      invariant Run(lines[..i]) == Machine(Pending(q, opts), questions)
    {
      MapPrefixSnoc(Classify, lines, i);
      RunLinesSnoc(Classified(lines[..i]), Classify(lines[i]));
      q, opts, questions := ReadLine(lines[i], q, opts, questions);
    }
    TakeAll(lines);
  }

  // ---------------------------------------------------------------------
  // What the parser guarantees about its output

  /** A triple as the parser accepts it: a non-empty stripped question, a
      non-empty list of stripped options, and an answer that is the option at
      the index of one of the letters A to D. */
  predicate WellFormed(m: Mcq) {
    m.question != [] && Trimmed(m.question) &&
    m.options != [] &&
    (forall i :: 0 <= i < |m.options| ==> Trimmed(m.options[i])) &&
    exists i :: 0 <= i < 4 && i < |m.options| && m.answer == m.options[i]
  }

  predicate PendingTrimmed(p: Pending) {
    Trimmed(p.question) && forall i :: 0 <= i < |p.options| ==> Trimmed(p.options[i])
  }

  lemma {:induction false} RunLinesWellFormed(kinds: seq<Line>)
    requires forall i :: 0 <= i < |kinds| ==> LineTrimmed(kinds[i])
    ensures PendingTrimmed(RunLines(kinds).pending)
    ensures forall k :: 0 <= k < |RunLines(kinds).questions| ==> WellFormed(RunLines(kinds).questions[k])
    decreases |kinds|
  {
    if kinds != [] {
      var init := kinds[..|kinds| - 1];
      RunLinesWellFormed(init);
      var m := RunLines(init);
      var kind := kinds[|kinds| - 1];
      assert LineTrimmed(kind);
      if kind.AnswerLine? {
        var e := Emit(m.pending, kind.index);
        if e != [] {
          var i := kind.index.value;
          assert e[0].answer == e[0].options[i];
          assert WellFormed(e[0]);
        }
        assert RunLines(kinds).questions == m.questions + e;
      }
    }
  }

  /** Every triple the parser returns is well formed; in particular its
      correct answer is one of its options. */
  lemma ParseWellFormed(lines: seq<string>)
    ensures forall k :: 0 <= k < |Parse(lines)| ==> WellFormed(Parse(lines)[k])
  {
    RunLinesWellFormed(Classified(lines));
  }

  /** The number of lines that strip to something starting with `Answer:`. */
  function AnswerLineCount(lines: seq<string>): nat
    decreases |lines|
  {
    if lines == [] then 0
    else
      var tagged := if StartsWith(Strip(lines[|lines| - 1]), ANSWER_TAG) then 1 else 0;
      AnswerLineCount(lines[..|lines| - 1]) + tagged
  }

  /** Triples are appended only on `Answer:` lines, at most one each; so
      input without such lines (the empty input among them) yields nothing. */
  lemma {:induction false} ParseLengthBound(lines: seq<string>)
    ensures |Parse(lines)| <= AnswerLineCount(lines)
    decreases |lines|
  {
    if lines != [] {
      var init := lines[..|lines| - 1];
      ParseLengthBound(init);
      Snoc(lines);
      RunSnoc(init, lines[|lines| - 1]);
    }
  }

  /** The indices of the lines at which a triple was appended, in order. */
  ghost function EmittingLines(kinds: seq<Line>): seq<nat>
    decreases |kinds|
  {
    if kinds == [] then []
    else
      var init := kinds[..|kinds| - 1];
      var kind := kinds[|kinds| - 1];
      EmittingLines(init) +
        (if kind.AnswerLine? && Emit(RunLines(init).pending, kind.index) != [] then [|kinds| - 1] else [])
  }

  lemma {:induction false} RunLinesTrace(kinds: seq<Line>)
    ensures |EmittingLines(kinds)| == |RunLines(kinds).questions|
    ensures forall k :: 0 <= k < |EmittingLines(kinds)| ==>
      var j := EmittingLines(kinds)[k];
      j < |kinds| && kinds[j].AnswerLine? &&
      Emit(RunLines(kinds[..j]).pending, kinds[j].index) == [RunLines(kinds).questions[k]]
    ensures forall k, k' :: 0 <= k < k' < |EmittingLines(kinds)| ==>
      EmittingLines(kinds)[k] < EmittingLines(kinds)[k']
    decreases |kinds|
  {
    if kinds != [] {
      var n := |kinds| - 1;
      var init := kinds[..n];
      RunLinesTrace(init);
      var src := EmittingLines(init);
      forall k | 0 <= k < |src|
        ensures kinds[..src[k]] == init[..src[k]] && kinds[src[k]] == init[src[k]]
      {
      }
    }
  }

  /** Where each returned triple comes from: the k-th triple was appended
      while reading an `Answer:` line j whose letter has index i, and it is
      the question and options assembled from the lines before j with opts[i]
      as the answer. The lines j increase with k, so the output follows the
      order of the input. */
  lemma ParseTrace(lines: seq<string>)
    ensures |EmittingLines(Classified(lines))| == |Parse(lines)|
    ensures forall k :: 0 <= k < |Parse(lines)| ==>
      var j := EmittingLines(Classified(lines))[k];
      j < |lines| && StartsWith(Strip(lines[j]), ANSWER_TAG) &&
      var p := Run(lines[..j]).pending;
      var index := Classify(lines[j]).index;
      p.question != [] && index.Some? && index.value < |p.options| &&
      Parse(lines)[k] == Mcq(p.question, p.options, p.options[index.value])
    ensures forall k, k' :: 0 <= k < k' < |Parse(lines)| ==>
      EmittingLines(Classified(lines))[k] < EmittingLines(Classified(lines))[k']
  {
    var kinds := Classified(lines);
    RunLinesTrace(kinds);
    forall j | 0 <= j <= |lines| ensures Run(lines[..j]) == RunLines(kinds[..j]) {
      ClassifiedPrefix(lines, j);
    }
  }

  /** One `Answer:` step from any state leaves the idle state, from which a
      second `Answer:` step emits nothing. */
  lemma AnswerStepsReset(m: Machine, answer: Line, again: Line)
    requires answer.AnswerLine? && again.AnswerLine?
    ensures Step(m, answer).pending == IDLE
    ensures Step(Step(m, answer), again).questions == Step(m, answer).questions
  {
    assert Emit(IDLE, again.index) == [];
  }

  /** The same for raw lines: whatever the state, a line that strips to
      something starting with `Answer:` resets it, and a second one appends
      nothing. */
  lemma AnswerResets(lines: seq<string>, answer: string, again: string)
    requires StartsWith(Strip(answer), ANSWER_TAG)
    requires StartsWith(Strip(again), ANSWER_TAG)
    ensures Run(lines + [answer]).pending == IDLE
    ensures Parse(lines + [answer] + [again]) == Parse(lines + [answer])
  {
    var m := Run(lines);
    var first := Classify(answer);
    var second := Classify(again);
    RunSnoc(lines, answer);
    RunSnoc(lines + [answer], again);
    AnswerStepsReset(m, first, second);
  }

  /** A `Q:` line starts a new question: the question becomes its text, the
      options are cleared, and nothing is appended. */
  lemma QuestionLineResets(lines: seq<string>, line: string)
    requires StartsWith(Strip(line), QUESTION_TAG)
    ensures Run(lines + [line]) ==
      Machine(Pending(Strip(Strip(line)[|QUESTION_TAG|..]), []), Parse(lines))
  {
    RunSnoc(lines, line);
  }

  /** An `Options:` line replaces the options, keeps the question and
      appends nothing; so of two `Options:` lines in a row only the second
      counts. */
  lemma OptionsLinesReplace(kinds: seq<Line>, first: Line, second: Line)
    requires first.OptionsLine? && second.OptionsLine?
    ensures RunLines(kinds + [second]) ==
      Machine(Pending(RunLines(kinds).pending.question, second.options), RunLines(kinds).questions)
    ensures RunLines(kinds + [first] + [second]) == RunLines(kinds + [second])
  {
    RunLinesSnoc(kinds, first);
    RunLinesSnoc(kinds, second);
    RunLinesSnoc(kinds + [first], second);
  }

  /** The same for raw lines; the options are those `OptionsOf` reads from
      the stripped line. */
  lemma OptionsLineReplaces(lines: seq<string>, first: string, second: string)
    requires StartsWith(Strip(first), OPTIONS_TAG)
    requires StartsWith(Strip(second), OPTIONS_TAG)
    ensures Run(lines + [second]) ==
      Machine(Pending(Run(lines).pending.question, OptionsOf(Strip(second))), Parse(lines))
    ensures Run(lines + [first] + [second]) == Run(lines + [second])
  {
    RunSnoc(lines, second);
    RunSnoc(lines, first);
    RunSnoc(lines + [first], second);
    OptionsLinesReplace(Classified(lines), Classify(first), Classify(second));
  }

  /** Lines without any of the three tags change nothing. */
  lemma {:induction false} OtherLinesKeep(kinds: seq<Line>, others: seq<Line>)
    requires forall i :: 0 <= i < |others| ==> others[i].OtherLine?
    ensures RunLines(kinds + others) == RunLines(kinds)
    decreases |others|
  {
    if others == [] {
      assert kinds + others == kinds;
    } else {
      var init := others[..|others| - 1];
      assert forall i :: 0 <= i < |init| ==> init[i] == others[i];
      OtherLinesKeep(kinds, init);
      AppendSnoc(kinds, others);
      RunLinesSnoc(kinds + init, others[|others| - 1]);
      assert others[|others| - 1].OtherLine?;
    }
  }

  lemma ClassifiedAppend(lines: seq<string>, more: seq<string>)
    ensures Classified(lines + more) == Classified(lines) + Classified(more)
  {
    MapAppend(Classify, lines, more);
  }

  /** The same for raw lines: lines whose stripped text starts with none of
      the three tags leave the state as it was. */
  lemma OtherLinesIgnored(lines: seq<string>, others: seq<string>)
    requires forall i :: 0 <= i < |others| ==> Classify(others[i]).OtherLine?
    ensures Run(lines + others) == Run(lines)
  {
    ClassifiedAppend(lines, others);
    OtherLinesKeep(Classified(lines), Classified(others));
  }

  /** An option is the stripped text after the first `]` of its segment. */
  lemma OptionTextAfterBracket(a: string, b: string)
    requires ']' !in a
    ensures OptionText(a + "]" + b) == [Strip(b)]
  {
    AfterFirstPiece(a, ']', b);
    assert (a + "]" + b)[|a|] == ']';
  }

  /** A segment that ends at its first `]` yields an empty option: options
      are not required to be non-empty. */
  lemma EmptyOptionText(a: string)
    requires ']' !in a
    ensures OptionText(a + "]") == [""]
  {
    assert a + "]" + "" == a + "]";
    OptionTextAfterBracket(a, "");
  }

  /** The text after the tag has no more `[` than the line. */
  lemma OptionsBodyCount(line: string)
    ensures Count(Strip(Drop(line, |OPTIONS_TAG|)), '[') <= Count(line, '[')
  {
    DropCount(line, |OPTIONS_TAG|, '[');
    StripCount(Drop(line, |OPTIONS_TAG|), '[');
  }

  /** The bound of `OptionsOf` is reached: an `Options:` line without any
      `[` whose text after the tag contains a `]` still yields one option,
      because the text before the first `[` is a segment too. */
  lemma OptionWithoutOpenBracket(line: string)
    requires '[' !in line
    requires ']' in Strip(Drop(line, |OPTIONS_TAG|))
    ensures Count(line, '[') == 0
    ensures |OptionsOf(line)| == 1
  {
    var body := Strip(Drop(line, |OPTIONS_TAG|));
    CountZero(line, '[');
    OptionsBodyCount(line);
    CountZero(body, '[');
    SegmentsWithoutOpenBracket(body);
    FlatMapSingle(OptionText, body);
  }

  lemma SegmentsWithoutOpenBracket(body: string)
    requires '[' !in body && body != [] && Trimmed(body)
    ensures NonBlankStripped(Split(body, '[')) == [body]
  {
    SplitNoSeparator(body, '[');
    StripTrimmed(body);
    FlatMapSingle(NonBlank, body);
  }
}
