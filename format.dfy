/** The text format the question generator is asked to produce (the prompt
    in `generate_mcqs`, app.py):

        Q: Question text
        Options: [A] option1 [B] option2 [C] option3 [D] option4
        Answer: B

    `Render` writes questions in that format, and `ParseRendered` shows that
    the parser reads back exactly what was written, for every item that is
    `Renderable`. */
module Format {
  import opened Wrappers
  import opened Text
  import opened Seqs
  import opened McqParser

  /** A question as the generator means it: its text, its options and the
      position of the correct one. */
  datatype Item = Item(question: string, options: seq<string>, correct: nat)

  /** What the format can carry: a non-empty question and one to four
      non-empty options without surrounding whitespace, options without `[`
      (which would start a new segment), and a correct position among them. */
  predicate Renderable(it: Item) {
    it.question != [] && Trimmed(it.question) &&
    1 <= |it.options| <= 4 && it.correct < |it.options| &&
    forall i :: 0 <= i < |it.options| ==> OptionFits(it.options[i])
  }

  predicate OptionFits(o: string) {
    o != [] && Trimmed(o) && '[' !in o
  }

  /** The triple the parser should return for an item. */
  function Expected(it: Item): Mcq
    requires it.correct < |it.options|
  {
    Mcq(it.question, it.options, it.options[it.correct])
  }

  /** `[L] option` for the option at position `i`. */
  function Segment(i: nat, o: string): string
    requires i < 4
  {
    [LETTERS[i]] + "] " + o
  }

  /** The options from position `i` on, each labelled, separated by spaces:
      everything after the first `[` of the options field. */
  function Labelled(opts: seq<string>, i: nat): string
    requires opts != [] && i + |opts| <= 4
    decreases |opts|
  {
    if |opts| == 1 then Segment(i, opts[0])
    else Segment(i, opts[0]) + " [" + Labelled(opts[1..], i + 1)
  }

  function QuestionText(q: string): string { "Q: " + q }

  function OptionsText(opts: seq<string>): string
    requires opts != [] && |opts| <= 4
  {
    "Options: [" + Labelled(opts, 0)
  }

  function AnswerText(correct: nat): string
    requires correct < 4
  {
    "Answer: " + [LETTERS[correct]]
  }

  /** The three lines of one item. */
  function Render(it: Item): (r: seq<string>)
    requires Renderable(it)
    ensures |r| == 3 && forall i :: 0 <= i < 3 ==> Trimmed(r[i])
    ensures StartsWith(r[0], QUESTION_TAG) && StartsWith(r[1], OPTIONS_TAG) &&
      StartsWith(r[2], ANSWER_TAG)
  {
    QuestionLineTrimmed(it.question);
    OptionsLineTrimmed(it.options);
    AnswerLineTrimmed(it.correct);
    [QuestionText(it.question), OptionsText(it.options), AnswerText(it.correct)]
  }

  /** The line kinds of one item, as they should classify. */
  function Kinds(it: Item): seq<Line>
    requires it.correct < 4
  {
    [QuestionLine(it.question), OptionsLine(it.options), AnswerLine(Some(it.correct))]
  }

  // ---------------------------------------------------------------------
  // Each rendered line classifies as intended

  lemma QuestionLineTrimmed(q: string)
    requires q != [] && Trimmed(q)
    ensures Trimmed(QuestionText(q)) && StartsWith(QuestionText(q), QUESTION_TAG)
  {
    var line := QuestionText(q);
    assert line[0] == 'Q' && line[|line| - 1] == q[|q| - 1];
    assert line[..|QUESTION_TAG|] == QUESTION_TAG;
  }

  lemma QuestionLineText(q: string)
    requires q != [] && Trimmed(q)
    ensures Strip(QuestionText(q)[|QUESTION_TAG|..]) == q
  {
    assert QuestionText(q)[|QUESTION_TAG|..] == [' '] + q;
    StripLeadingSpace(' ', q);
    StripTrimmed(q);
  }

  lemma ClassifyQuestion(q: string)
    requires q != [] && Trimmed(q)
    ensures Classify(QuestionText(q)) == QuestionLine(q)
  {
    QuestionLineTrimmed(q);
    StripTrimmed(QuestionText(q));
    QuestionLineText(q);
  }

  /** Outside `Renderable`, a question does not come back as written: the
      parser strips it, so one written with an extra leading space comes
      back without it. */
  lemma QuestionComesBackStripped(q: string)
    requires q != [] && Trimmed(q)
    ensures Classify(QuestionText([' '] + q)) == QuestionLine(q)
  {
    var padded := [' '] + q;
    var line := QuestionText(padded);
    assert Trimmed(line) by {
      assert line[0] == 'Q' && line[|line| - 1] == q[|q| - 1];
    }
    assert StartsWith(line, QUESTION_TAG) by {
      assert line[..|QUESTION_TAG|] == QUESTION_TAG;
    }
    assert Strip(line[|QUESTION_TAG|..]) == q by {
      assert line[|QUESTION_TAG|..] == [' '] + padded;
      StripLeadingSpace(' ', padded);
      StripLeadingSpace(' ', q);
      StripTrimmed(q);
    }
    StripTrimmed(line);
  }

  /** An item whose question is empty appends no triple, whatever its
      options and letter: the acceptance test `if q` rejects it. */
  lemma EmptyQuestionDropped(kinds: seq<Line>, opts: seq<string>, c: nat)
    ensures RunLines(kinds + [QuestionLine([]), OptionsLine(opts), AnswerLine(Some(c))]).questions ==
      RunLines(kinds).questions
  {
    var q, o, a := QuestionLine([]), OptionsLine(opts), AnswerLine(Some(c));
    RunLinesSnoc(kinds, q);
    RunLinesSnoc(kinds + [q], o);
    RunLinesSnoc(kinds + [q, o], a);
    assert kinds + [q] + [o] == kinds + [q, o];
    assert kinds + [q, o] + [a] == kinds + [q, o, a];
  }

  lemma AnswerLineTrimmed(correct: nat)
    requires correct < 4
    ensures var line := AnswerText(correct);
      Trimmed(line) && StartsWith(line, ANSWER_TAG) &&
      !StartsWith(line, QUESTION_TAG) && !StartsWith(line, OPTIONS_TAG)
  {
    var line := AnswerText(correct);
    assert line[0] == 'A' && line[|line| - 1] == LETTERS[correct];
    assert line[..|ANSWER_TAG|] == ANSWER_TAG;
    TagInitials(line);
  }

  lemma AnswerLineField(correct: nat)
    requires correct < 4
    ensures LastField(AnswerText(correct), ':') == [' ', LETTERS[correct]]
  {
    var tail := [' ', LETTERS[correct]];
    assert AnswerText(correct) == "Answer" + [':'] + tail;
    SplitAfterPiece("Answer", ':', tail);
    SplitNoSeparator(tail, ':');
  }

  lemma AnswerTailStripped(correct: nat)
    requires correct < 4
    ensures Strip([' ', LETTERS[correct]]) == [LETTERS[correct]]
  {
    var letter := [LETTERS[correct]];
    assert [' ', LETTERS[correct]] == [' '] + letter;
    LetterCode(correct);
    StripLeadingSpace(' ', letter);
    StripTrimmed(letter);
  }

  /** The label at position `i` is the `i`-th capital letter. */
  lemma LetterCode(i: nat)
    requires i < 4
    ensures LETTERS[i] as int == 'A' as int + i
  {
    if i == 0 { assert LETTERS[0] == 'A'; }
    else if i == 1 { assert LETTERS[1] == 'B'; }
    else if i == 2 { assert LETTERS[2] == 'C'; }
    else { assert LETTERS[3] == 'D'; }
  }

  /** The letters are their own upper case, and each maps back to its position. */
  lemma LetterIndex(correct: nat)
    requires correct < 4
    ensures Upper([LETTERS[correct]]) == [LETTERS[correct]]
    ensures AnswerIndex([LETTERS[correct]]) == Some(correct)
  {
    var letter := [LETTERS[correct]];
    assert Upper(letter)[0] == UpperChar(LETTERS[correct]);
    if correct == 0 { assert letter == "A"; }
    else if correct == 1 { assert letter == "B"; }
    else if correct == 2 { assert letter == "C"; }
    else { assert letter == "D"; }
  }

  lemma AnswerLineLetter(correct: nat)
    requires correct < 4
    ensures AnswerIndex(AnswerLetter(AnswerText(correct))) == Some(correct)
  {
    AnswerLineField(correct);
    AnswerTailStripped(correct);
    LetterIndex(correct);
  }

  lemma ClassifyAnswer(correct: nat)
    requires correct < 4
    ensures Classify(AnswerText(correct)) == AnswerLine(Some(correct))
  {
    AnswerLineTrimmed(correct);
    StripTrimmed(AnswerText(correct));
    AnswerLineLetter(correct);
  }

  // ---------------------------------------------------------------------
  // The options line

  /** The pieces `Split` cuts the labelled options into at `[`. */
  function Pieces(opts: seq<string>, i: nat): seq<string>
    requires opts != [] && i + |opts| <= 4
    decreases |opts|
  {
    if |opts| == 1 then [Segment(i, opts[0])]
    else [Segment(i, opts[0]) + " "] + Pieces(opts[1..], i + 1)
  }

  /** The stripped segments `temp_opts`. */
  function Segments(opts: seq<string>, i: nat): seq<string>
    requires opts != [] && i + |opts| <= 4
    decreases |opts|
  {
    if |opts| == 1 then [Segment(i, opts[0])]
    else [Segment(i, opts[0])] + Segments(opts[1..], i + 1)
  }

  predicate AllFit(opts: seq<string>) {
    forall k :: 0 <= k < |opts| ==> OptionFits(opts[k])
  }

  lemma SegmentShape(i: nat, o: string)
    requires i < 4 && OptionFits(o)
    ensures var s := Segment(i, o);
      s != [] && Trimmed(s) && '[' !in s && s[|s| - 1] == o[|o| - 1]
  {
    var s := Segment(i, o);
    assert s[0] == LETTERS[i] && s[|s| - 1] == o[|o| - 1];
    assert s == [LETTERS[i], ']', ' '] + o;
  }

  lemma LabelledLast(opts: seq<string>, i: nat)
    requires opts != [] && i + |opts| <= 4 && AllFit(opts)
    ensures var l := Labelled(opts, i); var o := opts[|opts| - 1];
      l != [] && l[|l| - 1] == o[|o| - 1]
    decreases |opts|
  {
    SegmentShape(i, opts[0]);
    if |opts| > 1 {
      LabelledLast(opts[1..], i + 1);
    }
  }

  lemma {:induction false} SplitLabelled(opts: seq<string>, i: nat)
    requires opts != [] && i + |opts| <= 4 && AllFit(opts)
    ensures Split(Labelled(opts, i), '[') == Pieces(opts, i)
    decreases |opts|
  {
    var s := Segment(i, opts[0]);
    SegmentShape(i, opts[0]);
    if |opts| == 1 {
      SplitNoSeparator(s, '[');
    } else {
      SplitLabelled(opts[1..], i + 1);
      assert Labelled(opts, i) == (s + " ") + ['['] + Labelled(opts[1..], i + 1);
      SplitAfterPiece(s + " ", '[', Labelled(opts[1..], i + 1));
    }
  }

  lemma {:induction false} NonBlankPieces(opts: seq<string>, i: nat)
    requires opts != [] && i + |opts| <= 4 && AllFit(opts)
    ensures FlatMap(NonBlank, Pieces(opts, i)) == Segments(opts, i)
    decreases |opts|
  {
    var s := Segment(i, opts[0]);
    SegmentShape(i, opts[0]);
    if |opts| == 1 {
      StripTrimmed(s);
      FlatMapSingle(NonBlank, s);
    } else {
      NonBlankPieces(opts[1..], i + 1);
      StripTrailingSpace(s, ' ');
      FlatMapAppend(NonBlank, [s + " "], Pieces(opts[1..], i + 1));
      FlatMapSingle(NonBlank, s + " ");
    }
  }

  lemma SegmentOption(i: nat, o: string)
    requires i < 4 && OptionFits(o)
    ensures OptionText(Segment(i, o)) == [o]
  {
    assert Segment(i, o) == [LETTERS[i]] + "]" + ([' '] + o);
    OptionTextAfterBracket([LETTERS[i]], [' '] + o);
    StripLeadingSpace(' ', o);
    StripTrimmed(o);
  }

  /** Segment `k` is the labelled option at position `i + k`. */
  lemma {:induction false} SegmentsAt(opts: seq<string>, i: nat)
    requires opts != [] && i + |opts| <= 4
    ensures |Segments(opts, i)| == |opts|
    ensures forall k :: 0 <= k < |opts| ==> Segments(opts, i)[k] == Segment(i + k, opts[k])
    decreases |opts|
  {
    if |opts| > 1 {
      SegmentsAt(opts[1..], i + 1);
    }
  }

  lemma SegmentOptions(opts: seq<string>, i: nat)
    requires opts != [] && i + |opts| <= 4 && AllFit(opts)
    ensures FlatMap(OptionText, Segments(opts, i)) == opts
  {
    var segs := Segments(opts, i);
    SegmentsAt(opts, i);
    forall k | 0 <= k < |segs| ensures OptionText(segs[k]) == [opts[k]] {
      SegmentOption(i + k, opts[k]);
    }
    FlatMapSingles(OptionText, segs, opts);
  }

  lemma OptionsLineTrimmed(opts: seq<string>)
    requires opts != [] && |opts| <= 4 && AllFit(opts)
    ensures var line := OptionsText(opts);
      Trimmed(line) && StartsWith(line, OPTIONS_TAG) && !StartsWith(line, QUESTION_TAG)
  {
    var line := OptionsText(opts);
    var l := Labelled(opts, 0);
    LabelledLast(opts, 0);
    assert OptionFits(opts[|opts| - 1]);
    assert line[0] == 'O' && line[|line| - 1] == l[|l| - 1];
    assert line[..|OPTIONS_TAG|] == OPTIONS_TAG;
    TagInitials(line);
  }

  lemma FieldTrimmed(opts: seq<string>)
    requires opts != [] && |opts| <= 4 && AllFit(opts)
    ensures Trimmed("[" + Labelled(opts, 0))
  {
    LabelledLast(opts, 0);
    assert OptionFits(opts[|opts| - 1]);
    TrimmedAfter('[', Labelled(opts, 0));
  }

  /** A non-space character before a text that ends in a non-space. */
  lemma TrimmedAfter(c: char, l: string)
    requires !IsSpace(c) && l != [] && !IsSpace(l[|l| - 1])
    ensures Trimmed([c] + l)
  {
    var s := [c] + l;
    assert s[|s| - 1] == l[|l| - 1];
  }

  lemma OptionsLineDrop(opts: seq<string>)
    requires opts != [] && |opts| <= 4
    ensures Drop(OptionsText(opts), |OPTIONS_TAG|) == [' '] + ("[" + Labelled(opts, 0))
  {
    var l := Labelled(opts, 0);
    assert OptionsText(opts) == OPTIONS_TAG + ([' '] + ("[" + l));
    DropAfter(OPTIONS_TAG, [' '] + ("[" + l));
  }

  lemma OptionsLineBody(opts: seq<string>)
    requires opts != [] && |opts| <= 4 && AllFit(opts)
    ensures Strip(Drop(OptionsText(opts), |OPTIONS_TAG|)) == "[" + Labelled(opts, 0)
  {
    var field := "[" + Labelled(opts, 0);
    FieldTrimmed(opts);
    OptionsLineDrop(opts);
    StripLeadingSpace(' ', field);
    StripTrimmed(field);
  }

  lemma SplitField(opts: seq<string>)
    requires opts != [] && |opts| <= 4 && AllFit(opts)
    ensures Split("[" + Labelled(opts, 0), '[') == [[]] + Pieces(opts, 0)
  {
    var l := Labelled(opts, 0);
    assert "[" + l == [] + ['['] + l;
    SplitAfterPiece([], '[', l);
    SplitLabelled(opts, 0);
  }

  lemma NonBlankField(opts: seq<string>)
    requires opts != [] && |opts| <= 4 && AllFit(opts)
    ensures FlatMap(NonBlank, [[]] + Pieces(opts, 0)) == Segments(opts, 0)
  {
    FlatMapAppend(NonBlank, [[]], Pieces(opts, 0));
    FlatMapSingle(NonBlank, []);
    NonBlankPieces(opts, 0);
  }

  lemma OptionsLineSegments(opts: seq<string>)
    requires opts != [] && |opts| <= 4 && AllFit(opts)
    ensures OptionSegments(OptionsText(opts)) == Segments(opts, 0)
  {
    OptionsLineBody(opts);
    SplitField(opts);
    NonBlankField(opts);
  }

  lemma OptionsOfRendered(opts: seq<string>)
    requires opts != [] && |opts| <= 4 && AllFit(opts)
    ensures OptionsOf(OptionsText(opts)) == opts
  {
    OptionsLineSegments(opts);
    SegmentOptions(opts, 0);
  }

  lemma ClassifyOptions(opts: seq<string>)
    requires opts != [] && |opts| <= 4 && AllFit(opts)
    ensures Classify(OptionsText(opts)) == OptionsLine(opts)
  {
    OptionsLineTrimmed(opts);
    StripTrimmed(OptionsText(opts));
    OptionsOfRendered(opts);
  }

  // ---------------------------------------------------------------------
  // Whole texts

  /** The lines of several items, one block after the other. */
  function RenderAll(items: seq<Item>): seq<string>
    requires forall k :: 0 <= k < |items| ==> Renderable(items[k])
    decreases |items|
  {
    if items == [] then []
    else
      assert Renderable(items[0]);
      Render(items[0]) + RenderAll(items[1..])
  }

  function KindsAll(items: seq<Item>): seq<Line>
    requires forall k :: 0 <= k < |items| ==> Renderable(items[k])
    decreases |items|
  {
    if items == [] then []
    else
      assert Renderable(items[0]);
      Kinds(items[0]) + KindsAll(items[1..])
  }

  function ExpectedAll(items: seq<Item>): seq<Mcq>
    requires forall k :: 0 <= k < |items| ==> Renderable(items[k])
    decreases |items|
  {
    if items == [] then []
    else
      assert Renderable(items[0]);
      [Expected(items[0])] + ExpectedAll(items[1..])
  }

  /** The three lines of an item classify as its three kinds. */
  lemma ClassifyRendered(it: Item)
    requires Renderable(it)
    ensures Classified(Render(it)) == Kinds(it)
  {
    MapThree(Classify, QuestionText(it.question), OptionsText(it.options), AnswerText(it.correct));
    ClassifyQuestion(it.question);
    ClassifyOptions(it.options);
    ClassifyAnswer(it.correct);
  }

  lemma {:induction false} ClassifyRenderedAll(items: seq<Item>)
    requires forall k :: 0 <= k < |items| ==> Renderable(items[k])
    ensures Classified(RenderAll(items)) == KindsAll(items)
    decreases |items|
  {
    if items != [] {
      var head, tail := Render(items[0]), RenderAll(items[1..]);
      assert RenderAll(items) == head + tail;
      assert KindsAll(items) == Kinds(items[0]) + KindsAll(items[1..]);
      ClassifyRendered(items[0]);
      ClassifyRenderedAll(items[1..]);
      ClassifiedAppend(head, tail);
    }
  }

  /** Whatever was pending, one rendered block appends its triple and leaves
      nothing pending. */
  lemma ReadBlock(kinds: seq<Line>, it: Item)
    requires Renderable(it)
    ensures RunLines(kinds + Kinds(it)) ==
      Machine(IDLE, RunLines(kinds).questions + [Expected(it)])
  {
    var q := QuestionLine(it.question);
    var o := OptionsLine(it.options);
    var a := AnswerLine(Some(it.correct));
    AppendThree(kinds, q, o, a);
    RunLinesSnoc(kinds, q);
    RunLinesSnoc(kinds + [q], o);
    RunLinesSnoc(kinds + [q] + [o], a);
  }

  lemma {:induction false} ReadBlocks(kinds: seq<Line>, items: seq<Item>)
    requires forall k :: 0 <= k < |items| ==> Renderable(items[k])
    requires RunLines(kinds).pending == IDLE
    ensures RunLines(kinds + KindsAll(items)) ==
      Machine(IDLE, RunLines(kinds).questions + ExpectedAll(items))
    decreases |items|
  {
    if items == [] {
      assert kinds + KindsAll(items) == kinds;
      assert RunLines(kinds).questions + ExpectedAll(items) == RunLines(kinds).questions;
    } else {
      ReadBlock(kinds, items[0]);
      ReadBlocks(kinds + Kinds(items[0]), items[1..]);
      AppendAssoc(kinds, Kinds(items[0]), KindsAll(items[1..]));
      AppendAssoc(RunLines(kinds).questions, [Expected(items[0])], ExpectedAll(items[1..]));
    }
  }

  lemma ReadAll(items: seq<Item>)
    requires forall k :: 0 <= k < |items| ==> Renderable(items[k])
    ensures RunLines(KindsAll(items)) == Machine(IDLE, ExpectedAll(items))
  {
    ReadBlocks([], items);
    EmptyAppend(KindsAll(items));
    EmptyAppend(ExpectedAll(items));
  }

  /** The round trip: questions written in the generator's format are parsed
      back as exactly the intended triples, in order, with the option at
      the answer letter's position as the correct answer. */
  lemma ParseRendered(items: seq<Item>)
    requires forall k :: 0 <= k < |items| ==> Renderable(items[k])
    ensures Parse(RenderAll(items)) == ExpectedAll(items)
  {
    RenderedRun(items);
  }

  /** Reading the rendered lines from the start ends idle with every item's
      triple. */
  lemma RenderedRun(items: seq<Item>)
    requires forall k :: 0 <= k < |items| ==> Renderable(items[k])
    ensures Run(RenderAll(items)) == Machine(IDLE, ExpectedAll(items))
  {
    ClassifyRenderedAll(items);
    ReadAll(items);
    RunFrom(RenderAll(items), KindsAll(items));
  }
}
