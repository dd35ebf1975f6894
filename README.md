# MCQ portal: the question parser, grading and score

The portal asks a text generator for multiple-choice questions in a fixed
three-line format (`Q: …`, `Options: [A] … [B] …`, `Answer: B`). It parses
the reply into `(question, options, correct answer)` triples and shows each
triple as a radio group headed by a placeholder entry. It records one
answer per question and refuses a submission while a group is left on the
placeholder. Finally it writes a report card with the score.

This project models the parts of `app.py` that compute something:

- **`parse_mcqs`**, in `parser.dfy`. It reads the lines one by one against
  a current question and option list. Each stripped line is classified by
  its tag (`Classify`). One loop iteration is a step of a state machine
  (`Step`), and the whole parse is a fold of those steps (`Parse`).
  - The imperative code is modelled by methods: `ParseMcqs`, its loop body
    `ReadLine`, the inner option loop `ExtractOptions` and the acceptance
    test `Accept`.
  - Each method is proved equal to its functional counterpart.
  - The lemmas state what the parser guarantees: every triple is well
    formed, triples follow the input order, and each tag has its effect on
    the state.
- **The prompt's format**, in `format.dfy`. Questions written in the format
  that `generate_mcqs` asks for are parsed back to exactly the intended
  triples, provided each item can be written in that format unchanged
  (`Renderable`: a non-empty, stripped question and one to four non-empty,
  stripped options without `[`).
- **The answering page**, in `grading.dfy`. It builds the radio choices
  and finds the entry a group reopens on. It grades one choice into an
  answer record, collects the records of a page, and states the submission
  check.
- **The report**, in `report.dfy`. It covers the score (total and correct
  count) and the default file name.
- **Python's string operations** that these use, in `text.dfy`:
  - `strip` with the `str.isspace` set of code points;
  - `startswith`, slicing, `split`, `split(sep, 1)[1]` and `split(sep)[-1]`;
  - ASCII `upper`/`lower` and `replace` of one character.
- **Generic list comprehensions**, in `seqs.dfy`.

`None` values become `Option` (`wrappers.dfy`), except the parser's
`q = None`. It is the empty string, because `if q` treats `None` and `""`
alike.

The number of options an `Options:` line yields is at most the number of
`[` characters in the line **plus one**. The text before the first `[` is
also a segment, and it yields an option when it contains a `]`.
`McqParser.OptionWithoutOpenBracket` shows this bound is reached.

`parse_mcqs` accepts any positive number of options (app.py:83). The
prompt asks for four (app.py:31), but nothing enforces it.

## Model

| member | source | states |
|---|---|---|
| McqParser.ParseMcqs | app.py:46-89 | the loop's result is `Parse(lines)`, the fold of one `Step` per stripped line, which the lemmas below characterise |
| McqParser.ReadLine | app.py:59-88 | one iteration moves `(q, opts, questions)` exactly as `Step` does on the line's classification |
| McqParser.ExtractOptions | app.py:70-77 | the inner loop rebuilds `opts` as `OptionsOf(line)`: the stripped text after the first `]` of each stripped, non-blank `[`-segment, in order |
| McqParser.Accept | app.py:83-86 | a triple `(q, opts, opts[i])` is appended exactly when `q` and `opts` are non-empty and the index `i` exists and is below `len(opts)`; otherwise nothing is appended |
| McqParser.Step | app.py:59-88 | one iteration appends at most one triple, and only on an `Answer:` line, after which nothing is pending; a `Q:` line clears the options, an `Options:` line keeps the question, and any other line changes nothing |
| McqParser.Emit | app.py:83-84 | the `Answer:` line yields at most one triple; it yields one exactly when the question and options are non-empty and the index is present and below `len(opts)`, and that triple carries the pending question and options with `opts[index]` as the answer |
| McqParser.AnswerLetter | app.py:79 | the answer letter is as long as the stripped text after the last `:`, contains no `:` and no lower-case ASCII letter |
| McqParser.NonBlankStripped | app.py:72 | the comprehension keeps at most one entry per piece, and every entry is non-empty and stripped |
| McqParser.OptionText | app.py:75-77 | a segment contributes at most one option, and that option is stripped; it contributes none exactly when it has no `]` |
| McqParser.OptionSegments | app.py:70-72 | `temp_opts` has at most one more segment than the line has `[` characters; every segment is non-empty, stripped and free of `[` |
| McqParser.OptionTexts | app.py:73-77 | the inner loop keeps at most one option per segment, and every option is stripped |
| McqParser.Run | app.py:57-88 | no contract; the definition is the fold of `Step` over the classified lines, starting with nothing pending and no triples; the lemmas `RunLinesTrace` and `RunLinesWellFormed` about that fold state what it produces |
| McqParser.Parse | app.py:89 | no contract; the definition is the triples of `Run`; `ParseWellFormed`, `ParseLengthBound` and `ParseTrace` state what they are |
| McqParser.Classify | app.py:60-80 | a line is a question, options or answer line exactly when its stripped text starts with `Q:`, `Options:` or `Answer:`; the texts it carries are stripped, and an options line has at most `count('[') + 1` options |
| McqParser.OptionsOf | app.py:70-77 | an `Options:` line yields at most one option more than it has `[` characters, each already stripped |
| McqParser.AnswerIndex | app.py:80 | the dictionary lookup gives an index exactly for the one-letter strings `A` to `D`, and the index is that letter's position |
| McqParser.AnswerLetterAccepted | app.py:79-80 | an answer letter is accepted exactly when the stripped text after the last `:` is a single letter `A`–`D` in either case |
| McqParser.ParseWellFormed | app.py:80-84 | every returned triple has a non-empty stripped question, a non-empty list of stripped options, and an answer equal to `options[i]` for the A–D index `i` |
| McqParser.ParseLengthBound | app.py:78-88 | the number of triples is at most the number of lines that strip to something starting with `Answer:`, so the empty input yields nothing |
| McqParser.ParseTrace | app.py:59-88 | the k-th triple was appended while reading an `Answer:` line j, built from the question and options pending before line j and the letter's index; the lines j strictly increase with k |
| McqParser.AnswerResets | app.py:78-88 | after an `Answer:` line, accepted or not, nothing is pending, so a second `Answer:` line straight after it adds no triple |
| McqParser.QuestionLineResets | app.py:61-67 | a `Q:` line sets the question to its stripped remainder, clears the options and appends nothing |
| McqParser.OptionsLineReplaces | app.py:68-77 | an `Options:` line replaces the options, keeps the question and appends nothing; of two `Options:` lines in a row only the second counts |
| McqParser.OtherLinesIgnored | app.py:59-88 | lines whose stripped text carries none of the three tags leave the parser's state unchanged |
| McqParser.OptionTextAfterBracket | app.py:75-77 | a segment's option is the stripped text after its first `]` |
| McqParser.EmptyOptionText | app.py:75-77 | a segment ending at its first `]` yields the empty option, so options may be empty strings |
| McqParser.OptionWithoutOpenBracket | app.py:70-77 | a line with no `[` at all, whose text after the tag contains a `]`, still yields one option |
| Format.ParseRendered | app.py:33-36 | any sequence of questions written in the prompt's format (a non-empty, stripped question, one to four stripped, non-empty options without `[`, and an answer letter in range) is parsed back to exactly those triples, in order, with the lettered option as the answer |
| Format.Render | app.py:33-36 | an item is written as three stripped lines, tagged `Q:`, `Options:` and `Answer:` in that order |
| Format.ClassifyQuestion | app.py:34 | a `Q: text` line, with the text non-empty and stripped, is read as a question line carrying exactly that text |
| Format.ClassifyOptions | app.py:35 | an `Options: [A] … [B] …` line with one to four options, each non-empty, stripped and free of `[`, is read as exactly those option texts |
| Format.ClassifyAnswer | app.py:36 | an `Answer: L` line is read as the index of letter `L` |
| Grading.RadioChoices | app.py:269 | the radio list is the placeholder followed by the question's options, in order |
| Grading.DefaultIndex | app.py:272-278 | the group opens on the first entry equal to the stored choice, or on the placeholder at 0 when nothing or an unknown value is stored |
| Grading.DefaultIndexReopens | app.py:272-291 | a choice stored for a group is the entry it reopens on when the page is drawn again, and a placeholder choice reopens on the placeholder |
| Grading.Stored | app.py:288-291 | the value stored in `user_selections` is `None` exactly when the placeholder was chosen, and otherwise the chosen text |
| Grading.FirstIndex | app.py:276-278 | the index of the first entry equal to the value, or 0 when no entry is |
| Grading.Grade | app.py:294-301 | the record copies the question, options and correct answer; it has no user answer exactly when the placeholder was chosen; it is correct exactly when a real choice equals the correct answer |
| Grading.CollectAnswers | app.py:257-301 | the page's loop builds one graded record per question, in order, and leaves `user_selections` of the questions' length holding each record's user answer, whatever its length was before |
| Grading.GradeAll | app.py:262-301 | one record per question, in order, each the grade of that question's choice |
| Grading.CanSubmit | app.py:305 | a submission is accepted exactly when every record has a user answer |
| Grading.SubmitIffAllChosen | app.py:288-305 | a page can be submitted exactly when no radio group is on the placeholder |
| Grading.CorrectChoiceOffered | app.py:269-300 | for a parsed question whose answer is not the placeholder's text, the radio group offers a choice that is graded correct |
| Grading.PlaceholderAnswerNeverCorrect | app.py:294-300 | a question whose correct answer text equals the placeholder's can never be graded correct |
| Report.CorrectCount | app.py:111 | the correct count is at most the number of answers; it equals it exactly when every answer is correct, and it is 0 exactly when none is |
| Report.ScoreOf | app.py:110-111 | `total_questions` is the number of answers and `correct_count` their correct count, so the correct count never exceeds the total |
| Report.CorrectCountAppend | app.py:111 | the count of two answer lists joined is the sum of their counts |
| Report.PageScore | app.py:110-111 | a graded page's total is its number of questions; it scores full marks exactly when every choice is a real choice equal to the answer, and zero exactly when none is |
| Report.CleanName | app.py:105 | the cleaned name has the name's length; each space becomes `_` and each other character is lower-cased |
| Report.CleanNameShape | app.py:105 | the cleaned name keeps the name's length, has no space and no upper-case ASCII letter, and cleaning it again changes nothing |
| Wrappers.Option.GetOr | app.py:105 | `get` with a default: the stored value when there is one, otherwise the default |
| Report.ReportFileName | app.py:105-107 | the report file is the given name, or else the cleaned user name (`candidate` when there is none) followed by `_report.pdf` |
| Text.Strip | app.py:60 | `strip` leaves no whitespace at either end and is empty exactly when the text is all whitespace |
| Text.JoinSplit | app.py:72 | joining the pieces of `split` with the separator gives back the text |
| Text.Split | app.py:72 | `split` gives one more piece than there are separators, and no piece contains one |
| Text.LastField | app.py:79 | `split(sep)[-1]` is the suffix after the last separator, or the whole text when there is none |
| Text.AfterFirst | app.py:77 | `split(sep, 1)[1]` is the suffix after the first separator, with no separator before it |
| Text.IsSpace | app.py:60 | no contract; the definition is the set of code points for which `str.isspace` holds, the ones `strip` removes |
| Text.StartsWith | app.py:61 | no contract; the definition is `str.startswith`: the prefix is no longer than the text and equals its start |
| Text.Drop | app.py:70 | the slice `s[n:]` has `len(s) - n` characters, or none when `n` is past the end, and is the suffix of `s` of that length |
| Text.Upper | app.py:79 | `upper` on ASCII: the same length, each character upper-cased, and no lower-case ASCII letter left |
| Text.Lower | app.py:105 | `lower` on ASCII: the same length, each character lower-cased, and no upper-case ASCII letter left |
| Text.ReplaceChar | app.py:105 | `replace` of one character: the same length, each occurrence of the old character becomes the new one and every other character is kept |

## Left out

- `splitlines`: the parser's input is the list of lines, already split.
- The `st.warning` and `st.error` calls are left out. They only show messages and do not change the parser's state.
- The variable `ans` of `parse_mcqs` is left out: it is always `None` and is never read.
- `generate_mcqs` calls the external generator, which is left out; only the prompt's format is modelled (`Format`). Any reply is an arbitrary list of lines.
- Upper and lower case are ASCII only. Python maps the other Unicode letters too.
- Strings are sequences of Unicode scalar values. The lone surrogates a Python string can hold are left out, because Dafny's `char` cannot represent them.
- `load_submissions` and `save_submission` do file and JSON I/O, which is left out.
- The PDF layout and colours of `create_pdf_report` are left out.
- The Streamlit widgets, page navigation and reruns are left out. The value a radio group returns is an input (`chosen`), and `user_selections` is a sequence passed in and returned.
- Grading.CollectAnswers: accepts any string as a group's return value, not only one of its entries, so it covers more inputs than the widget can produce.
- McqParser.OptionsOf: the option count is bounded by the number of `[` plus one, not by the number of `[`. The bound without the `+ 1` does not hold (`OptionWithoutOpenBracket`).
- Format.ParseRendered: only covers items whose question is non-empty and stripped. `parse_mcqs` strips the question (app.py:65), so a question with surrounding spaces comes back stripped (`QuestionComesBackStripped`). It also rejects an empty one (`if q`, app.py:83), so an item with an empty question yields no triple (`EmptyQuestionDropped`).
- Format.ParseRendered: only covers one to four options (the letters A–D) that are non-empty, stripped and free of `[`. Options that are not stripped, or that contain `[`, do not survive the format unchanged. An empty option does survive it, because `strip` and the segment split both remove the spaces around it; the proof does not cover that case.
