/**
 * `Exam.__create_questions`: a left fold over the lines of an exam file that
 * carries the current prompt, the options seen so far and the last correct
 * answer, and emits `Question` records.
 */
module Parser {
  import opened Wrappers
  import opened Text
  import opened Questions

  /** What `line.startswith(...)` makes of a raw, unstripped line. */
  datatype Marker = PromptMarker | OptionMarker | CorrectMarker | Plain

  function Classify(line: string): Marker {
    if "~Q" <= line then PromptMarker
    else if "~A" <= line then OptionMarker
    else if "~C" <= line then CorrectMarker
    else Plain
  }

  /** `line.strip()[2:].strip()`; slicing past the end gives the empty string. */
  function Payload(line: string): string {
    var t := Strip(line);
    Strip(if |t| < 2 then [] else t[2..])
  }

  /** The loop's variables: `question`, `options`, `answer` and `questions`. */
  datatype ParserState = ParserState(question: Option<string>, options: seq<string>,
                                     answer: Option<string>, questions: seq<Question>)

  const Init := ParserState(None, [], None, [])

  /** True when a `~Q` line turns the open block into a Question. */
  predicate Finalises(st: ParserState, line: string) {
    Classify(line) == PromptMarker && Truthy(st.question) && Truthy(st.answer)
  }

  /** One iteration of the loop body. */
  function Step(st: ParserState, line: string): ParserState {
    var modLine := Payload(line);
    match Classify(line)
    case PromptMarker =>
      if Truthy(st.question) && Truthy(st.answer) then
        st.(questions := st.questions + [Question(st.options, st.question, st.answer)],
            options := [], question := Some(modLine))
      else if Truthy(st.question) && !Truthy(st.answer) then
        st.(options := [], question := Some(modLine))
      else
        st.(question := Some(modLine))
    case OptionMarker => st.(options := st.options + [modLine])
    case CorrectMarker => st.(options := st.options + [modLine], answer := Some(modLine))
    case Plain => st
  }

  function Fold(st: ParserState, lines: seq<string>): ParserState
    decreases |lines|
  {
    if lines == [] then st else Fold(Step(st, lines[0]), lines[1..])
  }

  /** After the loop: the open block is appended whatever it holds. */
  function Close(st: ParserState): seq<Question> {
    st.questions + [Question(st.options, st.question, st.answer)]
  }

  /** What `__create_questions` returns for a file of these lines. */
  function Parse(lines: seq<string>): seq<Question> {
    Close(Fold(Init, lines))
  }

  /** `Exam.__create_questions`, with the file given as its lines. */
  method CreateQuestions(lines: seq<string>) returns (questions: seq<Question>)
    ensures questions == Parse(lines)
  {
    var question: Option<string> := None;
    var options: seq<string> := [];
    var answer: Option<string> := None;
    questions := [];
    for i := 0 to |lines|
      invariant Fold(ParserState(question, options, answer, questions), lines[i..]) == Fold(Init, lines)
    {
      var line := lines[i];
      var modLine := Payload(line);
      assert lines[i..][1..] == lines[i + 1..];
      if "~Q" <= line {
        if Truthy(question) && Truthy(answer) {
          questions := questions + [Question(options, question, answer)];
          options := [];
        } else if Truthy(question) && !Truthy(answer) {
          options := [];
        }
        question := Some(modLine);
      } else if "~A" <= line {
        options := options + [modLine];
      } else if "~C" <= line {
        options := options + [modLine];
        answer := Some(modLine);
      }
    }
    questions := questions + [Question(options, question, answer)];
  }

  lemma {:induction false} FoldAppend(st: ParserState, a: seq<string>, b: seq<string>)
    ensures Fold(st, a + b) == Fold(Fold(st, a), b)
    decreases |a|
  {
    if a == [] {
      assert a + b == b;
    } else {
      assert (a + b)[0] == a[0];
      assert (a + b)[1..] == a[1..] + b;
      FoldAppend(Step(st, a[0]), a[1..], b);
    }
  }

  // ---------------------------------------------------------------------
  // Marker lines and their payload

  /**
   * On a marker line the payload is the text after the two-character marker
   * with surrounding whitespace removed.
   */
  lemma MarkerPayload(line: string)
    requires Classify(line) != Plain
    ensures |line| >= 2 && Payload(line) == Strip(line[2..])
  {
    assert !IsSpace(line[0]) && !IsSpace(line[1]);
    assert LStrip(line) == line;
    var t := Strip(line);
    RStripPrefix(line);
    var m := |t|;
    assert m >= 2;
    assert t[2..] == line[2..m];
    assert AllSpace(line[m..]) by {
      assert forall i :: 0 <= i < |line| - m ==> line[m..][i] == line[m + i];
    }
    StripTrailing(line[2..m], line[m..]);
    assert line[2..m] + line[m..] == line[2..];
  }

  /** A two-character marker is a prefix of a line with whitespace appended exactly when it is one of the line. */
  lemma MarkerTrailing(p: string, line: string, w: string)
    requires |p| == 2 && !IsSpace(p[0]) && !IsSpace(p[1]) && AllSpace(w)
    ensures p <= line + w <==> p <= line
  {
    if |line| >= 2 {
      assert (line + w)[..2] == line[..2];
    }
  }

  /**
   * Trailing whitespace, such as the newline `for line in fp` leaves on every
   * line but possibly the last, changes neither the marker nor the payload.
   */
  lemma StepTrailing(st: ParserState, line: string, w: string)
    requires AllSpace(w)
    ensures Classify(line + w) == Classify(line)
    ensures Step(st, line + w) == Step(st, line)
  {
    MarkerTrailing("~Q", line, w);
    MarkerTrailing("~A", line, w);
    MarkerTrailing("~C", line, w);
    StripTrailing(line, w);
  }

  /** The lines of a file, each followed by its own trailing whitespace. */
  function Terminated(lines: seq<string>, ends: seq<string>): (r: seq<string>)
    requires |ends| == |lines|
    ensures |r| == |lines| && forall k :: 0 <= k < |lines| ==> r[k] == lines[k] + ends[k]
  {
    seq(|lines|, k requires 0 <= k < |lines| => lines[k] + ends[k])
  }

  lemma {:induction false} FoldTrailing(st: ParserState, lines: seq<string>, ends: seq<string>)
    requires |ends| == |lines| && forall k :: 0 <= k < |ends| ==> AllSpace(ends[k])
    ensures Fold(st, Terminated(lines, ends)) == Fold(st, lines)
    decreases |lines|
  {
    if lines != [] {
      var t := Terminated(lines, ends);
      StepTrailing(st, lines[0], ends[0]);
      assert t[1..] == Terminated(lines[1..], ends[1..]);
      FoldTrailing(Step(st, lines[0]), lines[1..], ends[1..]);
    }
  }

  /** A file parses the same whatever whitespace ends each of its lines. */
  lemma ParseTrailing(lines: seq<string>, ends: seq<string>)
    requires |ends| == |lines| && forall k :: 0 <= k < |ends| ==> AllSpace(ends[k])
    ensures Parse(Terminated(lines, ends)) == Parse(lines)
  {
    FoldTrailing(Init, lines, ends);
  }

  /** A line is classified by its first two raw characters: `~` followed by Q, A or C. */
  lemma ClassifyByPrefix(line: string)
    ensures Classify(line) ==
      if |line| < 2 || line[0] != '~' then Plain
      else if line[1] == 'Q' then PromptMarker
      else if line[1] == 'A' then OptionMarker
      else if line[1] == 'C' then CorrectMarker
      else Plain
  {
  }

  /** A line that is not a marker can be removed from any file without changing the parse. */
  lemma PlainLineIgnored(a: seq<string>, line: string, b: seq<string>)
    requires Classify(line) == Plain
    ensures Parse(a + [line] + b) == Parse(a + b)
  {
    assert a + [line] + b == a + ([line] + b);
    FoldAppend(Init, a, [line] + b);
    FoldAppend(Init, a, b);
    assert ([line] + b)[1..] == b;
  }

  /** Markers are matched on the raw line: an indented marker is an ignored line. */
  lemma IndentedLineIgnored(st: ParserState, line: string)
    requires |line| > 0 && IsSpace(line[0])
    ensures Classify(line) == Plain && Step(st, line) == st
  {
  }

  /** A line written as a marker, a space and a stripped text carries exactly that text. */
  lemma TaggedPayload(tag: string, text: string)
    requires tag == "~Q " || tag == "~A " || tag == "~C "
    requires Stripped(text)
    ensures Classify(tag + text) == (if tag == "~Q " then PromptMarker
                                     else if tag == "~A " then OptionMarker else CorrectMarker)
    ensures Payload(tag + text) == text
  {
    var line := tag + text;
    assert tag[..2] <= line;
    MarkerPayload(line);
    assert line[2..] == [' '] + text + [];
    StripUnique([' '], text, []);
  }

  // ---------------------------------------------------------------------
  // The lines of one block

  predicate NoPrompt(lines: seq<string>) {
    forall i :: 0 <= i < |lines| ==> Classify(lines[i]) != PromptMarker
  }

  /** Payloads of the `~A` and `~C` lines, in file order. */
  function BlockOptions(lines: seq<string>): seq<string> {
    if lines == [] then []
    else
      (if Classify(lines[0]) == OptionMarker || Classify(lines[0]) == CorrectMarker
       then [Payload(lines[0])] else [])
      + BlockOptions(lines[1..])
  }

  /** Payload of the last `~C` line, if there is one. */
  function LastCorrect(lines: seq<string>): Option<string> {
    if lines == [] then None
    else
      var later := LastCorrect(lines[1..]);
      if later.Some? then later
      else if Classify(lines[0]) == CorrectMarker then Some(Payload(lines[0]))
      else None
  }

  /** LastCorrect finds the last `~C` line, and finds none only when there is none. */
  lemma {:induction false} LastCorrectIsLast(lines: seq<string>)
    ensures LastCorrect(lines).None? <==>
      forall j :: 0 <= j < |lines| ==> Classify(lines[j]) != CorrectMarker
    ensures LastCorrect(lines).Some? ==>
      exists j :: 0 <= j < |lines| && Classify(lines[j]) == CorrectMarker &&
        LastCorrect(lines).value == Payload(lines[j]) &&
        forall k :: j < k < |lines| ==> Classify(lines[k]) != CorrectMarker
  {
    if lines != [] {
      var rest := lines[1..];
      LastCorrectIsLast(rest);
      assert forall j :: 1 <= j < |lines| ==> lines[j] == rest[j - 1];
      if LastCorrect(rest).Some? {
        var j :| 0 <= j < |rest| && Classify(rest[j]) == CorrectMarker &&
          LastCorrect(rest).value == Payload(rest[j]) &&
          forall k :: j < k < |rest| ==> Classify(rest[k]) != CorrectMarker;
        assert Classify(lines[j + 1]) == CorrectMarker;
      }
    }
  }

  /** The answer a block records is one of that block's options. */
  lemma {:induction false} LastCorrectIsOption(lines: seq<string>)
    ensures LastCorrect(lines).Some? ==> LastCorrect(lines).value in BlockOptions(lines)
  {
    if lines != [] {
      LastCorrectIsOption(lines[1..]);
    }
  }

  /**
   * Lines without a `~Q` only add options, in order, and set the answer to the
   * last `~C` payload (keeping the previous answer when there is none).
   */
  lemma {:induction false} NoPromptFold(st: ParserState, lines: seq<string>)
    requires NoPrompt(lines)
    ensures Fold(st, lines) ==
      st.(options := st.options + BlockOptions(lines),
          answer := if LastCorrect(lines).Some? then LastCorrect(lines) else st.answer)
    decreases |lines|
  {
    if lines == [] {
      assert st.options + [] == st.options;
    } else {
      var line, rest := lines[0], lines[1..];
      assert NoPrompt(rest) by {
        assert forall j :: 0 <= j < |rest| ==> rest[j] == lines[j + 1];
      }
      var m := Classify(line);
      assert m != PromptMarker;
      var first := if m == OptionMarker || m == CorrectMarker then [Payload(line)] else [];
      var s1 := Step(st, line);
      assert s1 == st.(options := st.options + first,
                       answer := if m == CorrectMarker then Some(Payload(line)) else st.answer);
      NoPromptFold(s1, rest);
      assert BlockOptions(lines) == first + BlockOptions(rest);
      assert st.options + first + BlockOptions(rest) == st.options + (first + BlockOptions(rest));
    }
  }

  /**
   * A `~Q` line followed by its block. The open block becomes a Question only
   * when its prompt and answer are both non-empty; the options are cleared
   * only when the old prompt is non-empty (stray lines before the first `~Q`
   * carry over); the answer is not reset, so a block without `~C` keeps the
   * previous answer.
   */
  lemma PromptBlock(st: ParserState, line: string, block: seq<string>)
    requires Classify(line) == PromptMarker && NoPrompt(block)
    ensures Fold(st, [line] + block) ==
      ParserState(
        Some(Payload(line)),
        (if Truthy(st.question) then [] else st.options) + BlockOptions(block),
        if LastCorrect(block).Some? then LastCorrect(block) else st.answer,
        st.questions + (if Truthy(st.question) && Truthy(st.answer)
                        then [Question(st.options, st.question, st.answer)] else []))
  {
    assert ([line] + block)[0] == line;
    assert ([line] + block)[1..] == block;
    NoPromptFold(Step(st, line), block);
    assert st.questions + [] == st.questions;
  }

  /**
   * A file whose first `~Q` follows stray `~A`/`~C` lines: the single
   * question keeps those options, and their answer when its own block has no `~C`.
   */
  lemma StrayLinesCarryOver(pre: seq<string>, line: string, block: seq<string>)
    requires NoPrompt(pre) && Classify(line) == PromptMarker && NoPrompt(block)
    ensures Parse(pre + [line] + block) ==
      [Question(BlockOptions(pre) + BlockOptions(block), Some(Payload(line)),
                if LastCorrect(block).Some? then LastCorrect(block) else LastCorrect(pre))]
  {
    assert pre + [line] + block == pre + ([line] + block);
    FoldAppend(Init, pre, [line] + block);
    NoPromptFold(Init, pre);
    var st := Fold(Init, pre);
    PromptBlock(st, line, block);
    assert [] + BlockOptions(pre) == BlockOptions(pre);
  }

  /**
   * The answer is not reset at `~Q`: in the file `~Q a`, `~C x`, `~Q b`,
   * `~A y` the second question inherits the answer x although x is not one
   * of its options.
   */
  lemma AnswerNotReset(a: string, x: string, b: string, y: string)
    requires a != "" && x != "" && Stripped(a) && Stripped(x) && Stripped(b) && Stripped(y)
    ensures Parse(["~Q " + a, "~C " + x, "~Q " + b, "~A " + y]) ==
      [Question([x], Some(a), Some(x)), Question([y], Some(b), Some(x))]
  {
    var l1, l2, l3, l4 := "~Q " + a, "~C " + x, "~Q " + b, "~A " + y;
    TaggedPayload("~Q ", a);
    TaggedPayload("~C ", x);
    TaggedPayload("~Q ", b);
    TaggedPayload("~A ", y);
    var s1 := ParserState(Some(a), [], None, []);
    var s2 := ParserState(Some(a), [x], Some(x), []);
    var s3 := ParserState(Some(b), [], Some(x), [Question([x], Some(a), Some(x))]);
    var s4 := ParserState(Some(b), [y], Some(x), [Question([x], Some(a), Some(x))]);
    assert Step(Init, l1) == s1;
    assert Step(s1, l2) == s2;
    assert Step(s2, l3) == s3;
    assert Step(s3, l4) == s4;
    FoldSteps(Init, l1, l2, l3, l4);
  }

  /**
   * A prompt whose block has no answer (before any answer was seen) is
   * dropped with its options: `~Q a`, `~A x`, `~Q b`, `~C y` gives one question.
   */
  lemma AnswerlessBlockDropped(a: string, x: string, b: string, y: string)
    requires a != "" && Stripped(a) && Stripped(x) && Stripped(b) && Stripped(y)
    ensures Parse(["~Q " + a, "~A " + x, "~Q " + b, "~C " + y]) == [Question([y], Some(b), Some(y))]
  {
    var l1, l2, l3, l4 := "~Q " + a, "~A " + x, "~Q " + b, "~C " + y;
    TaggedPayload("~Q ", a);
    TaggedPayload("~A ", x);
    TaggedPayload("~Q ", b);
    TaggedPayload("~C ", y);
    var s1 := ParserState(Some(a), [], None, []);
    var s2 := ParserState(Some(a), [x], None, []);
    var s3 := ParserState(Some(b), [], None, []);
    var s4 := ParserState(Some(b), [y], Some(y), []);
    assert Step(Init, l1) == s1;
    assert Step(s1, l2) == s2;
    assert Step(s2, l3) == s3;
    assert Step(s3, l4) == s4;
    FoldSteps(Init, l1, l2, l3, l4);
  }

  /** A bare `~Q` line is a prompt marker with an empty payload. */
  lemma BarePrompt()
    ensures Classify("~Q") == PromptMarker && Payload("~Q") == ""
  {
    MarkerPayload("~Q");
    assert "~Q"[2..] == [];
  }

  /**
   * A bare `~Q` sets an empty prompt, which is not truthy: at the next `~Q`
   * nothing is appended and the options are not cleared, so the options of
   * its block pass to the next question.
   */
  lemma EmptyPromptKeepsOptions(x: string, b: string, y: string)
    requires Stripped(x) && Stripped(b) && Stripped(y)
    ensures Parse(["~Q", "~A " + x, "~Q " + b, "~C " + y]) == [Question([x, y], Some(b), Some(y))]
  {
    BarePrompt();
    TaggedPayload("~A ", x);
    TaggedPayload("~Q ", b);
    TaggedPayload("~C ", y);
    var s1 := ParserState(Some(""), [], None, []);
    var s2 := ParserState(Some(""), [x], None, []);
    var s3 := ParserState(Some(b), [x], None, []);
    assert Step(Init, "~Q") == s1;
    assert Step(s1, "~A " + x) == s2;
    assert Step(s2, "~Q " + b) == s3;
    assert Step(s3, "~C " + y) == ParserState(Some(b), [x, y], Some(y), []);
    FoldSteps(Init, "~Q", "~A " + x, "~Q " + b, "~C " + y);
  }

  /** The answer set in the block of a bare `~Q` passes, with its option, to the next question. */
  lemma EmptyPromptKeepsAnswer(x: string, b: string, y: string)
    requires Stripped(x) && Stripped(b) && Stripped(y)
    ensures Parse(["~Q", "~C " + x, "~Q " + b, "~A " + y]) == [Question([x, y], Some(b), Some(x))]
  {
    BarePrompt();
    TaggedPayload("~C ", x);
    TaggedPayload("~Q ", b);
    TaggedPayload("~A ", y);
    var s1 := ParserState(Some(""), [], None, []);
    var s2 := ParserState(Some(""), [x], Some(x), []);
    var s3 := ParserState(Some(b), [x], Some(x), []);
    assert Step(Init, "~Q") == s1;
    assert Step(s1, "~C " + x) == s2;
    assert Step(s2, "~Q " + b) == s3;
    assert Step(s3, "~A " + y) == ParserState(Some(b), [x, y], Some(x), []);
    FoldSteps(Init, "~Q", "~C " + x, "~Q " + b, "~A " + y);
  }

  lemma FoldSteps(st: ParserState, l1: string, l2: string, l3: string, l4: string)
    ensures Fold(st, [l1, l2, l3, l4]) == Step(Step(Step(Step(st, l1), l2), l3), l4)
  {
    var s1 := Step(st, l1);
    var s2 := Step(s1, l2);
    var s3 := Step(s2, l3);
    assert [l1, l2, l3, l4][1..] == [l2, l3, l4];
    assert [l2, l3, l4][1..] == [l3, l4];
    assert [l3, l4][1..] == [l4];
    assert Fold(st, [l1, l2, l3, l4]) == Fold(s1, [l2, l3, l4]);
    assert Fold(s1, [l2, l3, l4]) == Fold(s2, [l3, l4]);
    assert Fold(s2, [l3, l4]) == Fold(s3, [l4]);
  }

  // ---------------------------------------------------------------------
  // Shape of the output

  /** Number of `~Q` lines that turn an open block into a Question. */
  function Finalisations(st: ParserState, lines: seq<string>): nat
    decreases |lines|
  {
    if lines == [] then 0
    else (if Finalises(st, lines[0]) then 1 else 0) + Finalisations(Step(st, lines[0]), lines[1..])
  }

  /**
   * Questions are only ever appended: the fold extends the list by one per
   * finalising `~Q`, and every question it adds has a non-empty prompt and answer.
   */
  lemma {:induction false} FoldQuestions(st: ParserState, lines: seq<string>)
    ensures var r := Fold(st, lines).questions;
      st.questions <= r && |r| == |st.questions| + Finalisations(st, lines) &&
      forall i :: |st.questions| <= i < |r| ==> Truthy(r[i].question) && Truthy(r[i].answer)
    decreases |lines|
  {
    if lines != [] {
      FoldQuestions(Step(st, lines[0]), lines[1..]);
    }
  }

  /** The prompt stays None exactly as long as no `~Q` line has been read. */
  lemma {:induction false} PromptUnset(st: ParserState, lines: seq<string>)
    ensures Fold(st, lines).question.None? <==> st.question.None? && NoPrompt(lines)
    decreases |lines|
  {
    if lines != [] {
      var rest := lines[1..];
      PromptUnset(Step(st, lines[0]), rest);
      assert forall j :: 0 <= j < |rest| ==> rest[j] == lines[j + 1];
    }
  }

  /**
   * The parse always ends with the open block: one more question than there
   * are finalising `~Q` lines (an empty file gives one question). All but the
   * last have a non-empty prompt and answer, and the last has no prompt
   * exactly when the file has no `~Q` line.
   */
  lemma ParseShape(lines: seq<string>)
    ensures |Parse(lines)| == Finalisations(Init, lines) + 1
    ensures forall i :: 0 <= i < |Parse(lines)| - 1 ==>
      Truthy(Parse(lines)[i].question) && Truthy(Parse(lines)[i].answer)
    ensures Parse(lines)[|Parse(lines)| - 1].question.None? <==> NoPrompt(lines)
  {
    FoldQuestions(Init, lines);
    PromptUnset(Init, lines);
  }

  lemma EmptyFile()
    ensures Parse([]) == [Question([], None, None)]
  {
  }

  // ---------------------------------------------------------------------
  // Well-formed files: serialising a question bank and parsing it back

  /** A question as an author writes it: a prompt, options, and the position of the correct one. */
  datatype Entry = Entry(prompt: string, options: seq<string>, correct: nat)

  predicate WellFormed(e: Entry) {
    && e.prompt != "" && Stripped(e.prompt)
    && e.correct < |e.options| && e.options[e.correct] != ""
    && forall i :: 0 <= i < |e.options| ==> Stripped(e.options[i])
  }

  predicate AllWellFormed(entries: seq<Entry>) {
    forall i :: 0 <= i < |entries| ==> WellFormed(entries[i])
  }

  /** One `~A` line per option, except `~C` for position c. */
  function OptionLines(options: seq<string>, c: int): seq<string> {
    if options == [] then []
    else [(if c == 0 then "~C " else "~A ") + options[0]] + OptionLines(options[1..], c - 1)
  }

  function EntryLines(e: Entry): seq<string> {
    ["~Q " + e.prompt] + OptionLines(e.options, e.correct)
  }

  function Serialize(entries: seq<Entry>): seq<string> {
    if entries == [] then [] else EntryLines(entries[0]) + Serialize(entries[1..])
  }

  function Expected(e: Entry): Question
    requires e.correct < |e.options|
  {
    Question(e.options, Some(e.prompt), Some(e.options[e.correct]))
  }

  function Expectations(entries: seq<Entry>): seq<Question>
    requires AllWellFormed(entries)
  {
    if entries == [] then [] else [Expected(entries[0])] + Expectations(entries[1..])
  }

  /** The first line of an option block: `~C` at the correct position, `~A` elsewhere. */
  lemma OptionLinesHead(options: seq<string>, c: int)
    requires options != [] && Stripped(options[0])
    ensures var ls := OptionLines(options, c);
      Classify(ls[0]) == (if c == 0 then CorrectMarker else OptionMarker) &&
      Payload(ls[0]) == options[0] && ls[1..] == OptionLines(options[1..], c - 1)
  {
    TaggedPayload(if c == 0 then "~C " else "~A ", options[0]);
  }

  lemma {:induction false} OptionLinesNoPrompt(options: seq<string>, c: int)
    requires forall i :: 0 <= i < |options| ==> Stripped(options[i])
    ensures NoPrompt(OptionLines(options, c))
  {
    if options != [] {
      OptionLinesHead(options, c);
      OptionLinesNoPrompt(options[1..], c - 1);
      var ls := OptionLines(options, c);
      forall j | 0 <= j < |ls|
        ensures Classify(ls[j]) != PromptMarker
      {
        if j > 0 {
          assert ls[j] == ls[1..][j - 1];
        }
      }
    }
  }

  lemma {:induction false} OptionLinesOptions(options: seq<string>, c: int)
    requires forall i :: 0 <= i < |options| ==> Stripped(options[i])
    ensures BlockOptions(OptionLines(options, c)) == options
  {
    if options != [] {
      OptionLinesHead(options, c);
      OptionLinesOptions(options[1..], c - 1);
      assert [options[0]] + options[1..] == options;
    }
  }

  lemma {:induction false} OptionLinesAnswer(options: seq<string>, c: int)
    requires forall i :: 0 <= i < |options| ==> Stripped(options[i])
    ensures LastCorrect(OptionLines(options, c)) == if 0 <= c < |options| then Some(options[c]) else None
  {
    if options != [] {
      OptionLinesHead(options, c);
      OptionLinesAnswer(options[1..], c - 1);
    }
  }

  /** A block of a well-formed entry finalises the pending question and leaves the entry open. */
  lemma EntryFold(st: ParserState, e: Entry)
    requires WellFormed(e)
    requires (Truthy(st.question) && Truthy(st.answer)) || (!Truthy(st.question) && st.options == [])
    ensures Fold(st, EntryLines(e)) ==
      ParserState(Some(e.prompt), e.options, Some(e.options[e.correct]),
                  st.questions + (if Truthy(st.question) && Truthy(st.answer)
                                  then [Question(st.options, st.question, st.answer)] else []))
  {
    TaggedPayload("~Q ", e.prompt);
    OptionLinesNoPrompt(e.options, e.correct);
    OptionLinesOptions(e.options, e.correct);
    OptionLinesAnswer(e.options, e.correct);
    PromptBlock(st, "~Q " + e.prompt, OptionLines(e.options, e.correct));
    assert [] + e.options == e.options;
  }

  lemma {:induction false} SerializeFold(st: ParserState, entries: seq<Entry>)
    requires entries != [] && AllWellFormed(entries)
    requires (Truthy(st.question) && Truthy(st.answer)) || (!Truthy(st.question) && st.options == [])
    ensures Close(Fold(st, Serialize(entries))) ==
      st.questions + (if Truthy(st.question) && Truthy(st.answer)
                      then [Question(st.options, st.question, st.answer)] else [])
      + Expectations(entries)
    decreases |entries|
  {
    var e, rest := entries[0], entries[1..];
    FoldAppend(st, EntryLines(e), Serialize(rest));
    EntryFold(st, e);
    var st1 := Fold(st, EntryLines(e));
    var pending := if Truthy(st.question) && Truthy(st.answer)
                   then [Question(st.options, st.question, st.answer)] else [];
    if rest == [] {
      assert Serialize(rest) == [];
      assert Expectations(entries) == [Expected(e)];
    } else {
      assert AllWellFormed(rest) by {
        forall i | 0 <= i < |rest|
          ensures WellFormed(rest[i])
        {
          assert rest[i] == entries[i + 1];
        }
      }
      assert Truthy(st1.question) && Truthy(st1.answer);
      SerializeFold(st1, rest);
      assert Expectations(entries) == [Expected(e)] + Expectations(rest);
      Associate(st.questions + pending, [Expected(e)], Expectations(rest));
    }
  }

  lemma Associate(a: seq<Question>, b: seq<Question>, c: seq<Question>)
    ensures a + b + c == a + (b + c)
  {
  }

  /**
   * Round trip: a file written from well-formed questions, each block a `~Q`
   * line and its `~A`/`~C` lines with one `~C`, parses back to those
   * questions, in order, each with its correct option as the answer.
   */
  lemma RoundTrip(entries: seq<Entry>)
    requires entries != [] && AllWellFormed(entries)
    ensures Parse(Serialize(entries)) == Expectations(entries)
    ensures var qs := Parse(Serialize(entries));
      |qs| == |entries| &&
      forall i :: 0 <= i < |entries| ==>
        qs[i].question == Some(entries[i].prompt) && qs[i].options == entries[i].options &&
        qs[i].answer == Some(entries[i].options[entries[i].correct])
  {
    var qs := Parse(Serialize(entries));
    ParseSerialize(entries);
    ExpectationsAt(entries);
    forall i | 0 <= i < |entries|
      ensures qs[i].question == Some(entries[i].prompt) && qs[i].options == entries[i].options &&
              qs[i].answer == Some(entries[i].options[entries[i].correct])
    {
      assert qs[i] == Expected(entries[i]);
    }
  }

  lemma ParseSerialize(entries: seq<Entry>)
    requires entries != [] && AllWellFormed(entries)
    ensures Parse(Serialize(entries)) == Expectations(entries)
  {
    var ex := Expectations(entries);
    SerializeFold(Init, entries);
    assert [] + [] + ex == ex;
  }

  lemma {:induction false} ExpectationsAt(entries: seq<Entry>)
    requires AllWellFormed(entries)
    ensures |Expectations(entries)| == |entries|
    ensures forall i :: 0 <= i < |entries| ==> Expectations(entries)[i] == Expected(entries[i])
  {
    if entries != [] {
      ExpectationsAt(entries[1..]);
    }
  }
}
