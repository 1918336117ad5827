/**
 * Whole sessions: a file parsed by `Exam.__create_questions` and then played
 * by `Exam.run` against the user's input lines.
 */
module Session {
  import opened Wrappers
  import opened Text
  import opened Questions
  import opened Parser
  import opened Exam

  /**
   * A file without any `~Q` line yields a single question with no prompt,
   * and the run stops at it (TypeError in `str`) before reading any input.
   */
  lemma NoPromptFileAborts(lines: seq<string>, input: seq<string>)
    requires NoPrompt(lines)
    ensures Parse(lines) == [Question(BlockOptions(lines), None, LastCorrect(lines))]
    ensures Quiz(Parse(lines), input) == Aborted(PromptMissing, 0)
  {
    NoPromptFold(Init, lines);
    assert [] + BlockOptions(lines) == BlockOptions(lines);
  }

  /**
   * Typing the number shown in front of option i (with any whitespace
   * `int()` skips around it) picks option i, in one line of input.
   */
  lemma ShownNumberSelects(q: Question, i: nat, input: seq<string>, pos: nat, w1: string, w2: string)
    requires q.question.Some? && i < |q.options| && AllIntSpace(w1) && AllIntSpace(w2)
    requires pos < |input| && input[pos] == w1 + Decimal(i + 1) + w2
    ensures Ask(q, input, pos) == Answered(q.options[i], pos + 1)
  {
    ParseDecimal(w1, i + 1, w2);
  }

  /**
   * A question with a prompt but no options accepts no choice, since no
   * integer lies in 1..0: the validation loop reads the input to its end.
   */
  lemma NoOptionsUnanswerable(q: Question, input: seq<string>, pos: nat)
    requires q.question.Some? && q.options == [] && pos <= |input|
    ensures Ask(q, input, pos) == Unanswered(InputExhausted)
  {
    ChooseSpec(input, pos, 0, 0, 0);
  }

  /** The input that enters, for question k, the number of option cs[k]. */
  function KeyInput(cs: seq<nat>): seq<string> {
    seq(|cs|, k requires 0 <= k < |cs| => Decimal(cs[k] + 1))
  }

  /** Each question has a prompt and cs[k] is the position of an option equal to its answer. */
  predicate Keyed(qs: seq<Question>, cs: seq<nat>) {
    |cs| == |qs| &&
    forall k :: 0 <= k < |qs| ==>
      qs[k].question.Some? && cs[k] < |qs[k].options| && qs[k].answer == Some(qs[k].options[cs[k]])
  }

  /** The keyed input line for question i picks option cs[i]. */
  lemma KeyedAsk(qs: seq<Question>, cs: seq<nat>, i: nat)
    requires Keyed(qs, cs) && i < |qs|
    ensures Ask(qs[i], KeyInput(cs), i) == Answered(qs[i].options[cs[i]], i + 1)
  {
    assert "" + Decimal(cs[i] + 1) + "" == KeyInput(cs)[i];
    ShownNumberSelects(qs[i], cs[i], KeyInput(cs), i, "", "");
  }

  /** The option each keyed input line picks. */
  function KeyedGuesses(qs: seq<Question>, cs: seq<nat>): seq<string>
    requires Keyed(qs, cs)
  {
    seq(|qs|, k requires 0 <= k < |qs| => qs[k].options[cs[k]])
  }

  /** Entering the keyed numbers from question i on picks the keyed options and reads one line each. */
  lemma {:induction false} KeyedPlay(qs: seq<Question>, cs: seq<nat>, i: nat)
    requires Keyed(qs, cs) && i <= |qs|
    ensures PlayFrom(qs, i, KeyInput(cs), i) == Played(KeyedGuesses(qs, cs)[i..], |qs|)
    decreases |qs| - i
  {
    if i < |qs| {
      var gs := KeyedGuesses(qs, cs);
      KeyedAsk(qs, cs, i);
      KeyedPlay(qs, cs, i + 1);
      assert gs[i..] == [gs[i]] + gs[i + 1..];
    }
  }

  /** Guesses that all equal their answers score every one and miss none. */
  lemma {:induction false} AllHits(qs: seq<Question>, gs: seq<string>)
    requires |gs| <= |qs|
    requires forall j :: 0 <= j < |gs| ==> Some(gs[j]) == qs[j].answer
    ensures Hits(qs, gs) == |gs| && Misses(qs, gs) == []
  {
    if gs != [] {
      var init := gs[..|gs| - 1];
      assert forall j :: 0 <= j < |init| ==> init[j] == gs[j];
      AllHits(qs, init);
    }
  }

  /** Entering the number of an option equal to the answer, every time, scores |qs| of |qs|. */
  lemma KeyedRun(qs: seq<Question>, cs: seq<nat>)
    requires Keyed(qs, cs)
    ensures Quiz(qs, KeyInput(cs)) == Finished(|qs|, [], |qs|)
  {
    KeyedPlay(qs, cs, 0);
    var gs := KeyedGuesses(qs, cs);
    assert gs[0..] == gs;
    AllHits(qs, gs);
  }

  /** The position of the `~C` option of every entry. */
  function Keys(entries: seq<Entry>): seq<nat> {
    seq(|entries|, k requires 0 <= k < |entries| => entries[k].correct)
  }

  /**
   * A file written from well-formed questions, answered by entering the
   * number of each `~C` option, scores full marks, misses nothing and reads
   * one input line per question.
   */
  lemma PerfectScore(entries: seq<Entry>)
    requires entries != [] && AllWellFormed(entries)
    ensures Quiz(Parse(Serialize(entries)), KeyInput(Keys(entries))) == Finished(|entries|, [], |entries|)
  {
    var qs := Parse(Serialize(entries));
    var cs := Keys(entries);
    RoundTrip(entries);
    assert Keyed(qs, cs) by {
      forall k | 0 <= k < |qs|
        ensures qs[k].question.Some? && cs[k] < |qs[k].options| && qs[k].answer == Some(qs[k].options[cs[k]])
      {
        assert cs[k] == entries[k].correct;
      }
    }
    KeyedRun(qs, cs);
  }

  /** A one-question bank: the run scores the single reply. */
  lemma SingleQuestion(q: Question, input: seq<string>, g: string, next: nat)
    requires Ask(q, input, 0) == Answered(g, next)
    ensures Quiz([q], input) ==
      if Some(g) == q.answer then Finished(1, [], next) else Finished(0, [Miss(0, g)], next)
  {
    assert PlayFrom([q], 1, input, next) == Played([], next);
    assert [g] + [] == [g];
    assert PlayFrom([q], 0, input, 0) == Played([g], next);
    assert [g][..0] == [];
    assert Hits([q], [g]) == if Some(g) == q.answer then 1 else 0;
    assert Misses([q], [g]) == if Some(g) == q.answer then [] else [Miss(0, g)];
  }

  /** The one-question file of the example session: "2+2?" with options 3, 4 (correct) and 5. */
  const Sample: seq<string> := ["~Q " + "2+2?", "~A " + "3", "~C " + "4", "~A " + "5"]

  const SampleQuestion := Question(["3", "4", "5"], Some("2+2?"), Some("4"))

  lemma SampleParse()
    ensures Parse(Sample) == [SampleQuestion]
  {
    var e := Entry("2+2?", ["3", "4", "5"], 1);
    assert AllWellFormed([e]);
    assert Serialize([e]) == Sample;
    RoundTrip([e]);
  }

  /** Entering 2 picks the correct option 4: score 1/1, nothing missed. */
  lemma SampleCorrect()
    ensures Quiz(Parse(Sample), ["2"]) == Finished(1, [], 1)
  {
    SampleParse();
    assert "" + Decimal(2) + "" == "2";
    ShownNumberSelects(SampleQuestion, 1, ["2"], 0, "", "");
    SingleQuestion(SampleQuestion, ["2"], "4", 1);
  }

  /** Entering 1 or 3 scores 0/1 and reports the guess "3" or "5". */
  lemma SampleMissed()
    ensures Quiz(Parse(Sample), ["1"]) == Finished(0, [Miss(0, "3")], 1)
    ensures Quiz(Parse(Sample), ["3"]) == Finished(0, [Miss(0, "5")], 1)
  {
    SampleParse();
    SampleGuess(0, "1");
    SampleGuess(2, "3");
  }

  /** Entering the number of option i of the sample question is a one-line reply with that option. */
  lemma SampleGuess(i: nat, line: string)
    requires i < 3 && line == Decimal(i + 1)
    ensures Quiz([SampleQuestion], [line]) ==
      if i == 1 then Finished(1, [], 1) else Finished(0, [Miss(0, SampleQuestion.options[i])], 1)
  {
    assert "" + Decimal(i + 1) + "" == line;
    ShownNumberSelects(SampleQuestion, i, [line], 0, "", "");
    SingleQuestion(SampleQuestion, [line], SampleQuestion.options[i], 1);
  }

  /** A non-number and an out-of-range number are read and skipped before " 2 " is accepted. */
  lemma SampleReprompt()
    ensures Quiz(Parse(Sample), ["x", "7", " 2 "]) == Finished(1, [], 3)
  {
    SampleParse();
    var input := ["x", "7", " 2 "];
    assert ParseInt("x") == None;
    ParseDecimal("", 7, "");
    assert "" + Decimal(7) + "" == "7";
    ParseDecimal(" ", 2, " ");
    assert " " + Decimal(2) + " " == " 2 ";
    assert Choose(input, 2, 3) == Some(Pick(2, 3));
    assert Choose(input, 0, 3) == Some(Pick(2, 3));
    SingleQuestion(SampleQuestion, input, "4", 3);
  }

  /** The sample file followed by a second question, "1+1?" with the single option 2. */
  const TwoQuestions: seq<string> := Sample + ["~Q " + "1+1?", "~C " + "2"]

  lemma TwoQuestionsParse()
    ensures Parse(TwoQuestions) == [SampleQuestion, Question(["2"], Some("1+1?"), Some("2"))]
  {
    var e1 := Entry("2+2?", ["3", "4", "5"], 1);
    var e2 := Entry("1+1?", ["2"], 0);
    assert AllWellFormed([e1, e2]);
    assert Serialize([e1]) == Sample;
    assert Serialize([e2]) == ["~Q " + "1+1?", "~C " + "2"];
    assert Serialize([e1, e2]) == Serialize([e1]) + Serialize([e2]);
    RoundTrip([e1, e2]);
  }

  /**
   * A two-question bank whose input ends after the first answer: the run
   * stops at the second question, with no result.
   */
  lemma InputEndsEarly()
    ensures Quiz(Parse(TwoQuestions), ["2"]) == Aborted(InputExhausted, 1)
  {
    TwoQuestionsParse();
    var qs := Parse(TwoQuestions);
    assert "" + Decimal(2) + "" == "2";
    ShownNumberSelects(SampleQuestion, 1, ["2"], 0, "", "");
    assert PlayFrom(qs, 1, ["2"], 1) == Stopped(InputExhausted, 1);
    assert PlayFrom(qs, 0, ["2"], 0) == Stopped(InputExhausted, 1);
  }
}
