/**
 * `Exam.run` and `Exam.__get_answer_key`: the quiz over a parsed question
 * bank, with the user's input given as the lines `input()` would return.
 */
module Exam {
  import opened Wrappers
  import opened Text
  import opened Questions

  /** `Exam.__get_answer_key`: the answer of every question, in bank order. */
  method GetAnswerKey(questions: seq<Question>) returns (answers: seq<Option<string>>)
    ensures |answers| == |questions|
    ensures forall i :: 0 <= i < |questions| ==> answers[i] == questions[i].answer
  {
    answers := [];
    for i := 0 to |questions|
      invariant |answers| == i
      invariant forall j :: 0 <= j < i ==> answers[j] == questions[j].answer
    {
      answers := answers + [questions[i].answer];
    }
  }

  // ---------------------------------------------------------------------
  // The validation loop

  /** The line is an integer in 1..n, the only input the validation loop leaves on. */
  predicate Accepts(line: string, n: nat) {
    var c := ParseInt(line);
    c.Some? && 0 < c.value <= n
  }

  /** An accepted choice and the position of the next unread input line. */
  datatype Pick = Pick(choice: nat, next: nat)

  /** The validation loop from input position `pos`: the first accepted line, if any. */
  function Choose(input: seq<string>, pos: nat, n: nat): (r: Option<Pick>)
    requires pos <= |input|
    ensures r.Some? ==> 1 <= r.value.choice <= n && pos < r.value.next <= |input|
    decreases |input| - pos
  {
    if pos == |input| then None
    else if Accepts(input[pos], n) then Some(Pick(ParseInt(input[pos]).value as nat, pos + 1))
    else Choose(input, pos + 1, n)
  }

  /**
   * The validation loop takes the first line that is an integer in 1..n,
   * skipping every rejected line before it, and finds nothing only when no
   * remaining line is acceptable.
   */
  lemma {:induction false} ChooseSpec(input: seq<string>, pos: nat, n: nat, c: nat, p: nat)
    requires pos <= |input|
    ensures Choose(input, pos, n) == Some(Pick(c, p)) <==>
      pos < p <= |input| && Accepts(input[p - 1], n) && ParseInt(input[p - 1]) == Some(c as int) &&
      forall j :: pos <= j < p - 1 ==> !Accepts(input[j], n)
    ensures Choose(input, pos, n).None? <==> forall j :: pos <= j < |input| ==> !Accepts(input[j], n)
    decreases |input| - pos
  {
    if pos < |input| {
      ChooseSpec(input, pos + 1, n, c, p);
    }
  }

  // ---------------------------------------------------------------------
  // The run

  /** Why the run stops early: `str(question)` raises TypeError, or `input()` raises EOFError. */
  datatype Abort = PromptMissing | InputExhausted

  /** An entry of the `incorrect` list: which question (by bank position) and the guess. */
  datatype Miss = Miss(index: nat, guess: string)

  datatype RunResult =
    | Finished(correct: nat, missed: seq<Miss>, consumed: nat)
    | Aborted(reason: Abort, at: nat)

  /** The guesses made for the questions from some position on, or where the run stopped. */
  datatype Play = Played(guesses: seq<string>, consumed: nat) | Stopped(reason: Abort, at: nat)

  function Prepend(guesses: seq<string>, p: Play): Play {
    match p
    case Played(rest, consumed) => Played(guesses + rest, consumed)
    case Stopped(_, _) => p
  }

  /** What asking one question yields: the option picked and the next input position, or why it stopped. */
  datatype Reply = Answered(guess: string, next: nat) | Unanswered(reason: Abort)

  /**
   * One iteration of the question loop: show the question (TypeError when it
   * has no prompt), then validate input lines until one picks an option.
   */
  function Ask(q: Question, input: seq<string>, pos: nat): (r: Reply)
    requires pos <= |input|
    ensures r.Answered? ==> q.question.Some? && r.guess in q.options && pos < r.next <= |input|
    ensures r == Unanswered(PromptMissing) <==> Render(q).None?
  {
    if q.question.None? then Unanswered(PromptMissing)
    else match Choose(input, pos, |q.options|)
      case None => Unanswered(InputExhausted)
      case Some(pick) => Answered(q.options[pick.choice - 1], pick.next)
  }

  /** Questions i.. of the bank asked in order, reading input from position pos. */
  function PlayFrom(qs: seq<Question>, i: nat, input: seq<string>, pos: nat): (r: Play)
    requires i <= |qs| && pos <= |input|
    ensures r.Played? ==> |r.guesses| == |qs| - i && pos <= r.consumed <= |input|
    ensures r.Stopped? ==> i <= r.at < |qs|
    decreases |qs| - i
  {
    if i == |qs| then Played([], pos)
    else match Ask(qs[i], input, pos)
      case Unanswered(reason) => Stopped(reason, i)
      case Answered(guess, next) => Prepend([guess], PlayFrom(qs, i + 1, input, next))
  }

  /** Number of the first |gs| questions whose guess equals the answer. */
  function Hits(qs: seq<Question>, gs: seq<string>): nat
    requires |gs| <= |qs|
  {
    if gs == [] then 0
    else Hits(qs, gs[..|gs| - 1]) + (if Some(gs[|gs| - 1]) == qs[|gs| - 1].answer then 1 else 0)
  }

  /** The `incorrect` list after the first |gs| questions. */
  function Misses(qs: seq<Question>, gs: seq<string>): seq<Miss>
    requires |gs| <= |qs|
  {
    if gs == [] then []
    else
      Misses(qs, gs[..|gs| - 1]) +
      (if Some(gs[|gs| - 1]) == qs[|gs| - 1].answer then [] else [Miss(|gs| - 1, gs[|gs| - 1])])
  }

  /** What `run` produces for a bank and the user's input lines. */
  function Quiz(qs: seq<Question>, input: seq<string>): RunResult {
    match PlayFrom(qs, 0, input, 0)
    case Stopped(reason, at) => Aborted(reason, at)
    case Played(gs, consumed) => Finished(Hits(qs, gs), Misses(qs, gs), consumed)
  }

  // ---------------------------------------------------------------------
  // The missed-question report

  /** Entries of ms that are about question i, in order (`question in lst`). */
  function Matches(i: nat, ms: seq<Miss>): seq<Miss> {
    if ms == [] then []
    else Matches(i, ms[..|ms| - 1]) + (if ms[|ms| - 1].index == i then [ms[|ms| - 1]] else [])
  }

  /** What the report loop prints for the first k questions. */
  function Report(k: nat, ms: seq<Miss>): seq<Miss> {
    if k == 0 then [] else Report(k - 1, ms) + Matches(k - 1, ms)
  }

  predicate Increasing(ms: seq<Miss>) {
    forall a, b :: 0 <= a < b < |ms| ==> ms[a].index < ms[b].index
  }

  /** The report loop: for each question in bank order, every `incorrect` entry about it. */
  method MissedReport(questions: seq<Question>, incorrect: seq<Miss>) returns (report: seq<Miss>)
    ensures report == Report(|questions|, incorrect)
  {
    report := [];
    for qi := 0 to |questions|
      invariant report == Report(qi, incorrect)
    {
      for j := 0 to |incorrect|
        invariant report == Report(qi, incorrect) + Matches(qi, incorrect[..j])
      {
        ghost var done := Matches(qi, incorrect[..j]);
        assert incorrect[..j + 1][..j] == incorrect[..j];
        if incorrect[j].index == qi {
          assert Report(qi, incorrect) + done + [incorrect[j]] == Report(qi, incorrect) + (done + [incorrect[j]]);
          report := report + [incorrect[j]];
        }
      }
      assert incorrect[..|incorrect|] == incorrect;
    }
  }

  /**
   * The validation loop of `Exam.run`: read lines until one is an integer in
   * 1..n. None when the input runs out first (`input()` raises EOFError).
   */
  method ReadChoice(input: seq<string>, pos: nat, n: nat) returns (r: Option<Pick>)
    requires pos <= |input|
    ensures r == Choose(input, pos, n)
  {
    var at := pos;
    while true
      invariant pos <= at <= |input|
      invariant Choose(input, pos, n) == Choose(input, at, n)
      decreases |input| - at
    {
      if at == |input| {
        return None;
      }
      var parsed := ParseInt(input[at]);
      at := at + 1;
      if parsed.Some? && 0 < parsed.value <= n {
        return Some(Pick(parsed.value, at));
      }
    }
  }

  /** One iteration of the question loop of `Exam.run`: render the question, then read a valid choice. */
  method AskQuestion(question: Question, input: seq<string>, pos: nat) returns (r: Reply)
    requires pos <= |input|
    ensures r == Ask(question, input, pos)
  {
    var text := Str(question);
    if text.None? {
      return Unanswered(PromptMissing);
    }
    var pick := ReadChoice(input, pos, |question.options|);
    if pick.None? {
      return Unanswered(InputExhausted);
    }
    return Answered(question.options[pick.value.choice - 1], pick.value.next);
  }

  /** `Exam.run`: ask every question, validate the input, score, then report the misses. */
  method Run(questions: seq<Question>, input: seq<string>) returns (r: RunResult)
    ensures r == Quiz(questions, input)
  {
    var correct := 0;
    var incorrect: seq<Miss> := [];
    var pos: nat := 0;
    ghost var guesses: seq<string> := [];
    for i := 0 to |questions|
      invariant pos <= |input| && |guesses| == i
      invariant Prepend(guesses, PlayFrom(questions, i, input, pos)) == PlayFrom(questions, 0, input, 0)
      invariant correct == Hits(questions, guesses) && incorrect == Misses(questions, guesses)
    {
      var question := questions[i];
      var reply := AskQuestion(question, input, pos);
      if reply.Unanswered? {
        QuizStops(questions, i, input, pos, guesses, reply.reason);
        return Aborted(reply.reason, i);
      }
      var chosen := reply.guess;
      PlayStep(questions, i, input, pos, guesses);
      ScoreStep(questions, guesses, chosen);
      pos := reply.next;
      guesses := guesses + [chosen];
      if Some(chosen) == question.answer {
        correct := correct + 1;
      } else {
        incorrect := incorrect + [Miss(i, chosen)];
      }
    }
    QuizEnds(questions, input, pos, guesses);
    ReportOfMisses(questions, guesses, |guesses|);
    assert guesses[..|guesses|] == guesses;
    var report := MissedReport(questions, incorrect);
    return Finished(correct, report, pos);
  }

  /** A run that stops at question i aborts the whole quiz there. */
  lemma QuizStops(qs: seq<Question>, i: nat, input: seq<string>, pos: nat, gs: seq<string>, reason: Abort)
    requires i < |qs| && pos <= |input|
    requires Prepend(gs, PlayFrom(qs, i, input, pos)) == PlayFrom(qs, 0, input, 0)
    requires PlayFrom(qs, i, input, pos) == Stopped(reason, i)
    ensures Quiz(qs, input) == Aborted(reason, i)
  {
  }

  /** A run that got past the last question finishes with the guesses made. */
  lemma QuizEnds(qs: seq<Question>, input: seq<string>, pos: nat, gs: seq<string>)
    requires pos <= |input|
    requires Prepend(gs, PlayFrom(qs, |qs|, input, pos)) == PlayFrom(qs, 0, input, 0)
    ensures |gs| == |qs|
    ensures Quiz(qs, input) == Finished(Hits(qs, gs), Misses(qs, gs), pos)
  {
    assert gs + [] == gs;
  }

  /** Scoring one more guess: Hits and Misses grow by that guess alone. */
  lemma ScoreStep(qs: seq<Question>, gs: seq<string>, g: string)
    requires |gs| < |qs|
    ensures Hits(qs, gs + [g]) == Hits(qs, gs) + (if Some(g) == qs[|gs|].answer then 1 else 0)
    ensures Misses(qs, gs + [g]) == Misses(qs, gs) + (if Some(g) == qs[|gs|].answer then [] else [Miss(|gs|, g)])
  {
  }

  /** Answering question i moves its guess onto the guesses. */
  lemma PlayStep(qs: seq<Question>, i: nat, input: seq<string>, pos: nat, gs: seq<string>)
    requires i < |qs| && pos <= |input| && Ask(qs[i], input, pos).Answered?
    ensures var reply := Ask(qs[i], input, pos);
      Prepend(gs, PlayFrom(qs, i, input, pos)) == Prepend(gs + [reply.guess], PlayFrom(qs, i + 1, input, reply.next))
  {
  }

  // ---------------------------------------------------------------------
  // Scoring

  /** Every question asked is scored exactly once: correct plus missed is the number asked. */
  lemma {:induction false} ScoredOnce(qs: seq<Question>, gs: seq<string>)
    requires |gs| <= |qs|
    ensures Hits(qs, gs) + |Misses(qs, gs)| == |gs|
  {
    if gs != [] {
      ScoredOnce(qs, gs[..|gs| - 1]);
    }
  }

  /** Every `incorrect` entry is about an answered question, records its guess, and that guess was wrong. */
  lemma {:induction false} MissesSound(qs: seq<Question>, gs: seq<string>)
    requires |gs| <= |qs|
    ensures forall j :: 0 <= j < |Misses(qs, gs)| ==>
      var m := Misses(qs, gs)[j];
      m.index < |gs| && m.guess == gs[m.index] && Some(m.guess) != qs[m.index].answer
  {
    if gs != [] {
      var init := gs[..|gs| - 1];
      MissesSound(qs, init);
      var ms0, ms := Misses(qs, init), Misses(qs, gs);
      forall j | 0 <= j < |ms|
        ensures ms[j].index < |gs| && ms[j].guess == gs[ms[j].index] && Some(ms[j].guess) != qs[ms[j].index].answer
      {
        if j < |ms0| {
          assert ms[j] == ms0[j];
          assert init[ms0[j].index] == gs[ms0[j].index];
        }
      }
    }
  }

  /** Every answered question whose guess differs from its answer has its entry in `incorrect`. */
  lemma {:induction false} MissesComplete(qs: seq<Question>, gs: seq<string>)
    requires |gs| <= |qs|
    ensures forall i :: 0 <= i < |gs| && Some(gs[i]) != qs[i].answer ==> Miss(i, gs[i]) in Misses(qs, gs)
  {
    if gs != [] {
      var last := |gs| - 1;
      var init := gs[..last];
      MissesComplete(qs, init);
      var ms0, ms := Misses(qs, init), Misses(qs, gs);
      forall i | 0 <= i < |gs| && Some(gs[i]) != qs[i].answer
        ensures Miss(i, gs[i]) in ms
      {
        if i < last {
          assert init[i] == gs[i];
          var j :| 0 <= j < |ms0| && ms0[j] == Miss(i, init[i]);
          assert ms[j] == ms0[j];
        } else {
          assert ms[|ms| - 1] == Miss(last, gs[last]);
        }
      }
    }
  }

  /** The `incorrect` list is in bank order. */
  lemma {:induction false} MissesIncreasing(qs: seq<Question>, gs: seq<string>)
    requires |gs| <= |qs|
    ensures Increasing(Misses(qs, gs))
  {
    if gs != [] {
      var init := gs[..|gs| - 1];
      MissesIncreasing(qs, init);
      MissesSound(qs, init);
      var ms0, ms := Misses(qs, init), Misses(qs, gs);
      forall a, b | 0 <= a < b < |ms|
        ensures ms[a].index < ms[b].index
      {
        if b < |ms0| {
          assert ms[a] == ms0[a] && ms[b] == ms0[b];
        } else {
          assert ms[a] == ms0[a];
        }
      }
    }
  }

  /**
   * The `incorrect` list is in bank order and holds exactly the missed
   * questions, each with its guess.
   */
  lemma MissesExact(qs: seq<Question>, gs: seq<string>)
    requires |gs| <= |qs|
    ensures Increasing(Misses(qs, gs))
    ensures forall j :: 0 <= j < |Misses(qs, gs)| ==>
      var m := Misses(qs, gs)[j];
      m.index < |gs| && m.guess == gs[m.index] && Some(m.guess) != qs[m.index].answer
    ensures forall i :: 0 <= i < |gs| && Some(gs[i]) != qs[i].answer ==> Miss(i, gs[i]) in Misses(qs, gs)
  {
    MissesIncreasing(qs, gs);
    MissesSound(qs, gs);
    MissesComplete(qs, gs);
  }

  /** A question lands in `incorrect` if and only if its guess differs from its answer. */
  lemma MissedIff(qs: seq<Question>, gs: seq<string>, i: nat)
    requires |gs| <= |qs| && i < |gs|
    ensures (exists j :: 0 <= j < |Misses(qs, gs)| && Misses(qs, gs)[j].index == i) <==>
            Some(gs[i]) != qs[i].answer
  {
    MissesExact(qs, gs);
    var ms := Misses(qs, gs);
    if Some(gs[i]) != qs[i].answer {
      assert Miss(i, gs[i]) in ms;
      var j :| 0 <= j < |ms| && ms[j] == Miss(i, gs[i]);
      assert ms[j].index == i;
      assert exists k :: 0 <= k < |Misses(qs, gs)| && Misses(qs, gs)[k].index == i;
    } else {
      forall j | 0 <= j < |ms|
        ensures ms[j].index != i
      {
        var m := ms[j];
        assert m.guess == gs[m.index] && Some(m.guess) != qs[m.index].answer;
      }
    }
  }

  // ---------------------------------------------------------------------
  // The report lists each missed question once, in bank order

  lemma {:induction false} MatchesAppend(i: nat, a: seq<Miss>, b: seq<Miss>)
    ensures Matches(i, a + b) == Matches(i, a) + Matches(i, b)
    decreases |b|
  {
    if b == [] {
      assert a + b == a;
    } else {
      var init := b[..|b| - 1];
      assert (a + b)[..|a + b| - 1] == a + init;
      MatchesAppend(i, a, init);
    }
  }

  /** The entries of `incorrect` about question i: one when i was missed, none otherwise. */
  lemma {:induction false} MatchesOfMisses(qs: seq<Question>, gs: seq<string>, i: nat)
    requires |gs| <= |qs|
    ensures Matches(i, Misses(qs, gs)) ==
      if i < |gs| && Some(gs[i]) != qs[i].answer then [Miss(i, gs[i])] else []
    decreases |gs|
  {
    if gs != [] {
      var init := gs[..|gs| - 1];
      var last := if Some(gs[|gs| - 1]) == qs[|gs| - 1].answer then [] else [Miss(|gs| - 1, gs[|gs| - 1])];
      MatchesOfMisses(qs, init, i);
      MatchesAppend(i, Misses(qs, init), last);
      if i < |init| {
        assert init[i] == gs[i];
      }
    }
  }

  /** The report loop prints the `incorrect` list as it is: each miss once, in bank order. */
  lemma {:induction false} ReportOfMisses(qs: seq<Question>, gs: seq<string>, k: nat)
    requires |gs| <= |qs| && k <= |gs|
    ensures Report(k, Misses(qs, gs)) == Misses(qs, gs[..k])
  {
    if k > 0 {
      ReportOfMisses(qs, gs, k - 1);
      MatchesOfMisses(qs, gs, k - 1);
      assert gs[..k][..k - 1] == gs[..k - 1];
    }
  }

  // ---------------------------------------------------------------------
  // The whole run

  /**
   * A run from question i that gets through the bank asked every remaining
   * question: each had a prompt and options, and each guess is one of its options.
   */
  lemma {:induction false} PlayedGuesses(qs: seq<Question>, i: nat, input: seq<string>, pos: nat)
    requires i <= |qs| && pos <= |input|
    requires PlayFrom(qs, i, input, pos).Played?
    ensures var gs := PlayFrom(qs, i, input, pos).guesses;
      forall k :: i <= k < |qs| ==>
        qs[k].question.Some? && |qs[k].options| > 0 && gs[k - i] in qs[k].options
    decreases |qs| - i
  {
    if i < |qs| {
      var reply := Ask(qs[i], input, pos);
      PlayedGuesses(qs, i + 1, input, reply.next);
      var rest := PlayFrom(qs, i + 1, input, reply.next).guesses;
      var gs := PlayFrom(qs, i, input, pos).guesses;
      assert gs == [reply.guess] + rest;
      forall k | i < k < |qs|
        ensures gs[k - i] in qs[k].options
      {
        assert gs[k - i] == rest[k - (i + 1)];
      }
    }
  }

  /**
   * A finished run scored every question once: correct plus missed is the
   * bank size, the misses are in bank order with guesses that are options of
   * their question and differ from its answer; every question had a prompt
   * and at least one option (otherwise the run cannot finish).
   */
  lemma QuizFinished(qs: seq<Question>, input: seq<string>)
    requires Quiz(qs, input).Finished?
    ensures var r := Quiz(qs, input);
      r.correct + |r.missed| == |qs| && r.consumed <= |input| && Increasing(r.missed)
    ensures var r := Quiz(qs, input);
      forall j :: 0 <= j < |r.missed| ==>
        r.missed[j].index < |qs| && r.missed[j].guess in qs[r.missed[j].index].options &&
        Some(r.missed[j].guess) != qs[r.missed[j].index].answer
    ensures forall i :: 0 <= i < |qs| ==> qs[i].question.Some? && |qs[i].options| > 0
  {
    var p := PlayFrom(qs, 0, input, 0);
    var gs := p.guesses;
    var r := Quiz(qs, input);
    assert r == Finished(Hits(qs, gs), Misses(qs, gs), p.consumed);
    ScoredOnce(qs, gs);
    MissesExact(qs, gs);
    PlayedGuesses(qs, 0, input, 0);
    forall j | 0 <= j < |r.missed|
      ensures r.missed[j].index < |qs| && r.missed[j].guess in qs[r.missed[j].index].options
    {
      var m := r.missed[j];
      assert m.index < |gs| && m.guess == gs[m.index - 0];
    }
  }
}
