# pexam in Dafny

A verified model of `pexam.py`, a small terminal quiz program. It reads an
exam file of marker lines (`~Q` prompt, `~A` option, `~C` correct option),
builds a list of `Question` records, then asks each question. It reads a
choice from the user until one is an integer in 1..N, scores the choice
against the question's answer and reports the missed questions in bank
order.

The model has six modules, one per file:

- `Wrappers` (`wrappers.dfy`): the `Option` type.
- `Text` (`text.dfy`): the Python string behaviour the program relies on.
  - `str.strip()`, with Python's whitespace set.
  - `str(n)`, used for the option numbers.
  - A simplified `int()`, used for the user's choice.
- `Questions` (`question.dfy`): the `Question` record, Python truthiness of
  an optional string, and `Question.__str__`.
  - `Render` is the specification of `__str__`.
  - `Str` is the loop, proved against `Render`.
- `Parser` (`parser.dfy`): `Exam.__create_questions`.
  - `Step` is one iteration of the loop body and `Fold` runs it over the lines.
  - `Parse` is the fold followed by the final append.
  - `CreateQuestions` is the loop, proved equal to `Parse`.
  - The lemmas pin down the parser's edge cases: marker detection, payloads,
    the last `~C` wins, the answer that is never reset, dropped answerless
    blocks, stray options before the first `~Q`, the final append, the length
    of the output, and a round trip for well-formed files.
- `Exam` (`exam.dfy`): `Exam.run` and `Exam.__get_answer_key`.
  - `Choose`, `Ask`, `PlayFrom` and `Quiz` are the specification of `run`:
    the validation loop, one question, the question loop, and the whole run.
  - `ReadChoice`, `AskQuestion`, `Run` and `MissedReport` are the loops,
    each proved against its function.
  - The lemmas cover scoring (each question is scored once; a question is
    missed if and only if its guess differs from its answer) and the report
    (each miss once, in bank order).
- `Session` (`session.dfy`): whole sessions, from a file's lines through a
  run on given input lines.
  - A file without a prompt aborts the run.
  - Typing the number shown for option i picks option i.
  - Entering every correct number on a well-formed file scores full marks.
  - The two-question example where input ends early.
  - The "2+2?" example: input `2` scores 1/1, while `1` or `3` scores 0/1
    with the guess reported.

How the source's behaviour maps onto the model:

- **Files and input.** The exam file is its sequence of lines, each with
  whatever trailing newline the file had. `Parser.StepTrailing` shows that
  whitespace after a line changes neither its marker nor its payload, and
  `Parser.ParseTrailing` lifts this to whole files: a file parses the same
  whatever whitespace ends each line. So the file-level lemmas state their
  files without newlines. The user's input is the sequence of lines
  `input()` would return, already without their newline.
- **Errors.** The run does not throw; it returns a `RunResult`.
  - `Finished` carries the correct count, the `incorrect` list as
    (question index, guess) pairs, and the number of input lines read.
  - `Aborted(PromptMissing, i)` stands for the `TypeError` that `str(question)`
    raises when question i has no prompt. Its prompt is `None`, so
    `None + str` fails, or `__str__` returns `None`.
  - `Aborted(InputExhausted, i)` stands for the `EOFError` that `input()`
    raises when the input runs out at question i. A question with a prompt
    but no options can never be answered, so it always ends this way
    (`Session.NoOptionsUnanswerable`). A question with no prompt, such as the
    one an empty file parses to, stops with `PromptMissing` instead
    (`Session.NoPromptFileAborts`).
- **Identity.** `question in lst` in the report loop (pexam.py:102) is true
  only for the very `Question` object stored in that entry. The model
  identifies a question by its position in the bank.
- **The `Exam` object.** Its only state after construction, the question
  list, is set once by its constructor (which also stores the file name,
  pexam.py:23), so the model passes the list to `Run` and `GetAnswerKey`.
  `Question.__init__` (pexam.py:7-10) is the constructor of the `Question`
  datatype.

Behaviour of the code worth knowing:

- A non-empty prompt closed while no answer has been seen is dropped with
  its options, with a printed notice; nothing is raised (pexam.py:51-54,
  `Parser.AnswerlessBlockDropped`).
- An empty prompt (a bare `~Q` line) is not truthy, so at the next `~Q`
  neither branch fires (pexam.py:48-54): nothing is printed, nothing is
  appended and the options are not cleared. Its block's options, and any
  answer it set, silently pass to the next question
  (`Parser.EmptyPromptKeepsOptions`, `Parser.EmptyPromptKeepsAnswer`).
- The answer is not reset at `~Q` (pexam.py:56), so an answer can leak into a
  later block that has no `~C`. The recorded answer is then not necessarily
  one of that question's options (`Parser.AnswerNotReset`).
- Running out of input raises the uncaught `EOFError` above.
- The last block is always appended, even when it is empty or has no answer
  (pexam.py:65).

## Model

| member | source | states |
|---|---|---|
| Text.Strip | pexam.py:45 | definition of `str.strip()`; characterised by `StripShape`, `StripUnique` and `StripTrailing` |
| Text.StripShape | pexam.py:45 | `strip()` leaves no whitespace at either end, and its result is a slice of the line with only whitespace before and after it |
| Text.StripUnique | pexam.py:45 | whitespace, then a text with no outer whitespace, then whitespace strips to exactly that text |
| Text.StripTrailing | pexam.py:42-45 | trailing whitespace, such as the newline the file iterator leaves on each line, does not change the stripped line |
| Text.Decimal | pexam.py:16 | `str(n)` is a non-empty run of ASCII digits with no leading zero |
| Text.DecimalValue | pexam.py:16 | the digits `str(n)` prints denote n |
| Text.ParseInt | pexam.py:82 | definition of the simplified `int()`; characterised by `ParseDecimal` and `SeparatorRejected` |
| Text.ParseDecimal | pexam.py:82 | `int()` reads back the number `str(n)` printed, with any whitespace `int()` skips around it (`isspace()` whitespace except the separators FS, GS, RS and US) |
| Text.SeparatorRejected | pexam.py:82-87 | a separator FS, GS, RS or US next to the number makes `int()` fail, although `strip()` would remove it |
| Questions.Render | pexam.py:13-17 | definition of `Question.__str__`, None where it raises TypeError; characterised by `Str`, `RenderUpToPrefix` and `RenderLayout` |
| Questions.Str | pexam.py:13-17 | the loop builds exactly `Render(q)`: the prompt, then the line "\n" + (index + 1) + ": " + option for each option; None when the prompt is None |
| Questions.RenderUpToPrefix | pexam.py:15-16 | each iteration only extends the text, so the text after j options is a prefix of the text after k >= j options |
| Questions.RenderLayout | pexam.py:13-17 | the rendered text starts with the prompt, and for every i the line for option i directly follows the text rendered before it |
| Parser.Classify | pexam.py:47-61 | definition of the `startswith` tests on the raw line; characterised by `ClassifyByPrefix`, `IndentedLineIgnored` and `TaggedPayload` |
| Parser.Payload | pexam.py:45 | definition of `line.strip()[2:].strip()`; characterised by `MarkerPayload` and `TaggedPayload` |
| Parser.Step | pexam.py:45-63 | definition of one iteration of the loop body; characterised by `PromptBlock`, `NoPromptFold`, `StepTrailing` and `FoldQuestions` |
| Parser.Parse | pexam.py:34-67 | definition of `__create_questions`; characterised by `CreateQuestions`, `ParseShape`, `RoundTrip` and `PlainLineIgnored` |
| Parser.CreateQuestions | pexam.py:34-67 | the loop returns `Parse(lines)`: the fold of the loop body over the lines, followed by the unconditional final append |
| Parser.FoldAppend | pexam.py:42-63 | processing a file in two parts gives the same state as processing it whole |
| Parser.MarkerPayload | pexam.py:45-47 | on a marker line, `line.strip()[2:].strip()` is the text after the two marker characters with the whitespace around it removed |
| Parser.ClassifyByPrefix | pexam.py:47-61 | a line is `~Q`, `~A` or `~C` exactly when its first two raw characters are `~` and Q, A or C; every other line is ignored |
| Parser.PlainLineIgnored | pexam.py:47-63 | removing a line that is not a marker from anywhere in the file leaves the parsed questions unchanged |
| Parser.StepTrailing | pexam.py:42-61 | whitespace after a line, such as the newline `for line in fp` leaves, changes neither its marker nor what the loop body does with it |
| Parser.ParseTrailing | pexam.py:34-67 | a file parses the same whatever whitespace ends each of its lines |
| Parser.IndentedLineIgnored | pexam.py:47-61 | markers are tested on the unstripped line: a line that starts with whitespace is ignored even if a marker follows |
| Parser.TaggedPayload | pexam.py:45-63 | a line written as a marker, a space and a text with no outer whitespace gets the matching marker, and its payload is that text |
| Parser.LastCorrectIsLast | pexam.py:61-63 | the answer a block sets is the payload of its last `~C` line, and none is set exactly when the block has no `~C` line |
| Parser.LastCorrectIsOption | pexam.py:58-63 | the answer a block sets is one of that block's options |
| Parser.NoPromptFold | pexam.py:58-63 | lines without `~Q` append the payloads of their `~A`/`~C` lines to the options in file order, and set the answer to the last `~C` payload, or keep the old answer when there is none |
| Parser.PromptBlock | pexam.py:47-63 | over a `~Q` line and its block: the open question is appended only if its prompt and answer are both non-empty; options are cleared only if the old prompt was non-empty; the new prompt is the payload; the answer is not reset |
| Parser.StrayLinesCarryOver | pexam.py:35-63 | options before the first `~Q` are never cleared: the single question of such a file keeps them, and keeps their answer when its own block has no `~C` |
| Parser.AnswerNotReset | pexam.py:47-63 | in `~Q a`, `~C x`, `~Q b`, `~A y` the second question inherits answer x, which is not one of its options |
| Parser.AnswerlessBlockDropped | pexam.py:47-63 | in `~Q a`, `~A x`, `~Q b`, `~C y` the first prompt, which has no answer, is dropped with its option |
| Parser.EmptyPromptKeepsOptions | pexam.py:47-63 | after a bare `~Q`, the next `~Q` neither appends nor clears: `~Q`, `~A x`, `~Q b`, `~C y` gives one question with options x, y and answer y |
| Parser.EmptyPromptKeepsAnswer | pexam.py:47-63 | the answer set after a bare `~Q` carries over: `~Q`, `~C x`, `~Q b`, `~A y` gives one question with options x, y and answer x |
| Parser.FoldQuestions | pexam.py:47-50 | questions are only ever appended, one per finalising `~Q`, and each appended question has a non-empty prompt and answer |
| Parser.PromptUnset | pexam.py:35-56 | the prompt stays None exactly as long as no `~Q` line has been read |
| Parser.ParseShape | pexam.py:47-67 | the result has one more question than there are finalising `~Q` lines; all but the last have a non-empty prompt and answer; the last has no prompt exactly when the file has no `~Q` |
| Parser.EmptyFile | pexam.py:35-65 | an empty file gives one question with no options, prompt or answer |
| Parser.EntryFold | pexam.py:47-63 | the lines of a well-formed block close the pending question and leave that block open with its prompt, options and correct option |
| Parser.SerializeFold | pexam.py:42-65 | a well-formed file parsed from any consistent state appends the pending question, then one question per block |
| Parser.RoundTrip | pexam.py:34-67 | a file written from well-formed questions parses back into exactly those questions, in order, each with its `~C` option as the answer |
| Exam.GetAnswerKey | pexam.py:27-31 | the answer key has one entry per question, and entry i is the answer of question i |
| Exam.Accepts | pexam.py:82-84 | definition of the line the validation loop leaves on, an integer in 1..N; characterised by `ChooseSpec` and `ShownNumberSelects` |
| Exam.Choose | pexam.py:80-87 | a choice that is found lies in 1..N and comes from a line after the current position |
| Exam.ChooseSpec | pexam.py:80-87 | the validation loop takes the first line that is an integer in 1..N and skips every line before it; it finds none exactly when no remaining line is acceptable |
| Exam.ReadChoice | pexam.py:80-87 | the `while True` loop returns exactly `Choose` |
| Exam.Ask | pexam.py:77-89 | one question: it stops with TypeError exactly when `str(question)` fails; an answer given is one of the question's options and uses at least one input line |
| Exam.AskQuestion | pexam.py:77-89 | rendering the question and then reading a choice gives exactly `Ask` |
| Exam.PlayFrom | pexam.py:76-96 | a run that gets through gives one guess per remaining question and reads no more input than there is; a run that stops does so at one of those questions |
| Exam.Quiz | pexam.py:70-103 | definition of the whole run; characterised by `Run`, `QuizStops`, `QuizEnds` and `QuizFinished` |
| Exam.Run | pexam.py:70-103 | the method returns exactly `Quiz`: the first question that stops the run, or the correct count, the `incorrect` list as the report prints it, and the number of lines read |
| Exam.Report | pexam.py:100-103 | definition of the report loops' output; characterised by `MissedReport` and `ReportOfMisses` |
| Exam.MissedReport | pexam.py:100-103 | the nested report loops list, for each question in bank order, the `incorrect` entries about it |
| Exam.QuizStops | pexam.py:76-87 | proof step for `Run`: a question that cannot be rendered or answered ends the whole run there |
| Exam.QuizEnds | pexam.py:76-98 | a run that gets past the last question finishes with one guess per question, scored |
| Exam.Hits | pexam.py:89-95 | definition of the `correct` count after the first guesses; characterised by `ScoredOnce` and `AllHits` |
| Exam.Misses | pexam.py:89-95 | definition of the `incorrect` list after the first guesses; characterised by `MissesExact` and `MissedIff` |
| Exam.ScoreStep | pexam.py:89-95 | proof step for `Run`: scoring one more guess adds one to the count if it equals the answer, and otherwise appends (index, guess) to `incorrect` |
| Exam.ScoredOnce | pexam.py:89-95 | correct + incorrect equals the number of questions answered |
| Exam.MissesExact | pexam.py:89-95 | `incorrect` is in bank order and holds exactly the questions whose guess differs from the answer, each with its guess |
| Exam.MissesSound | pexam.py:89-95 | every `incorrect` entry is about an answered question, records its guess, and that guess differs from the answer |
| Exam.MissesComplete | pexam.py:89-95 | every answered question whose guess differs from its answer has its (index, guess) entry in `incorrect` |
| Exam.MissesIncreasing | pexam.py:89-95 | `incorrect` is in bank order |
| Exam.MissedIff | pexam.py:89-95 | question i has an `incorrect` entry if and only if its guess differs from its answer |
| Exam.MatchesOfMisses | pexam.py:101-102 | for question i the inner report loop finds exactly one entry when i was missed, and none otherwise |
| Exam.ReportOfMisses | pexam.py:100-103 | the report lists each missed question once, in bank order, with its guess |
| Exam.PlayedGuesses | pexam.py:76-89 | in a finished run every question had a prompt and at least one option, and every guess is one of its question's options |
| Exam.QuizFinished | pexam.py:70-103 | after a finished run, correct + missed equals the number of questions; misses are in bank order with guesses that are options and differ from the answer; no more input was read than given |
| Session.NoPromptFileAborts | pexam.py:47-78 | a file without `~Q` parses into one question with no prompt, and the run stops at it before reading input |
| Session.NoOptionsUnanswerable | pexam.py:80-87 | a question with a prompt and no options accepts no input line, so the validation loop runs until the input ends |
| Session.ShownNumberSelects | pexam.py:80-89 | entering the number `str()` shows in front of option i, with any whitespace `int()` skips around it, selects option i and uses one input line |
| Session.KeyedPlay | pexam.py:76-89 | entering, for each question, the number of an option equal to its answer picks those options, one line each |
| Session.AllHits | pexam.py:91-95 | guesses that all equal their answers score every question and leave `incorrect` empty |
| Session.KeyedRun | pexam.py:70-103 | entering the number of an option equal to the answer for every question scores N of N with no misses |
| Session.PerfectScore | pexam.py:34-103 | on a file written from well-formed questions, entering each `~C` option's number scores full marks, misses nothing and reads one line per question |
| Session.SingleQuestion | pexam.py:70-103 | a one-question bank scores its single answer: 1 with no misses if it equals the answer, else 0 with that guess missed |
| Session.SampleParse | pexam.py:34-67 | the "2+2?" file parses into one question with options 3, 4, 5 and answer 4 |
| Session.SampleCorrect | pexam.py:70-103 | on the "2+2?" file, input `2` scores 1 with no misses |
| Session.SampleMissed | pexam.py:70-103 | on the "2+2?" file, input `1` or `3` scores 0, with the guess 3 or 5 reported |
| Session.SampleGuess | pexam.py:70-103 | on the "2+2?" question, entering the number of option i scores it against the answer 4 |
| Session.SampleReprompt | pexam.py:80-87 | a non-number and an out-of-range number are read and rejected before " 2 " is accepted; the question and the score do not change |
| Session.TwoQuestionsParse | pexam.py:34-67 | the two-block file parses into its two questions, in order |
| Session.InputEndsEarly | pexam.py:80-82 | on a two-question bank, input that ends after the first answer stops the run at the second question, with no result |

## Left out

- Opening and reading the file (pexam.py:40): the file is given as its lines, so encodings and I/O errors do not arise.
- Console output (pexam.py:54, 78, 85, 87, 98, 103): the "Question without an answer included" notice, the "Question i/N" header, the "Pick 1-N" hints and the results text are not produced. The model returns the counts and lists that the output is built from. Only `__str__` is modelled as text.
- `clear()` (pexam.py:96, 107-108): a terminal side effect with no bearing on the result, so it is treated as a no-op.
- The command line and `Exam.__init__` (pexam.py:22-24, 112-116): argument handling. The question list the constructor stores is `Parse(lines)`, which the runner takes as a parameter.
- Text.ParseInt: simpler than Python's `int()`. It accepts surrounding whitespace, an optional sign and one or more ASCII digits. Underscores between digits and non-ASCII decimal digits, which Python also accepts, are rejected. Its whitespace is Python's: `isspace()` whitespace except FS, GS, RS and US, which make the text invalid.
- Exam.Run: the `correct` list (pexam.py:73, 93) is kept as a count, because only its length is used.
- Exam.Quiz: the report's text for each miss (the question, "You guessed", the answer) is represented by the (index, guess) entry; the answer is that question's `answer`.
- Keyboard interrupts and other exceptions besides the `TypeError` and `EOFError` above are not modelled.
