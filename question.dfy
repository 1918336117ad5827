/**
 * The `Question` record of the exam program and its text form (`__str__`).
 */
module Questions {
  import opened Wrappers
  import opened Text

  /**
   * One question as the parser builds it. The prompt and the answer are
   * `None` until a marker line sets them; the answer need not be one of the
   * options.
   */
  datatype Question = Question(options: seq<string>, question: Option<string>, answer: Option<string>)

  /** Python truthiness of an optional string: present and non-empty. */
  predicate Truthy(s: Option<string>) {
    s.Some? && s.value != ""
  }

  /** The line shown for the option at 0-based position `index`. */
  function OptionLine(index: nat, option: string): string {
    "\n" + Decimal(index + 1) + ": " + option
  }

  /** The prompt followed by the numbered lines of the first `k` options. */
  function RenderUpTo(prompt: string, options: seq<string>, k: nat): string
    requires k <= |options|
  {
    if k == 0 then prompt else RenderUpTo(prompt, options, k - 1) + OptionLine(k - 1, options[k - 1])
  }

  /**
   * The text `str(q)` produces; None when the prompt is None, where Python
   * raises TypeError (adding a string to None, or `__str__` returning None).
   */
  function Render(q: Question): Option<string> {
    if q.question.None? then None else Some(RenderUpTo(q.question.value, q.options, |q.options|))
  }

  /** `Question.__str__`: start from the prompt and add one numbered line per option. */
  method Str(q: Question) returns (text: Option<string>)
    ensures text == Render(q)
  {
    if q.question.None? {
      return None;
    }
    var s := q.question.value;
    var i := 0;
    while i < |q.options|
      invariant 0 <= i <= |q.options|
      invariant s == RenderUpTo(q.question.value, q.options, i)
    {
      s := s + "\n" + Decimal(i + 1) + ": " + q.options[i];
      i := i + 1;
    }
    text := Some(s);
  }

  lemma {:induction false} RenderUpToPrefix(prompt: string, options: seq<string>, j: nat, k: nat)
    requires j <= k <= |options|
    ensures |RenderUpTo(prompt, options, j)| <= |RenderUpTo(prompt, options, k)|
    ensures RenderUpTo(prompt, options, k)[..|RenderUpTo(prompt, options, j)|] == RenderUpTo(prompt, options, j)
    decreases k
  {
    if j < k {
      RenderUpToPrefix(prompt, options, j, k - 1);
      var prev := RenderUpTo(prompt, options, k - 1);
      var n := |RenderUpTo(prompt, options, j)|;
      assert RenderUpTo(prompt, options, k)[..n] == prev[..n];
    }
  }

  /**
   * Layout of the rendered text: it starts with the prompt, and each option i,
   * in order, follows everything rendered before it as the line
   * "\n" + (i + 1) + ": " + option.
   */
  lemma RenderLayout(q: Question)
    requires q.question.Some?
    ensures Render(q).Some?
    ensures q.question.value <= Render(q).value
    ensures forall i :: 0 <= i < |q.options| ==>
      RenderUpTo(q.question.value, q.options, i) + OptionLine(i, q.options[i]) <= Render(q).value
  {
    var p, opts := q.question.value, q.options;
    var s := Render(q).value;
    RenderUpToPrefix(p, opts, 0, |opts|);
    forall i | 0 <= i < |opts|
      ensures RenderUpTo(p, opts, i) + OptionLine(i, opts[i]) <= s
    {
      RenderUpToPrefix(p, opts, i + 1, |opts|);
    }
  }
}
