/**
 * The pieces of Python's string handling the exam program relies on:
 * `str.strip()` with its default whitespace set, `str(n)` for a natural
 * number and a simplified `int(s)`.
 */
module Text {
  import opened Wrappers

  /** Python's `str.isspace()` for one character: the characters `strip()` removes. */
  predicate IsSpace(c: char) {
    var k := c as int;
    k == 0x20 || 0x09 <= k <= 0x0D || 0x1C <= k <= 0x1F || k == 0x85 || k == 0xA0
    || k == 0x1680 || 0x2000 <= k <= 0x200A || k == 0x2028 || k == 0x2029
    || k == 0x202F || k == 0x205F || k == 0x3000
  }

  predicate AllSpace(s: string) {
    forall i :: 0 <= i < |s| ==> IsSpace(s[i])
  }

  /** A string with no whitespace at either end (what `strip()` can return). */
  predicate Stripped(s: string) {
    s == [] || (!IsSpace(s[0]) && !IsSpace(s[|s| - 1]))
  }

  /** Python's `s.lstrip()`. */
  function LStrip(s: string): string {
    if s != [] && IsSpace(s[0]) then LStrip(s[1..]) else s
  }

  /** Python's `s.rstrip()`. */
  function RStrip(s: string): string {
    if s != [] && IsSpace(s[|s| - 1]) then RStrip(s[..|s| - 1]) else s
  }

  /** Python's `s.strip()`. */
  function Strip(s: string): string {
    RStrip(LStrip(s))
  }

  /** lstrip drops exactly the leading whitespace. */
  lemma {:induction false} LStripSkip(w: string, x: string)
    requires AllSpace(w) && (x == [] || !IsSpace(x[0]))
    ensures LStrip(w + x) == x
    decreases |w|
  {
    if w != [] {
      assert (w + x)[1..] == w[1..] + x;
      LStripSkip(w[1..], x);
    }
  }

  /** rstrip drops exactly the trailing whitespace. */
  lemma {:induction false} RStripSkip(x: string, w: string)
    requires AllSpace(w) && (x == [] || !IsSpace(x[|x| - 1]))
    ensures RStrip(x + w) == x
    decreases |w|
  {
    if w != [] {
      assert (x + w)[..|x + w| - 1] == x + w[..|w| - 1];
      RStripSkip(x, w[..|w| - 1]);
    } else {
      assert x + w == x;
    }
  }

  /** rstrip returns a prefix, and only whitespace follows it. */
  lemma {:induction false} RStripPrefix(s: string)
    ensures |RStrip(s)| <= |s| && RStrip(s) == s[..|RStrip(s)|]
    ensures forall i :: |RStrip(s)| <= i < |s| ==> IsSpace(s[i])
    ensures RStrip(s) == [] || !IsSpace(RStrip(s)[|RStrip(s)| - 1])
    decreases |s|
  {
    if s != [] && IsSpace(s[|s| - 1]) {
      RStripPrefix(s[..|s| - 1]);
    }
  }

  /** lstrip returns a suffix, and only whitespace precedes it. */
  lemma {:induction false} LStripSuffix(s: string)
    ensures |LStrip(s)| <= |s| && LStrip(s) == s[|s| - |LStrip(s)|..]
    ensures forall i :: 0 <= i < |s| - |LStrip(s)| ==> IsSpace(s[i])
    ensures LStrip(s) == [] || !IsSpace(LStrip(s)[0])
    decreases |s|
  {
    if s != [] && IsSpace(s[0]) {
      LStripSuffix(s[1..]);
    }
  }

  /**
   * strip removes exactly the whitespace at both ends: its result has no
   * whitespace at either end and is a slice of s with only whitespace around it.
   */
  lemma StripShape(s: string)
    ensures Stripped(Strip(s))
    ensures exists a, b :: 0 <= a <= b <= |s| && Strip(s) == s[a..b] && AllSpace(s[..a]) && AllSpace(s[b..])
  {
    var l := LStrip(s);
    LStripSuffix(s);
    RStripPrefix(l);
    var a := |s| - |l|;
    var r := Strip(s);
    var b := a + |r|;
    assert r == s[a..b];
    assert AllSpace(s[..a]);
    assert forall i :: b <= i < |s| ==> s[i] == l[i - a];
    assert AllSpace(s[b..]);
    if r != [] {
      assert l[0] == r[0];
    }
  }

  /** Strip is determined by its result: whitespace, a stripped core, whitespace. */
  lemma StripUnique(w1: string, r: string, w2: string)
    requires AllSpace(w1) && AllSpace(w2) && Stripped(r)
    ensures Strip(w1 + r + w2) == r
  {
    if r == [] {
      assert AllSpace(w1 + w2);
      assert w1 + r + w2 == (w1 + w2) + [];
      LStripSkip(w1 + w2, []);
    } else {
      assert w1 + r + w2 == w1 + (r + w2);
      LStripSkip(w1, r + w2);
      RStripSkip(r, w2);
    }
  }

  /** Whitespace on the right does not change the stripped text. */
  lemma {:induction false} StripTrailing(u: string, w: string)
    requires AllSpace(w)
    ensures Strip(u + w) == Strip(u)
    decreases |u|
  {
    if u == [] {
      assert u + w == w + [];
      LStripSkip(w, []);
    } else if IsSpace(u[0]) {
      assert (u + w)[1..] == u[1..] + w;
      StripTrailing(u[1..], w);
    } else {
      var r := RStrip(u);
      RStripPrefix(u);
      var tail := u[|r|..];
      assert AllSpace(tail);
      assert AllSpace(tail + w);
      assert u + w == r + (tail + w);
      RStripSkip(r, tail + w);
    }
  }

  predicate IsDigit(c: char) { '0' <= c <= '9' }

  predicate AllDigits(s: string) {
    forall i :: 0 <= i < |s| ==> IsDigit(s[i])
  }

  function DigitChar(d: nat): (c: char)
    requires d < 10
    ensures IsDigit(c) && c as int - '0' as int == d
  {
    (48 + d) as char
  }

  /** The number a run of decimal digits denotes. */
  function DigitsValue(s: string): nat
    requires AllDigits(s)
  {
    if s == [] then 0
    else 10 * DigitsValue(s[..|s| - 1]) + (s[|s| - 1] as int - '0' as int)
  }

  /** Python's `str(n)` for a natural number: the shortest decimal numeral for n. */
  function Decimal(n: nat): (s: string)
    ensures |s| > 0 && AllDigits(s)
    ensures |s| > 1 ==> s[0] != '0'
  {
    if n < 10 then [DigitChar(n)] else Decimal(n / 10) + [DigitChar(n % 10)]
  }

  lemma {:induction false} DecimalValue(n: nat)
    ensures DigitsValue(Decimal(n)) == n
  {
    if n >= 10 {
      DecimalValue(n / 10);
      var s := Decimal(n);
      assert s[..|s| - 1] == Decimal(n / 10);
    }
  }

  /**
   * The ASCII information separators FS, GS, RS and US (0x1C-0x1F). `isspace()`
   * counts them as whitespace, but `int()` skips only the ASCII whitespace
   * tab, newline, vertical tab, form feed, carriage return and space, and it
   * treats every other ASCII character as part of the number.
   */
  predicate IsSeparator(c: char) { 0x1C <= c as int <= 0x1F }

  /** The whitespace `int()` skips around a number: `isspace()` without the separators. */
  predicate IsIntSpace(c: char) { IsSpace(c) && !IsSeparator(c) }

  predicate AllIntSpace(s: string) {
    forall i :: 0 <= i < |s| ==> IsIntSpace(s[i])
  }

  predicate HasSeparator(s: string) {
    exists i :: 0 <= i < |s| && IsSeparator(s[i])
  }

  /**
   * Python's `int(s)` for base-10 text, simplified: surrounding whitespace,
   * an optional sign and one or more ASCII digits. None stands for ValueError.
   * Outside the ASCII range `int()` skips exactly what `isspace()` accepts, so
   * the text is stripped with `Strip`; a separator anywhere in the text is
   * neither skipped nor a digit, so it makes the text invalid.
   */
  function ParseInt(s: string): Option<int> {
    var t := Strip(s);
    if HasSeparator(s) then None
    else if t == [] then None
    else if t[0] == '+' || t[0] == '-' then
      var digits := t[1..];
      if digits != [] && AllDigits(digits) then
        Some(if t[0] == '-' then 0 - DigitsValue(digits) else DigitsValue(digits))
      else None
    else if AllDigits(t) then Some(DigitsValue(t))
    else None
  }

  /** What `str(n)` prints, `int()` reads back, whatever whitespace `int()` skips surrounds it. */
  lemma ParseDecimal(w1: string, n: nat, w2: string)
    requires AllIntSpace(w1) && AllIntSpace(w2)
    ensures ParseInt(w1 + Decimal(n) + w2) == Some(n)
  {
    var d := Decimal(n);
    var s := w1 + d + w2;
    assert AllSpace(w1) && AllSpace(w2);
    StripUnique(w1, d, w2);
    DecimalValue(n);
    forall i | 0 <= i < |s|
      ensures !IsSeparator(s[i])
    {
      if i < |w1| {
        assert s[i] == w1[i];
      } else if i < |w1| + |d| {
        assert s[i] == d[i - |w1|];
      } else {
        assert s[i] == w2[i - |w1| - |d|];
      }
    }
  }

  /** A separator next to the number makes `int()` fail, though `strip()` would remove it. */
  lemma SeparatorRejected(w1: string, n: nat, w2: string)
    requires AllSpace(w1) && AllSpace(w2)
    requires HasSeparator(w1) || HasSeparator(w2)
    ensures Strip(w1 + Decimal(n) + w2) == Decimal(n)
    ensures ParseInt(w1 + Decimal(n) + w2) == None
  {
    var d := Decimal(n);
    var s := w1 + d + w2;
    StripUnique(w1, d, w2);
    if HasSeparator(w1) {
      var i :| 0 <= i < |w1| && IsSeparator(w1[i]);
      assert s[i] == w1[i];
    } else {
      var i :| 0 <= i < |w2| && IsSeparator(w2[i]);
      assert s[|w1| + |d| + i] == w2[i];
    }
  }
}
