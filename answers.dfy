/**
 * Answer normalisation: `normalizeAnswer(answer)` is `answer.trim().toLowerCase()`.
 * It is applied to the finder's answer when a found item is reported and to the
 * claimer's answer when a claim is checked, so the two are compared in the same form.
 */
module Answers {

  /** The characters ECMAScript's `String.prototype.trim` removes:
      WhiteSpace (tab, VT, FF, space, NBSP, BOM, the Zs separators) and LineTerminator. */
  predicate IsWhitespace(c: char) {
    var n := c as int;
    n == 0x09 || n == 0x0A || n == 0x0B || n == 0x0C || n == 0x0D || n == 0x20 ||
    n == 0xA0 || n == 0x1680 || (0x2000 <= n <= 0x200A) || n == 0x2028 || n == 0x2029 ||
    n == 0x202F || n == 0x205F || n == 0x3000 || n == 0xFEFF
  }

  predicate AllWhitespace(s: string) {
    forall i :: 0 <= i < |s| ==> IsWhitespace(s[i])
  }

  /** The index of the first non-whitespace character at or after `i` (`|s|` if none). */
  function SkipLeading(s: string, i: nat): (a: nat)
    requires i <= |s|
    ensures i <= a <= |s|
    ensures forall j :: i <= j < a ==> IsWhitespace(s[j])
    ensures a < |s| ==> !IsWhitespace(s[a])
    decreases |s| - i
  {
    if i < |s| && IsWhitespace(s[i]) then SkipLeading(s, i + 1) else i
  }

  /** The end of `s[lo..hi]` once its trailing whitespace is dropped. */
  function SkipTrailing(s: string, lo: nat, hi: nat): (b: nat)
    requires lo <= hi <= |s|
    ensures lo <= b <= hi
    ensures forall j :: b <= j < hi ==> IsWhitespace(s[j])
    ensures b > lo ==> !IsWhitespace(s[b - 1])
  {
    if hi > lo && IsWhitespace(s[hi - 1]) then SkipTrailing(s, lo, hi - 1) else hi
  }

  /** `String.prototype.trim`: the characters between the first and the last that are not
      whitespace. */
  function Trim(s: string): string {
    var a := SkipLeading(s, 0);
    s[a..SkipTrailing(s, a, |s|)]
  }

  /** `s[a..b]` is what trimming `s` leaves: only whitespace outside it, and no whitespace
      at either of its ends. */
  ghost predicate TrimmedAt(s: string, a: nat, b: nat) {
    && a <= b <= |s|
    && (forall j :: 0 <= j < a ==> IsWhitespace(s[j]))
    && (forall j :: b <= j < |s| ==> IsWhitespace(s[j]))
    && (a < b ==> !IsWhitespace(s[a]) && !IsWhitespace(s[b - 1]))
  }

  /** `toLowerCase` on one character, for the ASCII letters. */
  function ToLowerChar(c: char): char {
    if 'A' <= c <= 'Z' then (c as int + 32) as char else c
  }

  function ToLower(s: string): string {
    seq(|s|, i requires 0 <= i < |s| => ToLowerChar(s[i]))
  }

  /** `normalizeAnswer`: trim, then lower-case. */
  function NormalizeAnswer(answer: string): string {
    ToLower(Trim(answer))
  }

  // ---------------------------------------------------------------------------
  // Facts about trimming and case folding

  lemma LowerKeepsWhitespace(c: char)
    ensures IsWhitespace(ToLowerChar(c)) == IsWhitespace(c)
  {
  }

  lemma {:induction false} SkipLeadingIs(s: string, i: nat, a: nat)
    requires i <= a <= |s|
    requires forall j :: i <= j < a ==> IsWhitespace(s[j])
    requires a < |s| ==> !IsWhitespace(s[a])
    ensures SkipLeading(s, i) == a
    decreases a - i
  {
    if i < a {
      SkipLeadingIs(s, i + 1, a);
    }
  }

  lemma {:induction false} SkipTrailingIs(s: string, lo: nat, hi: nat, b: nat)
    requires lo <= b <= hi <= |s|
    requires forall j :: b <= j < hi ==> IsWhitespace(s[j])
    requires b > lo ==> !IsWhitespace(s[b - 1])
    ensures SkipTrailing(s, lo, hi) == b
    decreases hi - b
  {
    if b < hi {
      SkipTrailingIs(s, lo, hi - 1, b);
    }
  }

  /** `trim` keeps exactly the infix that has only whitespace around it and none at its
      ends. */
  lemma TrimIs(s: string, a: nat, b: nat)
    requires TrimmedAt(s, a, b)
    ensures Trim(s) == s[a..b]
  {
    if a < b {
      SkipLeadingIs(s, 0, a);
      SkipTrailingIs(s, a, |s|, b);
    } else {
      SkipLeadingIs(s, 0, |s|);
    }
  }

  /** Conversely, what `trim` returns is such an infix. */
  lemma TrimShape(s: string)
    ensures exists a: nat, b: nat :: TrimmedAt(s, a, b) && Trim(s) == s[a..b]
  {
    var a, b := TrimBounds(s);
  }

  /** The bounds `trim` cuts at. */
  lemma TrimBounds(s: string) returns (a: nat, b: nat)
    ensures TrimmedAt(s, a, b) && Trim(s) == s[a..b]
  {
    a := SkipLeading(s, 0);
    b := SkipTrailing(s, a, |s|);
  }

  lemma LowerOfInfix(s: string, a: nat, b: nat)
    requires a <= b <= |s|
    ensures ToLower(s)[a..b] == ToLower(s[a..b])
  {
  }

  lemma TrimmedAtLower(s: string, a: nat, b: nat)
    requires TrimmedAt(s, a, b)
    ensures TrimmedAt(ToLower(s), a, b)
  {
    var l := ToLower(s);
    forall j | 0 <= j < |s|
      ensures IsWhitespace(l[j]) == IsWhitespace(s[j])
    {
      LowerKeepsWhitespace(s[j]);
    }
  }

  /** Lower-casing and trimming commute, since case folding maps whitespace to
      whitespace and everything else to non-whitespace. */
  lemma TrimOfLower(s: string)
    ensures Trim(ToLower(s)) == ToLower(Trim(s))
  {
    var a, b := TrimBounds(s);
    TrimmedAtLower(s, a, b);
    TrimIs(ToLower(s), a, b);
    LowerOfInfix(s, a, b);
  }

  lemma TrimmedAtPadding(w1: string, s: string, w2: string, a: nat, b: nat)
    requires AllWhitespace(w1) && AllWhitespace(w2)
    requires TrimmedAt(s, a, b)
    ensures a < b ==> TrimmedAt(w1 + s + w2, |w1| + a, |w1| + b)
    ensures a == b ==> TrimmedAt(w1 + s + w2, |w1 + s + w2|, |w1 + s + w2|)
  {
    var x := w1 + s + w2;
    var n := |w1|;
    assert forall j :: 0 <= j < n ==> x[j] == w1[j];
    assert forall j :: n <= j < n + |s| ==> x[j] == s[j - n];
    assert forall j :: n + |s| <= j < |x| ==> x[j] == w2[j - n - |s|];
  }

  lemma InfixOfPadded(w1: string, s: string, w2: string, a: nat, b: nat)
    requires a <= b <= |s|
    ensures (w1 + s + w2)[|w1| + a..|w1| + b] == s[a..b]
  {
    var x := w1 + s + w2;
    assert forall j :: a <= j < b ==> x[|w1| + j] == s[j];
  }

  /** Whitespace around a string does not change what it trims to. */
  lemma TrimIgnoresPadding(w1: string, s: string, w2: string)
    requires AllWhitespace(w1) && AllWhitespace(w2)
    ensures Trim(w1 + s + w2) == Trim(s)
  {
    var a, b := TrimBounds(s);
    var x := w1 + s + w2;
    var n := |w1|;
    TrimmedAtPadding(w1, s, w2, a, b);
    if a < b {
      TrimIs(x, n + a, n + b);
      InfixOfPadded(w1, s, w2, a, b);
    } else {
      TrimIs(x, |x|, |x|);
    }
  }

  lemma TrimIdempotent(s: string)
    ensures Trim(Trim(s)) == Trim(s)
  {
    var a, b := TrimBounds(s);
    var t := s[a..b];
    assert TrimmedAt(t, 0, |t|);
    TrimIs(t, 0, |t|);
  }

  lemma ToLowerIdempotent(s: string)
    ensures ToLower(ToLower(s)) == ToLower(s)
  {
  }

  lemma ToLowerAppend(a: string, b: string)
    ensures ToLower(a + b) == ToLower(a) + ToLower(b)
  {
  }

  lemma ToLowerOfWhitespace(w: string)
    requires AllWhitespace(w)
    ensures ToLower(w) == w
  {
  }

  // ---------------------------------------------------------------------------
  // Properties of normalizeAnswer

  /** The normalised answer is no longer than the input, has no whitespace at either end
      and no upper-case ASCII letter. */
  lemma NormalizeAnswerShape(answer: string)
    ensures var r := NormalizeAnswer(answer);
            && |r| <= |answer|
            && (r != [] ==> !IsWhitespace(r[0]) && !IsWhitespace(r[|r| - 1]))
            && forall i :: 0 <= i < |r| ==> !('A' <= r[i] <= 'Z')
  {
    var a := SkipLeading(answer, 0);
    var t := Trim(answer);
    if t != [] {
      LowerKeepsWhitespace(t[0]);
      LowerKeepsWhitespace(t[|t| - 1]);
    }
  }

  /** Normalising twice is normalising once, so a stored (already normalised) answer
      is left alone when it is normalised again. */
  lemma NormalizeAnswerIdempotent(s: string)
    ensures NormalizeAnswer(NormalizeAnswer(s)) == NormalizeAnswer(s)
  {
    var t := Trim(s);
    TrimOfLower(t);
    TrimIdempotent(s);
    ToLowerIdempotent(t);
  }

  /** Two answers that differ only in ASCII letter case and in surrounding whitespace
      normalise to the same string ("White dots" and "  WHITE DOTS ", say). */
  lemma NormalizeIgnoresCaseAndPadding(w1: string, a: string, w2: string, b: string)
    requires AllWhitespace(w1) && AllWhitespace(w2)
    requires ToLower(a) == ToLower(b)
    ensures NormalizeAnswer(w1 + a + w2) == NormalizeAnswer(b)
  {
    ToLowerAppend(w1 + a, w2);
    ToLowerAppend(w1, a);
    ToLowerOfWhitespace(w1);
    ToLowerOfWhitespace(w2);
    TrimOfLower(w1 + a + w2);
    TrimIgnoresPadding(w1, ToLower(a), w2);
    TrimOfLower(a);
    TrimOfLower(b);
  }

  /** The finder's and the claimer's answers are each normalised, so they are judged equal
      when they differ in ASCII letter case and each carries its own surrounding whitespace. */
  lemma NormalizeAnswersAgree(v1: string, x: string, v2: string, w1: string, y: string, w2: string)
    requires AllWhitespace(v1) && AllWhitespace(v2) && AllWhitespace(w1) && AllWhitespace(w2)
    requires ToLower(x) == ToLower(y)
    ensures NormalizeAnswer(v1 + x + v2) == NormalizeAnswer(w1 + y + w2)
  {
    NormalizeIgnoresCaseAndPadding(v1, x, v2, y);
    NormalizeIgnoresCaseAndPadding(w1, y, w2, y);
  }

  lemma NormalizeAt(s: string, a: nat, b: nat)
    requires TrimmedAt(s, a, b)
    ensures NormalizeAnswer(s) == ToLower(s[a..b])
  {
    TrimIs(s, a, b);
  }

  // One lemma per string below keeps each concrete proof small; NormalizeRedExample
  // states the example.

  lemma NormalizePaddedRed()
    ensures NormalizeAnswer(" Red ") == "red"
  {
    assert TrimmedAt(" Red ", 1, 4);
    assert " Red "[1..4] == "Red";
    assert ToLower("Red") == "red";
    NormalizeAt(" Red ", 1, 4);
  }

  lemma NormalizeUpperRed()
    ensures NormalizeAnswer("RED") == "red"
  {
    assert TrimmedAt("RED", 0, 3);
    assert ToLower("RED") == "red";
    NormalizeAt("RED", 0, 3);
  }

  lemma NormalizeTrailingRed()
    ensures NormalizeAnswer("red ") == "red"
  {
    assert TrimmedAt("red ", 0, 3);
    assert "red "[0..3] == "red";
    assert ToLower("red") == "red";
    NormalizeAt("red ", 0, 3);
  }

  /** The finder answered " Red "; "RED" and "red " both normalise to the stored "red". */
  lemma NormalizeRedExample()
    ensures NormalizeAnswer(" Red ") == "red"
    ensures NormalizeAnswer("RED") == "red"
    ensures NormalizeAnswer("red ") == "red"
  {
    NormalizePaddedRed();
    NormalizeUpperRed();
    NormalizeTrailingRed();
  }

  /** The claim test's pair: the finder set "White dots", the owner answered "WHITE DOTS". */
  lemma NormalizeAnswerExample()
    ensures NormalizeAnswer("WHITE DOTS") == NormalizeAnswer("White dots")
  {
    TrimIs("WHITE DOTS", 0, 10);
    TrimIs("White dots", 0, 10);
    assert ToLower("WHITE DOTS") == ToLower("White dots");
  }

}
