/**
 * Literal substring search over text: the non-overlapping occurrence
 * counter (countWordInText) and the first-occurrence search the span
 * locator relies on.
 */
module Text {
  import opened Wrappers

  /** `pat` occurs in `text` starting at offset `i`. */
  predicate OccursAt(pat: string, text: string, i: int)
  {
    0 <= i && i + |pat| <= |text| && text[i..i + |pat|] == pat
  }

  /** `pat` occurs somewhere in `text`. */
  ghost predicate Occurs(pat: string, text: string)
  {
    exists i :: OccursAt(pat, text, i)
  }

  /**
   * Number of non-overlapping occurrences of `needle` in `text`, matched left
   * to right: after a match the scan resumes just past it.
   */
  function Count(needle: string, text: string): (r: nat)
    requires |needle| > 0
    ensures r * |needle| <= |text|
    decreases |text|
  {
    if |text| < |needle| then 0
    else if text[..|needle|] == needle then 1 + Count(needle, text[|needle|..])
    else Count(needle, text[1..])
  }

  /** The counter as a single left-to-right scan. */
  method CountOccurrences(needle: string, text: string) returns (count: nat)
    requires |needle| > 0
    ensures count == Count(needle, text)
  {
    count := 0;
    var i := 0;
    while i + |needle| <= |text|
      invariant 0 <= i <= |text|
      invariant count + Count(needle, text[i..]) == Count(needle, text)
      decreases |text| - i
    {
      if text[i..i + |needle|] == needle {
        assert text[i..][..|needle|] == needle;
        assert text[i..][|needle|..] == text[i + |needle|..];
        count := count + 1;
        i := i + |needle|;
      } else {
        assert text[i..][..|needle|] == text[i..i + |needle|];
        assert text[i..][1..] == text[i + 1..];
        i := i + 1;
      }
    }
  }

  /** Dropping the first character moves every later occurrence one place left, and back. */
  lemma OccursShift(pat: string, text: string, i: int)
    requires |text| > 0 && i >= 1
    ensures OccursAt(pat, text, i) <==> OccursAt(pat, text[1..], i - 1)
  {
    if i + |pat| <= |text| {
      assert text[1..][i - 1..i - 1 + |pat|] == text[i..i + |pat|];
    }
  }

  /** Wherever the needle occurs, the count is positive. */
  lemma {:induction false} OccurrenceIsCounted(needle: string, text: string, i: int)
    requires |needle| > 0
    requires OccursAt(needle, text, i)
    ensures Count(needle, text) > 0
    decreases |text|
  {
    if text[..|needle|] != needle {
      assert i != 0;
      OccursShift(needle, text, i);
      OccurrenceIsCounted(needle, text[1..], i - 1);
    }
  }

  /** A positive count comes from an actual occurrence. */
  lemma {:induction false} CountedIsOccurrence(needle: string, text: string)
    requires |needle| > 0
    requires Count(needle, text) > 0
    ensures Occurs(needle, text)
    decreases |text|
  {
    if text[..|needle|] == needle {
      assert OccursAt(needle, text, 0);
    } else {
      CountedIsOccurrence(needle, text[1..]);
      var i :| OccursAt(needle, text[1..], i);
      OccursShift(needle, text, i + 1);
    }
  }

  /** The count is zero exactly when the needle does not occur at all. */
  lemma CountZeroIffAbsent(needle: string, text: string)
    requires |needle| > 0
    ensures Count(needle, text) == 0 <==> !Occurs(needle, text)
  {
    if Count(needle, text) > 0 {
      CountedIsOccurrence(needle, text);
    } else if Occurs(needle, text) {
      var i :| OccursAt(needle, text, i);
      OccurrenceIsCounted(needle, text, i);
    }
  }

  /** The characters of a non-empty text are its first character and those of the rest. */
  lemma MultisetOfCons(s: string)
    requires s != []
    ensures multiset(s) == multiset{s[0]} + multiset(s[1..])
  {
    assert s == [s[0]] + s[1..];
  }

  /** For a one-character needle the count is the number of times that character appears. */
  lemma {:induction false} CountChar(c: char, text: string)
    ensures Count([c], text) == multiset(text)[c]
    decreases |text|
  {
    if |text| > 0 {
      MultisetOfCons(text);
      CountChar(c, text[1..]);
    }
  }

  /** An occurrence in `a` is an occurrence in `a + b`, at the same offset. */
  lemma OccursLeft(pat: string, a: string, b: string, o: int)
    requires OccursAt(pat, a, o)
    ensures OccursAt(pat, a + b, o)
  {
    assert (a + b)[o..o + |pat|] == a[o..o + |pat|];
  }

  /** An occurrence in `b` is an occurrence in `a + b`, shifted by |a|. */
  lemma OccursRight(pat: string, a: string, b: string, o: int)
    requires OccursAt(pat, b, o)
    ensures OccursAt(pat, a + b, |a| + o)
  {
    assert (a + b)[|a| + o..|a| + o + |pat|] == b[o..o + |pat|];
  }

  /** Every text occurs in itself at offset 0. */
  lemma OccursSelf(pat: string)
    ensures OccursAt(pat, pat, 0)
  {
    assert pat[0..|pat|] == pat;
  }

  /** An occurrence inside an occurrence: occurrence is transitive. */
  lemma OccursInside(pat: string, mid: string, o1: int, text: string, o2: int)
    requires OccursAt(pat, mid, o1) && OccursAt(mid, text, o2)
    ensures OccursAt(pat, text, o2 + o1)
  {
    forall k | 0 <= k < |pat|
      ensures text[o2 + o1 + k] == pat[k]
    {
      assert text[o2..o2 + |mid|][o1 + k] == mid[o1 + k];
      assert mid[o1..o1 + |pat|][k] == pat[k];
    }
  }

  /** First offset, at or after `from`, where `pat` occurs in `text`. */
  function IndexFrom(text: string, pat: string, from: nat): (r: Option<nat>)
    ensures r.Some? ==> from <= r.value && OccursAt(pat, text, r.value)
    ensures r.Some? ==> forall j :: from <= j < r.value ==> !OccursAt(pat, text, j)
    ensures r.None? ==> forall j :: from <= j ==> !OccursAt(pat, text, j)
    decreases |text| - from
  {
    if from + |pat| > |text| then None
    else if text[from..from + |pat|] == pat then Some(from)
    else IndexFrom(text, pat, from + 1)
  }

  /** First offset where `pat` occurs in `text` (String.prototype.indexOf). */
  function IndexOf(text: string, pat: string): (r: Option<nat>)
    ensures r.Some? <==> Occurs(pat, text)
    ensures r.Some? ==> OccursAt(pat, text, r.value)
    ensures r.Some? ==> forall j :: 0 <= j < r.value ==> !OccursAt(pat, text, j)
  {
    IndexFrom(text, pat, 0)
  }
}
