/**
 * The parts of JavaScript's `String.prototype` the client relies on:
 * `toLowerCase` (restricted here to ASCII letters), `includes` and `slice`.
 */
module JsString {

  function LowerChar(c: char): char {
    if 'A' <= c <= 'Z' then (c as int + 32) as char else c
  }

  function UpperChar(c: char): char {
    if 'a' <= c <= 'z' then (c as int - 32) as char else c
  }

  /** `s.toLowerCase()` over ASCII letters; every other character is kept. */
  function ToLowerCase(s: string): (r: string)
    ensures |r| == |s|
  {
    seq(|s|, i requires 0 <= i < |s| => LowerChar(s[i]))
  }

  /** `s.toUpperCase()` over ASCII letters. */
  function ToUpperCase(s: string): (r: string)
    ensures |r| == |s|
  {
    seq(|s|, i requires 0 <= i < |s| => UpperChar(s[i]))
  }

  /** Lower-casing forgets the letter case the string was written in. */
  lemma LowerCaseIgnoresCase(s: string)
    ensures ToLowerCase(ToUpperCase(s)) == ToLowerCase(s)
    ensures ToLowerCase(ToLowerCase(s)) == ToLowerCase(s)
  {
  }

  /** `needle` sits in `hay` starting at index `i`. */
  ghost predicate OccursAt(hay: string, needle: string, i: int) {
    0 <= i && i + |needle| <= |hay| && hay[i..i + |needle|] == needle
  }

  /** `hay.includes(needle)`, computed by trying each start position in turn. */
  function Includes(hay: string, needle: string): bool
    decreases |hay|
  {
    |needle| <= |hay| && (hay[..|needle|] == needle || (hay != [] && Includes(hay[1..], needle)))
  }

  /** `includes` holds exactly when the needle occurs at some position. */
  lemma {:induction false} IncludesIffOccurs(hay: string, needle: string)
    ensures Includes(hay, needle) <==> exists i :: OccursAt(hay, needle, i)
    decreases |hay|
  {
    if |needle| > |hay| {
      assert forall i :: !OccursAt(hay, needle, i);
    } else if hay[..|needle|] == needle {
      assert OccursAt(hay, needle, 0);
    } else {
      assert hay != [];
      IncludesIffOccurs(hay[1..], needle);
      if exists i :: OccursAt(hay, needle, i) {
        var i :| OccursAt(hay, needle, i);
        assert i != 0;
        assert hay[1..][i - 1..i - 1 + |needle|] == hay[i..i + |needle|];
        assert OccursAt(hay[1..], needle, i - 1);
      }
      if exists i :: OccursAt(hay[1..], needle, i) {
        var i :| OccursAt(hay[1..], needle, i);
        assert hay[i + 1..i + 1 + |needle|] == hay[1..][i..i + |needle|];
        assert OccursAt(hay, needle, i + 1);
      }
    }
  }

  /** Every string includes the empty string. */
  lemma IncludesEmpty(hay: string)
    ensures Includes(hay, "")
  {
  }

  /** How `slice` reads an index: a negative one counts from the end; both are clamped to the string. */
  function ResolveIndex(relative: int, length: nat): (k: nat)
    ensures k <= length
  {
    if relative < 0 then (if length + relative < 0 then 0 else length + relative)
    else if relative > length then length
    else relative
  }

  /** The smaller of `n` and `m`. */
  function Min(n: int, m: int): int {
    if n < m then n else m
  }

  /**
   * `s.slice(start, end)`: always a contiguous piece of `s`; from the start it
   * is the first `end` characters, clamped to the length.
   */
  function Slice(s: string, start: int, end: int): (r: string)
    ensures exists i :: OccursAt(s, r, i)
    ensures start == 0 && end >= 0 ==> r == s[..Min(end, |s|)]
  {
    var from, to := ResolveIndex(start, |s|), ResolveIndex(end, |s|);
    assert OccursAt(s, s[from..from], from);
    if from < to then
      assert OccursAt(s, s[from..to], from);
      s[from..to]
    else ""
  }

  /** `s.slice(start)`: a negative start keeps the last `-start` characters, clamped to the length. */
  function SliceFrom(s: string, start: int): (r: string)
    ensures exists i :: OccursAt(s, r, i)
    ensures start < 0 ==> r == s[|s| - Min(-start, |s|)..]
    ensures start >= 0 ==> r == s[Min(start, |s|)..]
  {
    Slice(s, start, |s|)
  }

  /** The two slices `truncateAddress` takes, on a string at least as long as both counts. */
  lemma SliceEnds(s: string, head: int, tail: int)
    requires 0 <= head <= |s| && 0 < tail <= |s|
    ensures Slice(s, 0, head) == s[..head] && |Slice(s, 0, head)| == head
    ensures SliceFrom(s, -tail) == s[|s| - tail..] && |SliceFrom(s, -tail)| == tail
  {
  }
}
