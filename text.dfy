/**
 * The two string operations the advisor relies on: Python's `str.lower()`
 * (modelled as ASCII lower-casing) and the substring test `part in text`.
 */
module Text {

  predicate IsUpper(c: char) {
    'A' <= c <= 'Z'
  }

  /** Lower-cases one ASCII letter; every other character is kept. */
  function LowerChar(c: char): (d: char)
    ensures !IsUpper(d)
    ensures IsUpper(c) ==> d as int == c as int + 32
    ensures !IsUpper(c) ==> d == c
  {
    if IsUpper(c) then (c as int + 32) as char else c
  }

  /** `s.lower()`: same length, every character lower-cased in place. */
  function Lower(s: string): (r: string)
    ensures |r| == |s|
    ensures forall i :: 0 <= i < |s| ==> r[i] == LowerChar(s[i])
  {
    seq(|s|, i requires 0 <= i < |s| => LowerChar(s[i]))
  }

  /** Lower-casing twice is lower-casing once. */
  lemma LowerIdempotent(s: string)
    ensures Lower(Lower(s)) == Lower(s)
  {
    assert forall i :: 0 <= i < |s| ==> Lower(Lower(s))[i] == Lower(s)[i];
  }

  /** `part` occurs in `text` starting at index `i`. */
  predicate OccursAt(text: string, part: string, i: int) {
    0 <= i <= |text| - |part| && text[i..i + |part|] == part
  }

  /** `text` begins with `part`. */
  predicate StartsWith(text: string, part: string) {
    |part| <= |text| && text[..|part|] == part
  }

  /**
   * Python's `part in text`, as a scan: `text` begins with `part`, or its
   * remainder after the first character contains `part`.
   */
  predicate Contains(text: string, part: string)
    decreases |text|
  {
    StartsWith(text, part) || (text != [] && Contains(text[1..], part))
  }

  /** The scan finds `part` exactly when `part` occurs at some index of `text`. */
  lemma {:induction false} ContainsIffOccurs(text: string, part: string)
    ensures Contains(text, part) <==> exists i :: OccursAt(text, part, i)
    decreases |text|
  {
    if StartsWith(text, part) {
      assert OccursAt(text, part, 0);
    } else if text == [] {
      assert forall i :: !OccursAt(text, part, i);
    } else {
      ContainsIffOccurs(text[1..], part);
      forall i | OccursAt(text, part, i) ensures OccursAt(text[1..], part, i - 1) {
        assert i != 0;
        assert text[1..][i - 1..i - 1 + |part|] == text[i..i + |part|];
      }
      forall i | OccursAt(text[1..], part, i) ensures OccursAt(text, part, i + 1) {
        assert text[1..][i..i + |part|] == text[i + 1..i + 1 + |part|];
      }
    }
  }

  /** `part` occurring at a known index is contained. */
  lemma OccursAtContained(text: string, part: string, i: int)
    requires OccursAt(text, part, i)
    ensures Contains(text, part)
  {
    ContainsIffOccurs(text, part);
  }

  /** Python's `any(w in text for w in words)`. */
  predicate ContainsAny(text: string, words: seq<string>) {
    words != [] && (Contains(text, words[0]) || ContainsAny(text, words[1..]))
  }

  /** `ContainsAny` holds exactly when one of the words is contained. */
  lemma {:induction false} ContainsAnyIffSome(text: string, words: seq<string>)
    ensures ContainsAny(text, words) <==> exists k :: 0 <= k < |words| && Contains(text, words[k])
  {
    if words != [] {
      ContainsAnyIffSome(text, words[1..]);
      assert forall k :: 1 <= k < |words| ==> words[k] == words[1..][k - 1];
    }
  }

  /** A piece with a character that `text` lacks cannot occur in `text`. */
  lemma {:induction false} MissingCharNotContained(text: string, part: string, c: char)
    requires c in part && c !in text
    ensures !Contains(text, part)
    decreases |text|
  {
    if text != [] {
      MissingCharNotContained(text[1..], part, c);
    }
  }

  /**
   * No word of `words` occurs in `text` when, for each word, `missing` names
   * one of its characters that `text` lacks.
   */
  lemma {:induction false} NoneContained(text: string, words: seq<string>, missing: seq<char>)
    requires |missing| == |words|
    requires forall k :: 0 <= k < |words| ==> missing[k] in words[k] && missing[k] !in text
    ensures !ContainsAny(text, words)
  {
    if words != [] {
      MissingCharNotContained(text, words[0], missing[0]);
      NoneContained(text, words[1..], missing[1..]);
    }
  }
}
