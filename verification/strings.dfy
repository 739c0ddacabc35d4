/**
 * The string helper `startsWith` of the CSS utilities: does `haystack` begin
 * with `needle`?
 *
 * A JavaScript string is a sequence of UTF-16 code units and is indexed by
 * code unit, so a string is modelled as a `seq<CodeUnit>`. Lone surrogates
 * (0xD800-0xDFFF) are ordinary code units here, as they are in JavaScript.
 * Strings are immutable values in JavaScript and sequences are values in
 * Dafny, so the operation cannot change its arguments: `StartsWith` has no
 * `modifies` clause.
 */
module Strings {

  /** One UTF-16 code unit: any 16-bit value, surrogates included. */
  newtype CodeUnit = x: int | 0 <= x < 0x1_0000

  /** A JavaScript string, one element per code unit. */
  type JsString = seq<CodeUnit>

  /** The specification: `haystack` begins with `needle`. */
  predicate IsPrefix(haystack: JsString, needle: JsString)
  {
    |needle| <= |haystack| && haystack[..|needle|] == needle
  }

  /**
   * An independent reference definition, by recursion on the needle: every
   * string begins with the empty string, and it begins with a non-empty
   * needle when their first code units match and the haystack's tail begins
   * with the needle's tail.
   */
  predicate PrefixRec(haystack: JsString, needle: JsString)
    ensures PrefixRec(haystack, needle) ==> |needle| <= |haystack|
    decreases |needle|
  {
    needle == [] ||
    (haystack != [] && needle[0] == haystack[0] && PrefixRec(haystack[1..], needle[1..]))
  }

  /**
   * The index at which the comparison loop stops when the needle is no longer
   * than the haystack: the first position where the code units differ, or
   * `|needle|` when none does.
   */
  function FirstMismatch(haystack: JsString, needle: JsString): (i: nat)
    requires |needle| <= |haystack|
    ensures i <= |needle|
    ensures forall k :: 0 <= k < i ==> haystack[k] == needle[k]
    ensures i < |needle| ==> haystack[i] != needle[i]
    decreases |needle|
  {
    if needle == [] || haystack[0] != needle[0] then 0
    else
      var j := FirstMismatch(haystack[1..], needle[1..]);
      assert forall k :: 1 <= k < j + 1 ==> haystack[1..][k - 1] == haystack[k] && needle[1..][k - 1] == needle[k];
      j + 1
  }

  /**
   * `startsWith(haystack, needle)`: returns false at once when the needle is
   * longer, then compares the two strings one code unit at a time, returning
   * false at the first position where they differ and true when every
   * position of the needle matched. The ghost `stop` is the index at which
   * the loop returned.
   */
  method StartsWith(haystack: JsString, needle: JsString) returns (r: bool, ghost stop: nat)
    ensures r <==> IsPrefix(haystack, needle)
    ensures |needle| <= |haystack| ==> stop == FirstMismatch(haystack, needle)
  {
    if |haystack| < |needle| {
      return false, 0;
    }
    for i := 0 to |needle|
      invariant forall k :: 0 <= k < i ==> haystack[k] == needle[k]
    {
      if haystack[i] != needle[i] {
        return false, i;
      }
    }
    return true, |needle|;
  }

  /** The prefix test holds exactly when every code unit of the needle matches. */
  lemma IsPrefixPointwise(haystack: JsString, needle: JsString)
    ensures IsPrefix(haystack, needle) <==>
            |needle| <= |haystack| && forall k :: 0 <= k < |needle| ==> haystack[k] == needle[k]
  {
  }

  /** The recursive reference definition agrees with the specification. */
  lemma {:induction false} PrefixRecIsPrefix(haystack: JsString, needle: JsString)
    ensures PrefixRec(haystack, needle) <==> IsPrefix(haystack, needle)
    decreases |needle|
  {
    if needle != [] && haystack != [] {
      PrefixRecIsPrefix(haystack[1..], needle[1..]);
      if IsPrefix(haystack[1..], needle[1..]) && needle[0] == haystack[0] {
        assert haystack[..|needle|] == [haystack[0]] + haystack[1..][..|needle| - 1];
        assert needle == [needle[0]] + needle[1..];
      }
      if IsPrefix(haystack, needle) {
        assert haystack[1..][..|needle| - 1] == haystack[..|needle|][1..];
      }
    }
  }

  /** The answer is true exactly when the loop runs to the end of the needle without a mismatch. */
  lemma IsPrefixIffNoMismatch(haystack: JsString, needle: JsString)
    requires |needle| <= |haystack|
    ensures IsPrefix(haystack, needle) <==> FirstMismatch(haystack, needle) == |needle|
  {
  }

  /** A needle longer than the haystack is never a prefix of it. */
  lemma LongerNeedleIsNotPrefix(haystack: JsString, needle: JsString)
    requires |haystack| < |needle|
    ensures !IsPrefix(haystack, needle)
  {
  }

  /** Every string begins with the empty string. */
  lemma EmptyNeedleIsPrefix(haystack: JsString)
    ensures IsPrefix(haystack, [])
  {
  }

  /** Every string starts with itself. */
  lemma IsPrefixReflexive(s: JsString)
    ensures IsPrefix(s, s)
  {
  }

  /** One differing code unit inside the needle's length rules the prefix out. */
  lemma MismatchIsNotPrefix(haystack: JsString, needle: JsString, i: nat)
    requires i < |needle| && i < |haystack|
    requires haystack[i] != needle[i]
    ensures !IsPrefix(haystack, needle)
  {
  }

  /** Appending to the haystack keeps a prefix a prefix. */
  lemma ExtendHaystack(haystack: JsString, tail: JsString, needle: JsString)
    requires IsPrefix(haystack, needle)
    ensures IsPrefix(haystack + tail, needle)
  {
    assert (haystack + tail)[..|needle|] == haystack[..|needle|];
  }

  /**
   * A lone high surrogate is a string of its own: "\uD83D" is a prefix of
   * the two code units of U+1F600, the emoji "grinning face".
   */
  lemma SurrogatePrefix()
    ensures IsPrefix([0xD83D as CodeUnit, 0xDE00 as CodeUnit], [0xD83D as CodeUnit])
  {
  }
}
