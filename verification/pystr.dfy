/**
 * The two Python string built-ins the detector relies on: `str.lower()`,
 * restricted to ASCII letters, and the substring test `needle in hay`.
 *
 * `Contains` is the specification of substring containment (some window of
 * the haystack equals the needle); `Occurs` is a reference search that
 * returns what `in` returns, and its contract ties the two together.
 */
module PyStr {

  /** An ASCII capital letter, the only characters this model lowercases. */
  predicate IsAsciiUpper(c: char) {
    'A' <= c <= 'Z'
  }

  /** Lowercases one character: ASCII capitals move to their small letter, everything else stays. */
  function LowerChar(c: char): (r: char)
    ensures !IsAsciiUpper(r)
    ensures r == c || (IsAsciiUpper(c) && r as int - c as int == 'a' as int - 'A' as int)
  {
    if IsAsciiUpper(c) then (c as int - 'A' as int + 'a' as int) as char else c
  }

  /** `s.lower()` on ASCII: the same length, each character lowercased, no capital left. */
  function ToLower(s: string): (r: string)
    ensures |r| == |s|
    ensures forall i :: 0 <= i < |s| ==> r[i] == LowerChar(s[i])
    ensures forall i :: 0 <= i < |r| ==> !IsAsciiUpper(r[i])
  {
    if s == [] then [] else [LowerChar(s[0])] + ToLower(s[1..])
  }

  /** Lowercasing twice is lowercasing once. */
  lemma ToLowerIdempotent(s: string)
    ensures ToLower(ToLower(s)) == ToLower(s)
  {
  }

  /** Lowercasing commutes with taking a contiguous slice. */
  lemma ToLowerSlice(s: string, i: nat, j: nat)
    requires i <= j <= |s|
    ensures ToLower(s[i..j]) == ToLower(s)[i..j]
  {
  }

  /**
   * Specification of `needle in hay`: the needle appears as a contiguous
   * window of the haystack. A contained needle is never longer than the
   * haystack, and a prefix, the empty needle among them, is always contained.
   */
  ghost predicate Contains(hay: string, needle: string): (b: bool)
    ensures b ==> |needle| <= |hay|
    ensures needle <= hay ==> b
  {
    assert needle <= hay ==> WindowAt(hay, needle, 0);
    exists i :: WindowAt(hay, needle, i)
  }

  /** The window of `hay` that starts at `i` and is as long as `needle` lies inside `hay` and equals `needle`. */
  ghost predicate WindowAt(hay: string, needle: string, i: int) {
    0 <= i <= |hay| - |needle| && hay[i..i + |needle|] == needle
  }

  /** Dropping the first character of the haystack moves every window one place to the left. */
  lemma WindowShift(hay: string, needle: string, i: nat)
    requires hay != []
    ensures WindowAt(hay[1..], needle, i) <==> WindowAt(hay, needle, i + 1)
  {
  }

  /**
   * When the needle is not a prefix of a non-empty haystack, it is contained
   * in the haystack exactly when it is contained in the haystack's tail.
   */
  lemma ContainsInTail(hay: string, needle: string)
    requires hay != [] && !(needle <= hay)
    ensures Contains(hay, needle) <==> Contains(hay[1..], needle)
  {
    if Contains(hay[1..], needle) {
      var i :| WindowAt(hay[1..], needle, i);
      WindowShift(hay, needle, i);
    }
    if Contains(hay, needle) {
      var i :| WindowAt(hay, needle, i);
      if i > 0 {
        WindowShift(hay, needle, i - 1);
      }
    }
  }

  /**
   * A reference search that returns what `needle in hay` returns: test the
   * needle as a prefix of the haystack, then of each shorter tail. It finds
   * the needle exactly when the needle is a window of the haystack.
   */
  function Occurs(hay: string, needle: string): (r: bool)
    ensures r <==> Contains(hay, needle)
  {
    if needle <= hay then true
    else if hay == [] then false
    else ContainsInTail(hay, needle); Occurs(hay[1..], needle)
  }

  /** The needle is a window of any string built around it. */
  lemma ContainsInfix(u: string, needle: string, v: string)
    ensures Contains(u + needle + v, needle)
  {
    assert (u + needle + v)[|u|..|u| + |needle|] == needle;
    assert WindowAt(u + needle + v, needle, |u|);
  }

  /** Containment is transitive: a window of a window is a window. */
  lemma ContainsTransitive(hay: string, mid: string, needle: string)
    requires Contains(hay, mid) && Contains(mid, needle)
    ensures Contains(hay, needle)
  {
    var i :| WindowAt(hay, mid, i);
    var j :| WindowAt(mid, needle, j);
    forall k | 0 <= k < |needle| ensures hay[i + j + k] == needle[k] {
      assert mid[j + k] == needle[k];
    }
    assert hay[i + j..i + j + |needle|] == needle;
    assert WindowAt(hay, needle, i + j);
  }

  /** A non-empty needle can only occur where its first character does. */
  lemma ContainsFirstChar(hay: string, needle: string)
    requires |needle| > 0 && Contains(hay, needle)
    ensures needle[0] in hay
  {
  }

  /**
   * Case-insensitive containment stated window by window, independent of the
   * sequence-level `ToLower`: some window of the haystack matches the needle
   * once each of its characters is lowercased.
   */
  ghost predicate ContainsIgnoringCase(hay: string, needle: string) {
    exists i :: MatchesAt(hay, needle, i)
  }

  /** The window of `hay` starting at `i` matches `needle` character by character, up to case. */
  ghost predicate MatchesAt(hay: string, needle: string, i: int) {
    && 0 <= i <= |hay| - |needle|
    && forall k :: 0 <= k < |needle| ==> LowerChar(hay[i + k]) == needle[k]
  }

  /** Searching the lowercased text is the same as matching each window up to case. */
  lemma LowerContainsIffIgnoringCase(hay: string, needle: string)
    ensures Contains(ToLower(hay), needle) <==> ContainsIgnoringCase(hay, needle)
  {
    var low := ToLower(hay);
    if Contains(low, needle) {
      var i :| WindowAt(low, needle, i);
      forall k | 0 <= k < |needle| ensures LowerChar(hay[i + k]) == needle[k] {
        assert low[i..i + |needle|][k] == low[i + k];
      }
      assert MatchesAt(hay, needle, i);
    }
    if ContainsIgnoringCase(hay, needle) {
      var i :| MatchesAt(hay, needle, i);
      assert low[i..i + |needle|] == needle;
      assert WindowAt(low, needle, i);
    }
  }
}
