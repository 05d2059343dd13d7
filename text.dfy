/**
 * Native identifier normalisation: `native_id.lower().strip()`, restricted to ASCII.
 * `str.lower` maps 'A'..'Z' to 'a'..'z'; `str.strip()` removes the characters
 * `str.isspace` accepts, which in ASCII are 9..13, 28..31 and the space.
 */
module Text {

  predicate IsSpace(c: char) {
    var n := c as int;
    n == 32 || 9 <= n <= 13 || 28 <= n <= 31
  }

  predicate IsUpper(c: char) {
    'A' <= c <= 'Z'
  }

  predicate NoUpper(s: string) {
    forall i :: 0 <= i < |s| ==> !IsUpper(s[i])
  }

  predicate AllSpace(s: string) {
    forall i :: 0 <= i < |s| ==> IsSpace(s[i])
  }

  /** Every character of `s` from `lo` up to (not including) `hi` is whitespace. */
  predicate SpaceIn(s: string, lo: int, hi: int)
    requires 0 <= lo <= hi <= |s|
  {
    forall k :: lo <= k < hi ==> IsSpace(s[k])
  }

  /** Neither the first nor the last character is whitespace. */
  predicate Trimmed(s: string) {
    s == [] || (!IsSpace(s[0]) && !IsSpace(s[|s| - 1]))
  }

  function LowerChar(c: char): (r: char)
    ensures !IsUpper(r)
    ensures IsSpace(r) <==> IsSpace(c)
    ensures !IsUpper(c) ==> r == c
    ensures IsUpper(c) ==> r as int - c as int == 32
  {
    if IsUpper(c) then (c as int + 32) as char else c
  }

  /** `str.lower` over ASCII letters. */
  function Lower(s: string): (r: string)
    ensures |r| == |s|
    ensures forall i :: 0 <= i < |s| ==> r[i] == LowerChar(s[i])
  {
    if s == [] then [] else [LowerChar(s[0])] + Lower(s[1..])
  }

  /** The first index at or after `i` that does not hold whitespace, or `|s|`. */
  function SkipSpaceForward(s: string, i: nat): (r: nat)
    requires i <= |s|
    ensures i <= r <= |s|
    ensures SpaceIn(s, i, r)
    ensures r < |s| ==> !IsSpace(s[r])
    decreases |s| - i
  {
    if i < |s| && IsSpace(s[i]) then SkipSpaceForward(s, i + 1) else i
  }

  /**
   * Walking back from `j`, but not below `lo`, the end of the last
   * non-whitespace character.
   */
  function SkipSpaceBackward(s: string, lo: nat, j: nat): (r: nat)
    requires lo <= j <= |s|
    ensures lo <= r <= j
    ensures SpaceIn(s, r, j)
    ensures lo < r ==> !IsSpace(s[r - 1])
    decreases j
  {
    if lo < j && IsSpace(s[j - 1]) then SkipSpaceBackward(s, lo, j - 1) else j
  }

  /** Index of the first character `Strip` keeps. */
  function StripStart(s: string): (i: nat)
    ensures i <= |s|
  {
    SkipSpaceForward(s, 0)
  }

  /** Index just past the last character `Strip` keeps. */
  function StripEnd(s: string): (j: nat)
    ensures StripStart(s) <= j <= |s|
  {
    SkipSpaceBackward(s, StripStart(s), |s|)
  }

  /**
   * `str.strip()`: the slice of `s` left after removing whitespace at both ends.
   * Together these properties determine the result (see StripUnique).
   */
  function Strip(s: string): (r: string)
    ensures Trimmed(r)
    ensures r == s[StripStart(s)..StripEnd(s)]
    ensures SpaceIn(s, 0, StripStart(s)) && SpaceIn(s, StripEnd(s), |s|)
  {
    s[StripStart(s)..StripEnd(s)]
  }

  lemma SliceNoUpper(s: string, i: int, j: int)
    requires 0 <= i <= j <= |s|
    requires NoUpper(s)
    ensures NoUpper(s[i..j])
  {
    assert forall k :: 0 <= k < j - i ==> s[i..j][k] == s[i + k];
  }

  /** `normalize_native_id`: lower-case, then strip. */
  function NormalizeNativeId(nativeId: string): (r: string)
    ensures NoUpper(r)
    ensures Trimmed(r)
  {
    var lowered := Lower(nativeId);
    SliceNoUpper(lowered, StripStart(lowered), StripEnd(lowered));
    Strip(lowered)
  }

  /** Any whitespace-bordered trimmed slice of `s` is what `Strip` returns. */
  lemma StripUnique(s: string, i: int, j: int)
    requires 0 <= i <= j <= |s|
    requires SpaceIn(s, 0, i) && SpaceIn(s, j, |s|)
    requires Trimmed(s[i..j])
    ensures Strip(s) == s[i..j]
  {
    var i0, j0 := StripStart(s), StripEnd(s);
    if i < j {
      assert !IsSpace(s[i]) && !IsSpace(s[j - 1]) by {
        assert s[i..j][0] == s[i] && s[i..j][j - i - 1] == s[j - 1];
      }
      // s[i] is the first non-space character, s[j - 1] the last one
      assert i0 == i;
      assert j0 == j;
    } else if i0 < j0 {
      assert false;
    }
  }

  lemma LowerOfNoUpper(s: string)
    requires NoUpper(s)
    ensures Lower(s) == s
  {
  }

  /** Normalising an already normalised identifier changes nothing. */
  lemma NormalizeIdempotent(nativeId: string)
    ensures NormalizeNativeId(NormalizeNativeId(nativeId)) == NormalizeNativeId(nativeId)
  {
    var n := NormalizeNativeId(nativeId);
    LowerOfNoUpper(n);
    StripUnique(n, 0, |n|);
  }

  /**
   * The stored identifiers are exactly the lower-case strings without
   * whitespace at either end: those, and only those, normalise to themselves.
   */
  lemma NormalizeFixedPoints(s: string)
    ensures NormalizeNativeId(s) == s <==> NoUpper(s) && Trimmed(s)
  {
    if NoUpper(s) && Trimmed(s) {
      LowerOfNoUpper(s);
      StripUnique(s, 0, |s|);
    }
  }

  lemma LowerConcat(a: string, b: string)
    ensures Lower(a + b) == Lower(a) + Lower(b)
  {
  }

  /**
   * Surrounding whitespace does not matter: padding an identifier with
   * whitespace gives the same stored value.
   */
  lemma NormalizeIgnoresPadding(pre: string, s: string, post: string)
    requires AllSpace(pre) && AllSpace(post)
    ensures NormalizeNativeId(pre + s + post) == NormalizeNativeId(s)
  {
    var lp, ls, lq := Lower(pre), Lower(s), Lower(post);
    LowerConcat(pre + s, post);
    LowerConcat(pre, s);
    assert Lower(pre + s + post) == lp + ls + lq;
    assert AllSpace(lp) && AllSpace(lq);
    StripPadded(lp, ls, lq);
  }

  /** Whitespace around a string does not change what `Strip` returns. */
  lemma StripPadded(pre: string, s: string, post: string)
    requires AllSpace(pre) && AllSpace(post)
    ensures Strip(pre + s + post) == Strip(s)
  {
    var whole := pre + s + post;
    var i, j := StripStart(s), StripEnd(s);
    PaddedSlice(pre, s, post, i, j);
    assert SpaceIn(whole, 0, |pre| + i) by {
      forall k | 0 <= k < |pre| + i ensures IsSpace(whole[k]) {
        if k < |pre| { assert whole[k] == pre[k]; } else { assert whole[k] == s[k - |pre|]; }
      }
    }
    assert SpaceIn(whole, |pre| + j, |whole|) by {
      forall k | |pre| + j <= k < |whole| ensures IsSpace(whole[k]) {
        if k < |pre| + |s| { assert whole[k] == s[k - |pre|]; } else { assert whole[k] == post[k - |pre| - |s|]; }
      }
    }
    StripUnique(whole, |pre| + i, |pre| + j);
  }

  lemma PaddedSlice(pre: string, s: string, post: string, i: int, j: int)
    requires 0 <= i <= j <= |s|
    ensures (pre + s + post)[|pre| + i..|pre| + j] == s[i..j]
  {
    var whole := pre + s + post;
    assert forall k :: 0 <= k < j - i ==> whole[|pre| + i..|pre| + j][k] == s[i..j][k];
  }

  /** Changing the case of the letters gives the same stored value. */
  lemma NormalizeIgnoresCase(s: string)
    ensures NormalizeNativeId(Lower(s)) == NormalizeNativeId(s)
  {
    LowerOfNoUpper(Lower(s));
  }

  /** The identifiers "  ABC " and "abc" are stored as the same value, "abc". */
  lemma NormalizeExample()
    ensures NormalizeNativeId("  ABC ") == NormalizeNativeId("abc") == "abc"
  {
    assert "  ABC " == "  " + "ABC" + " ";
    NormalizeIgnoresPadding("  ", "ABC", " ");
    assert Lower("ABC") == "abc";
    NormalizeIgnoresCase("ABC");
    StripUnique("abc", 0, 3);
  }
}
