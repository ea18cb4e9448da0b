/**
  The first-word scan of the `slices` program. `first_word` returns the byte
  index at which the first word of a string ends (the first ASCII space, or the
  string's length); `first_word_slice` runs the same scan and returns the
  borrowed slice of the string up to that index.
 */
module Slices {
  import opened Bytes
  import opened StrView

  /** No byte of `s` is a space. */
  predicate NoSpace(s: seq<byte>) {
    forall k :: 0 <= k < |s| ==> s[k] != Space
  }

  /**
    `i` ends the first word of `s`: it is a position in `s` (or its length),
    no space occurs before it, and it is either the end of `s` or a space.
   */
  predicate IsBoundary(s: seq<byte>, i: nat) {
    i <= |s| && NoSpace(s[..i]) && (i == |s| || s[i] == Space)
  }

  /**
    Reference definition of the first word's end: the index of the first space
    byte, or `|s|` when there is none, defined by recursion on the bytes rather
    than by a loop.
   */
  function FirstSpaceIndex(s: seq<byte>): (i: nat)
    ensures i <= |s| && NoSpace(s[..i])
    ensures i < |s| ==> s[i] == Space
  {
    if |s| == 0 then 0
    else if s[0] == Space then 0
    else
      var j := FirstSpaceIndex(s[1..]);
      assert s[..j + 1] == [s[0]] + s[1..][..j];
      j + 1
  }

  /** The first word of `s` as bytes: the prefix ending at the first space. */
  function FirstWordOf(s: seq<byte>): (w: seq<byte>)
    ensures w <= s
    ensures NoSpace(w)
    ensures |w| < |s| ==> s[|w|] == Space
  {
    s[..FirstSpaceIndex(s)]
  }

  /** The boundary is unique, and it is exactly what `FirstSpaceIndex` computes. */
  lemma BoundaryIsFirstSpaceIndex(s: seq<byte>, i: nat)
    ensures IsBoundary(s, i) <==> i == FirstSpaceIndex(s)
  {
  }

  /** The scan runs to the end of `s` exactly when `s` holds no space. */
  lemma WholeStringIffNoSpace(s: seq<byte>)
    ensures FirstSpaceIndex(s) == |s| <==> NoSpace(s)
  {
    var i := FirstSpaceIndex(s);
    assert s[..|s|] == s;
    if i < |s| {
      assert s[i] == Space;
    }
  }

  /** When `s` holds a space, the result is the position of a space byte. */
  lemma SpaceFoundIffSomeSpace(s: seq<byte>)
    ensures FirstSpaceIndex(s) < |s| <==> exists k :: 0 <= k < |s| && s[k] == Space
  {
  }

  /**
    The scan stops at the first space it meets: once the prefix `a` holds a
    space, nothing appended after it changes the result; otherwise the result
    is `|a|` plus the result on what follows.
   */
  lemma {:induction false} FirstSpaceIndexAppend(a: seq<byte>, b: seq<byte>)
    ensures FirstSpaceIndex(a + b) ==
            if NoSpace(a) then |a| + FirstSpaceIndex(b) else FirstSpaceIndex(a)
  {
    if |a| == 0 {
      assert a + b == b;
    } else if a[0] == Space {
      assert (a + b)[0] == Space;
    } else {
      assert (a + b)[1..] == a[1..] + b;
      FirstSpaceIndexAppend(a[1..], b);
      assert NoSpace(a) <==> NoSpace(a[1..]) by {
        if NoSpace(a[1..]) {
          forall k | 0 <= k < |a| ensures a[k] != Space {
            if k > 0 { assert a[k] == a[1..][k - 1]; }
          }
        }
      }
    }
  }

  /** Taking the first word of a first word gives it back whole. */
  lemma FirstWordIdempotent(s: seq<byte>)
    ensures FirstWordOf(FirstWordOf(s)) == FirstWordOf(s)
  {
  }

  /**
    The end of the first word is a character boundary of any byte string, so
    the slices `&s[0..i]` and `&s[..]` never panic: a space is ASCII and never a
    UTF-8 continuation byte.
   */
  lemma FirstWordSliceCannotPanic(s: seq<byte>)
    ensures CanSlice(s, 0, FirstSpaceIndex(s))
  {
  }

  /**
    `first_word`: scan the bytes left to right and return the index of the
    first space, or the length when there is none.
   */
  method FirstWord(s: seq<byte>) returns (i: nat)
    ensures i == FirstSpaceIndex(s)
    ensures IsBoundary(s, i)
  {
    var n := 0;
    while n < |s|
      invariant n <= |s|
      invariant NoSpace(s[..n])
    {
      if s[n] == Space {
        BoundaryIsFirstSpaceIndex(s, n);
        return n;
      }
      assert s[..n + 1] == s[..n] + [s[n]];
      n := n + 1;
    }
    BoundaryIsFirstSpaceIndex(s, |s|);
    return |s|;
  }

  /**
    `first_word_slice`: the same scan, returning the view `&s[0..i]` at the
    first space, or the whole string `&s[..]` when there is none.
   */
  method FirstWordSlice(s: seq<byte>) returns (v: View)
    ensures v.start == 0 && v.ValidIn(s)
    ensures CanSlice(s, v.start, v.end)
    ensures v.end == FirstSpaceIndex(s)
    ensures v.Of(s) == FirstWordOf(s)
    ensures NoSpace(v.Of(s))
  {
    var n := 0;
    while n < |s|
      invariant n <= |s|
      invariant NoSpace(s[..n])
    {
      if s[n] == Space {
        BoundaryIsFirstSpaceIndex(s, n);
        return View(0, n);
      }
      assert s[..n + 1] == s[..n] + [s[n]];
      n := n + 1;
    }
    BoundaryIsFirstSpaceIndex(s, |s|);
    return View(0, |s|);
  }
}
