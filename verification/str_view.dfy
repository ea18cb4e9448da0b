/**
  A borrowed string slice (`&str` taken from a `String`): a start offset and an
  end offset into a byte buffer that it does not own. The view itself stores no
  bytes and does not record which buffer it came from: reading it against that
  same buffer is up to the caller.
 */
module StrView {
  import opened Bytes

  datatype View = View(start: nat, end: nat) {

    /** The view lies inside `buf`, so reading through it cannot go out of range. */
    predicate ValidIn(buf: seq<byte>) {
      start <= end <= |buf|
    }

    /** Number of bytes the view spans (`str::len`). */
    function Len(): nat {
      if start <= end then end - start else 0
    }

    /** The bytes of `buf` that the view refers to. */
    function Of(buf: seq<byte>): (w: seq<byte>)
      requires ValidIn(buf)
      ensures |w| == Len()
      ensures forall k :: 0 <= k < |w| ==> w[k] == buf[start + k]
    {
      buf[start..end]
    }
  }

  /**
    Rust's `str::is_char_boundary` on the UTF-8 bytes of a string: index 0 and
    the length are boundaries; an inner index is one unless its byte is a
    UTF-8 continuation byte (0x80 to 0xBF). Slicing a `String` at an index that
    is not a boundary panics.
   */
  predicate IsCharBoundary(buf: seq<byte>, index: nat) {
    if index == 0 then true
    else if index >= |buf| then index == |buf|
    else !(0x80 <= buf[index] <= 0xBF)
  }

  /** `&buf[lo..hi]` is accepted by Rust: in range and on character boundaries. */
  predicate CanSlice(buf: seq<byte>, lo: nat, hi: nat) {
    lo <= hi <= |buf| && IsCharBoundary(buf, lo) && IsCharBoundary(buf, hi)
  }
}
