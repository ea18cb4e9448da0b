# slices: the first-word scan

The `slices` program demonstrates Rust string slices. Its one piece of logic is
a "first word" scan over the bytes of a `String`, written twice in `src/main.rs`:

- `first_word` walks the bytes left to right. It returns the index of the
  first ASCII space (`b' '`), or the string's length when there is none.
- `first_word_slice` runs the same walk. It returns the borrowed slice
  `&s[0..i]` up to that space, or the whole string `&s[..]`.

This project models both in Dafny:

- `bytes.dfy` (module `Bytes`) holds the byte type (`u8` as a `newtype byte`) and
  the space byte `0x20`. It also holds the ASCII encoding of text, which is what
  `as_bytes()` yields for the ASCII demo input, together with its decoding.
- `str_view.dfy` (module `StrView`) holds the borrowed slice. A `View` is a
  start and an end offset into a buffer it does not own, and `Of` reads its
  bytes. It also states Rust's rule for when `&s[a..b]` is accepted: in range,
  and both ends on UTF-8 character boundaries.
- `slices.dfy` (module `Slices`) holds the scan:
  - `FirstSpaceIndex` is a recursive reference definition of the first word's end.
  - `IsBoundary` characterises that end independently of any algorithm.
  - `FirstWord` and `FirstWordSlice` are the two loops, proved equal to the reference.
  - The lemmas state the scan's properties.
- `demo.dfy` (module `Demo`) runs both scans on the entry point's sentence
  "Hello, World!".

The model works on any byte sequence. It does not require the bytes to be
valid UTF-8, since the scan never decodes characters.

## Model

| member | source | states |
|---|---|---|
| Slices.FirstSpaceIndex | src/main.rs:70-83 | the first word's end is at most the length, no byte before it is a space, and the byte at it is a space whenever it is below the length |
| Slices.BoundaryIsFirstSpaceIndex | src/main.rs:74-82 | an index is a word boundary (in range, no space before it, and a space or the end at it) if and only if it equals the scan's result, so the boundary is unique |
| Slices.WholeStringIffNoSpace | src/main.rs:82 | the result is the string's length exactly when the string contains no space (0 for the empty string) |
| Slices.SpaceFoundIffSomeSpace | src/main.rs:74-79 | the result is a position strictly inside the string exactly when some byte of the string is a space |
| Slices.FirstSpaceIndexAppend | src/main.rs:77-78 | the scan stops at the first space: bytes after a prefix that holds a space never change the result, and a space-free prefix adds its length to the result on the rest |
| Slices.FirstWord | src/main.rs:70-83 | the byte loop with early return yields the reference result, which is a word boundary |
| Slices.FirstWordOf | src/main.rs:86-96 | the first word is a prefix of the string, contains no space, and is followed by a space whenever it is shorter than the string |
| Slices.FirstWordSlice | src/main.rs:86-96 | the byte loop returns a view starting at 0 that lies inside the string and may be sliced without panicking; it ends at the index `first_word` returns, and its contents are the space-free first word |
| Slices.FirstWordIdempotent | src/main.rs:86-96 | taking the first word of a first word returns it whole, since the slice contains no space |
| Slices.FirstWordSliceCannotPanic | src/main.rs:89-95 | `&s[0..i]` and `&s[..]` are in range and end on a UTF-8 character boundary for every byte string, because a space byte is never a continuation byte |
| Demo.HelloWorld | src/main.rs:13-35 | on "Hello, World!" the first word's end index is 6 and the first word is "Hello," |
| StrView.View.Of | src/main.rs:91-95 | the bytes read through a view lying inside a buffer are that buffer's bytes from the start offset on, one per position, as many as the view spans |
| Bytes.FromAscii | src/main.rs:71 | the bytes of ASCII text have one byte per character, with the character's code as its value, and are all below 0x80 |
| Bytes.DecodeEncode | src/main.rs:71 | decoding the bytes of ASCII text gives the text back |
| Bytes.EncodeDecode | src/main.rs:87 | encoding the text decoded from ASCII bytes gives the bytes back |

## Left out

- Console output: every `println!` in `main` (src/main.rs:5-60) is I/O with no behaviour of its own.
- Stale index after mutation (src/main.rs:11-23). `first_word` returns a plain `usize`, which is not tied to the `String`. After `s.clear()` that index still compiles and prints, although it no longer describes any word. The model has no mutation, so it does not state this.
- Stale slice after mutation (src/main.rs:42-54). In Rust the borrow checker rejects using a slice after `s.clear()` at compile time. Here every buffer is an immutable value. `StrView.View` holds only two offsets, and `View.Of` accepts any buffer long enough for them. Reading a view against the buffer it was taken from is left to the caller, and the model does not check it.
- The fixed slices `&s[0..5]`, `&s[7..12]` and `&a[1..3]` (src/main.rs:30-31, 65-66). They are plain sub-range expressions with no logic of their own.
- UTF-8 validity of a `String`. The scan only compares bytes, so the model accepts any byte sequence. Text encoding is modelled for ASCII only, which covers the demo input.
- Repeating a call on an unchanged buffer gives the same result. No separate lemma states this. `FirstSpaceIndex` and `FirstWordOf` are functions of their input. The contracts of the methods `FirstWord` and `FirstWordSlice` fix their results completely: `i == FirstSpaceIndex(s)`, and `v.start == 0 && v.end == FirstSpaceIndex(s)`.
- Bytes.FromAscii — `as_bytes()` is modelled only for ASCII text, which is all the demo inputs use. Characters at or above 0x80 have multi-byte UTF-8 encodings that are not modelled. The scan itself works on any bytes.
