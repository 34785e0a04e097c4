# untrusted: a verified model of the panic-free byte cursor

This project models, in Dafny, the core of the `untrusted` Rust library: a
cursor for parsing byte buffers that come from untrusted sources. It has
three parts.

- **`Slice`** (module `NoPanic`, `no_panic.rs`) is a view over bytes.
  Its accessors return `None` instead of trapping. Its debug renderer prints
  the bytes as a Rust byte-string literal.
- **`Input`** (module `Inputs`, `input.rs`) is an immutable value over bytes.
  It has checked `first`, `split_first` and `split_at`, and its equality is
  byte-content equality.
- **`Reader`** (module `Readers`, `reader.rs`) is a class with one mutable
  field, `rest`: the input not yet consumed. Every read shrinks `rest` to a
  suffix of itself. A failed read leaves `rest` as it was.
- **`read_all`** (module `InputReadAll`, `input.rs`) runs a read callback on a
  fresh reader. It accepts the callback's value only if every byte was
  consumed.

Bytes are `Base.byte`, the integers 0 to 255. Lengths and indices are `nat`.

Rust closures cannot be passed to a Dafny method. A read callback is
therefore written as a sequence of reader calls, `Readers.Op`: `ReadByte`,
`ReadBytes(n)`, `ReadBytesToEnd`, `Skip(n)`, `SkipToEnd`, `Peek(b)`, `AtEnd`,
`Partial(body)` (a nested `read_partial`) and `Fail(e)` (the callback returns
its own error). A reader error is turned into the callback's error type by a
given value `endOfInput`, as `?` does with `From<EndOfInput>`.

- `Readers.Reader.Run` runs such a callback on the reader.
- The pure function `Readers.Exec` states what the callback returns and what
  input is left. It is defined on the bytes, independently of `Reader`.
- `Exec` proves that the remaining input only ever shrinks to a suffix. That
  is why the two `unwrap`s in `read_partial` cannot panic. Each is modelled
  as a `.value` access that the verifier must prove safe.

The renderer is paired with an inverse, `NoPanic.Parse`. The round-trip
lemma shows that no byte is dropped or escaped ambiguously. The contract of
`NoPanic.Render` states that the output contains only printable ASCII.

## Model

| member | source | states |
|---|---|---|
| `Base.CheckedSub` | src/reader.rs:88 | `checked_sub` fails exactly when it would underflow; otherwise the difference plus the subtrahend gives back the minuend |
| `NoPanic.Slice.New` | src/no_panic.rs:11-13 | the view holds exactly the given bytes and has their length |
| `NoPanic.Slice.Get` | src/no_panic.rs:16-18 | `get(i)` is `Some(bytes[i])` if and only if `i < len`, else `None`, for any `i` |
| `NoPanic.Slice.Subslice` | src/no_panic.rs:21-23 | `subslice(start..end)` succeeds if and only if `start <= end <= len`; it then has length `end - start` and holds `bytes[start..end]` element by element |
| `NoPanic.Slice.IsEmpty` | src/no_panic.rs:26-28 | true exactly when the length is 0 |
| `NoPanic.Slice.Len` | src/no_panic.rs:31-33 | the number of bytes in the view |
| `NoPanic.SubsliceShrinks` | src/no_panic.rs:21-23 | a sub-view is never longer than its parent |
| `NoPanic.HexDigit` | src/no_panic.rs:66 | the digit of `{:02x}` for a nibble is `0`-`9` for 0-9 and lowercase `a`-`f` for 10-15, is printable, and reads back as that nibble |
| `NoPanic.Escape` | src/no_panic.rs:52-67 | each of the 256 byte values gets an escape of length 1, 2 or 4, made of printable ASCII; the length is 1 exactly for 0x20..0x7e other than `\` and `"`; longer escapes start with a backslash |
| `NoPanic.EscapeAll` | src/no_panic.rs:50-68 | the escapes of all bytes are between 1 and 4 characters per byte, all printable ASCII |
| `NoPanic.Render` | src/no_panic.rs:48-70 | the rendering starts with `b"`, ends with `"`, is 3 plus 1 to 4 characters per byte, and is printable ASCII throughout |
| `NoPanic.EscapeAllAppend` | src/no_panic.rs:50-68 | appending a byte appends exactly its escape |
| `NoPanic.EscapeAllConcat` | src/no_panic.rs:50-68 | the escapes of a concatenation are the concatenation of the escapes, so the middle of the rendering is one escape per byte, in order |
| `NoPanic.Fmt` | src/no_panic.rs:48-70 | the `for` loop that writes `b"`, each byte's escape and `"` produces exactly `Render` of the bytes |
| `NoPanic.UnescapeEscape` | src/no_panic.rs:52-67 | each byte's escape reads back as that byte and takes exactly its own length, whatever follows it |
| `NoPanic.UnescapeAllEscapeAll` | src/no_panic.rs:50-68 | the escaped bytes read back as exactly those bytes |
| `NoPanic.RenderRoundTrip` | src/no_panic.rs:48-70 | parsing the rendering gives back the original bytes |
| `NoPanic.RenderInjective` | src/no_panic.rs:48-70 | two byte strings with the same rendering are equal |
| `NoPanic.EscapeTable` | tests/tests.rs:107-136 | `\n`, `\r`, `\t`, `\\`, `\"` and `\0`; 0x20, `A` and `~` literally; 0x01, 0x0b, 0x1f, 0x7f, 0x80 and 0xff as `\x` plus two lowercase hex digits |
| `Inputs.Input.Empty` | src/input.rs:25-27 | the empty input has length 0 |
| `Inputs.Input.From` | src/input.rs:32-39 | wrapping any bytes succeeds; `as_slice_less_safe` gives them back, and the length is theirs |
| `Inputs.Input.First` | src/input.rs:43-45 | `Some(bytes[0])` when non-empty, `None` exactly when empty |
| `Inputs.Input.IsEmpty` | src/input.rs:49-51 | true exactly when `len() == 0` |
| `Inputs.Input.Len` | src/input.rs:55-57 | the number of bytes |
| `Inputs.Input.SplitFirst` | src/input.rs:78-80 | fails exactly when empty; otherwise the head byte followed by the tail is the input, and the tail has length `len - 1` |
| `Inputs.Input.SplitAt` | src/input.rs:85-91 | fails exactly when `i > len`; otherwise `before` has length `i`, `after` has length `len - i`, and `before ++ after` is the input |
| `Inputs.SplitAtEnds` | src/input.rs:85-91 | splitting at 0 and at `len` always succeeds, with an empty part on the outer side |
| `Inputs.Input.Eq` | src/input.rs:111-116 | `Input == Input` holds exactly when the lengths match and every byte matches |
| `Inputs.Input.EqSlice` | src/input.rs:118-123 | `Input == [u8]` holds exactly when the bytes match one by one |
| `Inputs.SliceEqInput` | src/input.rs:125-130 | `[u8] == Input` holds exactly when the bytes match one by one |
| `Inputs.EqualitiesAgree` | src/input.rs:111-130 | the three equalities are symmetric and agree with one another |
| `Inputs.FromExamples` | tests/tests.rs:22-34 | `from(b"foo")` has length 3 and is not empty; `from(b"")` is empty |
| `Readers.Step` | src/reader.rs:54-106 | whatever one reader call does, the remaining input afterwards is a suffix of the one before; a failed call other than a partial read leaves it unchanged |
| `Readers.Exec` | src/reader.rs:82-91 | whatever a callback built from reader calls does, including nested partial reads and errors, the remaining input afterwards is a suffix of the one before, so its length never grows |
| `Readers.StepAccountsForEveryByte` | src/reader.rs:54-77 | a successful read hands back exactly the bytes it moved past: the returned bytes followed by the new remaining input are the old one |
| `Readers.ExecAccountsForEveryByte` | src/reader.rs:17-23 | a successful callback that does not skip gets back every consumed byte once, in order: the bytes returned, followed by what remains, are the original input |
| `Readers.PartialPrefix` | src/reader.rs:88-89 | the `checked_sub` unwrap succeeds exactly when the remaining input did not grow; the `split_at` unwrap then always succeeds; when the new remaining input is a suffix of the original, the result followed by it is the original |
| `Readers.PartialPrefixNeedsSuffix` | src/reader.rs:88-89 | if the remaining input were replaced by a longer one, the unwrap would panic; if it were replaced by a shorter one that is not a suffix, the returned prefix would not be what was read |
| `Readers.Reader.constructor` | src/reader.rs:31-33 | a new reader's remaining input is the given input |
| `Readers.Reader.AtEnd` | src/reader.rs:38-40 | true exactly when no input remains |
| `Readers.Reader.Peek` | src/reader.rs:45-47 | true exactly when some input remains and its first byte is `b`; a function, so the state is unchanged |
| `Readers.Reader.ReadByte` | src/reader.rs:54-58 | on empty input it returns `EndOfInput` and leaves the state unchanged, so repeated calls keep failing; otherwise it returns the first byte and the rest is the old rest without it |
| `Readers.Reader.ReadBytes` | src/reader.rs:66-70 | succeeds exactly when `n <= len` (so always for `n == 0`), returning the first `n` bytes and leaving the remaining bytes; on failure it returns `EndOfInput` and the state is unchanged |
| `Readers.Reader.ReadBytesToEnd` | src/reader.rs:75-77 | always returns the whole old remaining input and leaves the reader at the end |
| `Readers.Reader.ReadPartial` | src/reader.rs:82-91 | a callback error comes back unchanged; on success the callback's value is returned together with the exact prefix consumed, and that prefix followed by the new remaining input is the old remaining input; neither unwrap can fail |
| `Readers.Reader.Skip` | src/reader.rs:98-100 | same success condition and same state change as `read_bytes(n)`; unchanged state on failure |
| `Readers.Reader.SkipToEnd` | src/reader.rs:104-106 | leaves the reader at the end, as `read_bytes_to_end` does |
| `Readers.Reader.RunStep` | src/reader.rs:54-106 | one call of a callback on the reader returns and leaves exactly what `Step` says |
| `Readers.Reader.Run` | src/input.rs:67 | running a callback on the reader returns and leaves exactly what `Exec` says |
| `InputReadAll.ReadAll` | src/input.rs:62-73 | a callback error is returned unchanged, with no consumption check; a callback success is returned if no byte remains, and is replaced by `incomplete_read` if any byte remains; a success therefore means every byte was consumed |
| `InputReadAll.ReadAllFoo` | tests/tests.rs:36-47 | three `read_byte`s on `b"foo"` read `f`, `o`, `o`, reach the end, and `read_all` succeeds |
| `InputReadAll.ReadAllFooUnconsumed` | tests/tests.rs:49-58 | one `read_byte` on `b"foo"` leaves bytes, so `read_all` returns the incomplete-read error |
| `InputReadAll.ReadBytesAfterFailure` | tests/tests.rs:67-76 | on empty input `read_bytes(1)` fails with `EndOfInput`, and `read_bytes_to_end()` then still succeeds, returning empty |

## Left out

- Typed integer decoding (`reader.read()`, `Input::from_be`, `Input::from_le`), used by tests/untrusted.rs, is not part of this model. Its implementation is not among the source files.
- benches/untrusted.rs (timing, an OS random source, the `byteorder` crate) is not part of this model.
- Lifetimes and borrowing (`'a`, `Input<'static>`, `const fn`) and the `From<&[u8]>` conversion are not modelled. Every buffer is an immutable `seq`, so a view cannot outlive its bytes.
- `usize` width is not modelled; lengths and indices are unbounded `nat`. The overflow argument in the comment at src/input.rs:33-37 is therefore not needed.
- `fmt::Formatter` and its `fmt::Result` error path are not modelled. The rendering is a returned string.
- The derived `Debug` of `Input` and `Reader` is not modelled. tests/tests.rs:136 renders an `Input` with the byte-string renderer, but src/input.rs derives `Debug`; the model attaches the renderer to `Slice` only, as src/no_panic.rs does.
- `Inputs.Input` wraps a byte sequence, as `Input` wraps `&[u8]` directly (src/input.rs:21) and not a `Slice`.
- Read callbacks are a fixed language of reader calls, not arbitrary code. Assertions inside test callbacks are not modelled. A callback that overwrites the reader with `Reader::new` cannot be expressed, so `Readers.Reader.ReadPartial` is proved panic-free only for callbacks that use the reader's own calls. `Readers.PartialPrefixNeedsSuffix` shows what an overwrite could do.
- `Readers.Exec`: callbacks are straight-line. A callback cannot choose its next call from a value already read, and every reader error ends it, as `?` does; a callback that handles a failed read and carries on (as tests/tests.rs:70-73 does) is modelled on a bare `Reader` instead. For callbacks outside this language, only `Step`'s per-call facts carry over: the remaining input after each call is a suffix of the one before, and a failed call other than a partial read leaves it unchanged.
- `Inputs.Input.AsSliceLessSafe` and `NoPanic.Slice.AsSliceLessSafe` carry no contract of their own. `Inputs.Input.From` and `NoPanic.Slice.New` state that they return the wrapped bytes.

## Findings

| source | as written | input that shows it | evidently intended | confidence | as-written member | corrected member |
|---|---|---|---|---|---|---|
| src/reader.rs:88 | `original.len().checked_sub(self.0.len()).unwrap()` assumes the callback only shrank the reader; `Reader::new` is public (src/reader.rs:31), so a callback can replace `*reader` with a longer input and the `unwrap` panics, against "The methods of `Reader` never panic" (src/reader.rs:22-23) | original remaining input empty, callback sets the reader to `Reader::new(Input::from(&[0]))`: `checked_sub(0, 1)` is `None` | `read_partial` never panics and returns exactly the bytes its callback consumed | not executed; medium (the panic needs a callback that overwrites the reader) | `Readers.PartialPrefix` (with `Readers.PartialPrefixNeedsSuffix`) | `Readers.Reader.ReadPartial`, proved panic-free with `bytes_read ++ rest == original` for callbacks that use only the reader's own calls |
