/** `Input::read_all`, the consumption-exact entry point (src/input.rs). It
    sits apart from module Inputs because it needs `Reader`. */
module InputReadAll {
  import opened Base
  import opened Inputs
  import opened Readers

  /** Runs `read` on a fresh reader over `input`. A callback error comes back
      unchanged; a callback success comes back only if every byte was
      consumed, and is otherwise replaced by `incompleteRead`. */
  method ReadAll<E>(input: Input, incompleteRead: E, read: seq<Op<E>>, endOfInput: E) returns (r: Result<seq<Value>, E>)
    ensures Exec(read, endOfInput, input).0.Err? ==> r == Exec(read, endOfInput, input).0
    ensures Exec(read, endOfInput, input).0.Ok? && Exec(read, endOfInput, input).1.IsEmpty() ==>
              r == Exec(read, endOfInput, input).0
    ensures Exec(read, endOfInput, input).0.Ok? && !Exec(read, endOfInput, input).1.IsEmpty() ==>
              r == Err(incompleteRead)
    ensures r.Ok? ==> Exec(read, endOfInput, input).1.Len() == 0
  {
    var reader := new Reader(input);
    var result := reader.Run(read, endOfInput);
    if result.Err? {
      return Err(result.error);
    }
    if reader.AtEnd() {
      r := Ok(result.value);
    } else {
      r := Err(incompleteRead);
    }
  }

  /** Reading all three bytes of `b"foo"` succeeds. */
  method ReadAllFoo() returns (r: Result<seq<Value>, EndOfInput>)
    ensures r == Ok([Byte(0x66), Byte(0x6f), Byte(0x6f), Flag(true)])
  {
    var e := EndOfInput;
    var empty, o, oo, foo := Input([]), Input([0x6f]), Input([0x6f, 0x6f]), Input([0x66, 0x6f, 0x6f]);
    assert o.bytes[1..] == [] && oo.bytes[1..] == o.bytes && foo.bytes[1..] == oo.bytes;
    var ops: seq<Op<EndOfInput>> := [ReadByte, ReadByte, ReadByte, AtEnd];
    assert ops[1..] == [ReadByte, ReadByte, AtEnd] && ops[2..] == [ReadByte, AtEnd] && ops[3..] == [AtEnd];
    assert ops[2..][1..] == ops[3..] && ops[1..][1..] == ops[2..] && ops[3..][1..] == [];
    assert [Flag(true)] + [] == [Flag(true)];
    assert [Byte(0x6f)] + [Flag(true)] == [Byte(0x6f), Flag(true)];
    assert [Byte(0x6f)] + [Byte(0x6f), Flag(true)] == [Byte(0x6f), Byte(0x6f), Flag(true)];
    assert [Byte(0x66)] + [Byte(0x6f), Byte(0x6f), Flag(true)] == [Byte(0x66), Byte(0x6f), Byte(0x6f), Flag(true)];
    ExecThen(ops[3..], e, empty, Flag(true), empty, [], empty);
    ExecThen(ops[2..], e, o, Byte(0x6f), empty, [Flag(true)], empty);
    ExecThen(ops[1..], e, oo, Byte(0x6f), o, [Byte(0x6f), Flag(true)], empty);
    ExecThen(ops, e, foo, Byte(0x66), oo, [Byte(0x6f), Byte(0x6f), Flag(true)], empty);
    r := ReadAll(Input.From(foo.bytes), e, ops, e);
  }

  /** Reading one byte of `b"foo"` and stopping yields the incomplete-read
      error, not the callback's value. */
  method ReadAllFooUnconsumed() returns (r: Result<seq<Value>, EndOfInput>)
    ensures r == Err(EndOfInput)
  {
    var e := EndOfInput;
    var oo, foo := Input([0x6f, 0x6f]), Input([0x66, 0x6f, 0x6f]);
    assert foo.bytes[1..] == oo.bytes;
    var ops: seq<Op<EndOfInput>> := [ReadByte, AtEnd];
    assert ops[1..] == [AtEnd] && ops[1..][1..] == [];
    assert [Flag(false)] + [] == [Flag(false)];
    ExecThen(ops[1..], e, oo, Flag(false), oo, [], oo);
    ExecThen(ops, e, foo, Byte(0x66), oo, [Flag(false)], oo);
    r := ReadAll(Input.From(foo.bytes), e, ops, e);
  }

  /** On an empty input, `read_bytes(1)` fails and leaves the reader as it
      was, so `read_bytes_to_end()` still succeeds, with nothing. */
  method ReadBytesAfterFailure() returns (failed: Result<Input, EndOfInput>, remaining: Input)
    ensures failed == Err(EndOfInput)
    ensures remaining == Input.Empty()
  {
    var reader := new Reader(Input.Empty());
    failed := reader.ReadBytes(1);
    remaining := reader.ReadBytesToEnd();
  }
}
