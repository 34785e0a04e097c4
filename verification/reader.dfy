/** `Reader`: the forward-only cursor over an `Input` (src/reader.rs), and
    the read callbacks that drive it. */
module Readers {
  import opened Base
  import opened Inputs

  /** The one failure of a read: fewer bytes remain than were asked for. */
  datatype EndOfInput = EndOfInput

  /** A read callback, written as the sequence of reader calls it makes.
      Each call's `EndOfInput` is propagated with `?`, i.e. converted to the
      callback's error type; `Fail(e)` is the callback returning `Err(e)` of
      its own accord. */
  datatype Op<E> =
    | ReadByte
    | ReadBytes(n: nat)
    | ReadBytesToEnd
    | Skip(n: nat)
    | SkipToEnd
    | Peek(b: byte)
    | AtEnd
    | Partial(body: seq<Op<E>>)
    | Fail(e: E)

  /** What one call gave back to the callback. */
  datatype Value =
    | Byte(b: byte)
    | Bytes(input: Input)
    | Flag(flag: bool)
    | Unit
    | Consumed(bytesRead: Input, values: seq<Value>)

  lemma SuffixTransitive(a: seq<byte>, b: seq<byte>, c: seq<byte>)
    requires IsSuffix(a, b) && IsSuffix(b, c)
    ensures IsSuffix(a, c)
  {
    assert c[|c| - |b|..][|b| - |a|..] == c[|c| - |a|..];
  }

  /** What one reader call `op` returns when the remaining input is `rest`,
      and the remaining input after it. Defined on the bytes directly,
      independently of `Reader`. */
  function Step<E>(op: Op<E>, endOfInput: E, rest: Input): (o: (Result<Value, E>, Input))
    ensures IsSuffix(o.1.bytes, rest.bytes)
    ensures o.0.Err? && !op.Partial? ==> o.1 == rest
    decreases op
  {
    var s := rest.bytes;
    match op
    case ReadByte =>
      if s == [] then (Err(endOfInput), rest) else (Ok(Byte(s[0])), Input(s[1..]))
    case ReadBytes(n) =>
      if n <= |s| then (Ok(Bytes(Input(s[..n]))), Input(s[n..])) else (Err(endOfInput), rest)
    case ReadBytesToEnd => (Ok(Bytes(rest)), Input([]))
    case Skip(n) =>
      if n <= |s| then (Ok(Unit), Input(s[n..])) else (Err(endOfInput), rest)
    case SkipToEnd => (Ok(Unit), Input([]))
    case Peek(b) => (Ok(Flag(s != [] && s[0] == b)), rest)
    case AtEnd => (Ok(Flag(s == [])), rest)
    case Partial(body) =>
      var inner := Exec(body, endOfInput, rest);
      if inner.0.Err? then (Err(inner.0.error), inner.1)
      else (Ok(Consumed(Input(s[..|s| - |inner.1.bytes|]), inner.0.value)), inner.1)
    case Fail(e) => (Err(e), rest)
  }

  /** What running the callback `ops` on a reader whose remaining input is
      `rest` returns, and the remaining input afterwards: the calls run in
      order and the first error ends the callback. Whatever the callback
      does, the remaining input only ever shrinks to a suffix. */
  function Exec<E>(ops: seq<Op<E>>, endOfInput: E, rest: Input): (o: (Result<seq<Value>, E>, Input))
    ensures IsSuffix(o.1.bytes, rest.bytes)
    decreases ops
  {
    if ops == [] then (Ok([]), rest)
    else
      var step := Step(ops[0], endOfInput, rest);
      if step.0.Err? then (Err(step.0.error), step.1)
      else
        var tail := Exec(ops[1..], endOfInput, step.1);
        SuffixTransitive(tail.1.bytes, step.1.bytes, rest.bytes);
        (if tail.0.Ok? then Ok([step.0.value] + tail.0.value) else tail.0, tail.1)
  }

  /** A callback whose first call succeeds goes on with the rest. */
  lemma ExecThen<E>(ops: seq<Op<E>>, endOfInput: E, rest: Input, v: Value, mid: Input, vs: seq<Value>, last: Input)
    requires ops != []
    requires Step(ops[0], endOfInput, rest) == (Ok(v), mid)
    requires Exec(ops[1..], endOfInput, mid) == (Ok(vs), last)
    ensures Exec(ops, endOfInput, rest) == (Ok([v] + vs), last)
  {
  }

  /** The bytes a returned value stands for; a partial read stands for the
      whole prefix it consumed. */
  function Piece(v: Value): seq<byte> {
    match v
    case Byte(b) => [b]
    case Bytes(input) => input.bytes
    case Consumed(bytesRead, _) => bytesRead.bytes
    case _ => []
  }

  function Flatten(vs: seq<Value>): seq<byte> {
    if vs == [] then [] else Piece(vs[0]) + Flatten(vs[1..])
  }

  /** The callback makes no `skip` call of its own (partial reads may). */
  predicate NoSkips<E>(ops: seq<Op<E>>) {
    forall i :: 0 <= i < |ops| ==> !ops[i].Skip? && !ops[i].SkipToEnd?
  }

  /** A successful call other than a skip hands back exactly the bytes it
      moved past. */
  lemma StepAccountsForEveryByte<E>(op: Op<E>, endOfInput: E, rest: Input)
    requires !op.Skip? && !op.SkipToEnd?
    ensures Step(op, endOfInput, rest).0.Ok? ==>
              Piece(Step(op, endOfInput, rest).0.value) + Step(op, endOfInput, rest).1.bytes == rest.bytes
  {
    var s := rest.bytes;
    match op
    case ReadByte =>
      if s != [] { assert [s[0]] + s[1..] == s; }
    case ReadBytes(n) =>
      if n <= |s| { assert s[..n] + s[n..] == s; }
    case Partial(body) =>
      var after := Exec(body, endOfInput, rest).1;
      assert s[..|s| - |after.bytes|] + after.bytes == s;
    case _ =>
  }

  /** No byte is silently skipped nor read twice: a successful callback that
      does not skip got back, in order, exactly the bytes it consumed. */
  lemma {:induction false} ExecAccountsForEveryByte<E>(ops: seq<Op<E>>, endOfInput: E, rest: Input)
    requires NoSkips(ops)
    ensures Exec(ops, endOfInput, rest).0.Ok? ==>
              Flatten(Exec(ops, endOfInput, rest).0.value) + Exec(ops, endOfInput, rest).1.bytes == rest.bytes
    decreases ops
  {
    var o := Exec(ops, endOfInput, rest);
    if ops != [] && o.0.Ok? {
      var step := Step(ops[0], endOfInput, rest);
      var tail := Exec(ops[1..], endOfInput, step.1);
      var vs := o.0.value;
      assert vs == [step.0.value] + tail.0.value;
      assert vs[1..] == tail.0.value;
      assert Flatten(vs) == Piece(step.0.value) + Flatten(tail.0.value);
      StepAccountsForEveryByte(ops[0], endOfInput, rest);
      assert NoSkips(ops[1..]) by {
        forall i | 0 <= i < |ops[1..]| ensures !ops[1..][i].Skip? && !ops[1..][i].SkipToEnd? {
          assert ops[1..][i] == ops[i + 1];
        }
      }
      ExecAccountsForEveryByte(ops[1..], endOfInput, step.1);
    }
  }

  /** Lines 88-89 of `read_partial` on any state the callback may leave:
      `None` is the `unwrap` of `checked_sub` panicking. The second
      `unwrap` (the `.value` below) cannot fail once the first succeeded. */
  function PartialPrefix(original: Input, after: Input): (r: Option<Input>)
    ensures r.Some? <==> after.Len() <= original.Len()
    ensures r.Some? ==> r.value.Len() == original.Len() - after.Len()
    ensures IsSuffix(after.bytes, original.bytes) ==> r.Some? && r.value.bytes + after.bytes == original.bytes
  {
    match CheckedSub(original.Len(), after.Len())
    case None => None
    case Some(amountRead) => Some(original.SplitAt(amountRead).value.0)
  }

  /** Were a callback able to replace the reader (`Reader::new` is public),
      the result could be a panic, or a prefix that is not what was read. */
  lemma PartialPrefixNeedsSuffix()
    ensures PartialPrefix(Input([]), Input([0])).None?
    ensures PartialPrefix(Input([1, 2]), Input([3])).Some?
    ensures PartialPrefix(Input([1, 2]), Input([3])).value.bytes + [3] != [1, 2]
  {
  }

  /** The cursor: its one field is the input not yet consumed. */
  class Reader {
    var rest: Input

    /** `Reader::new`. */
    constructor (input: Input)
      ensures rest == input
    {
      rest := input;
    }

    function AtEnd(): (r: bool)
      reads this
      ensures r <==> rest.Len() == 0
    {
      rest.IsEmpty()
    }

    function Peek(b: byte): (r: bool)
      reads this
      ensures r <==> rest.Len() > 0 && rest.bytes[0] == b
    {
      rest.First() == Some(b)
    }

    method ReadByte() returns (r: Result<byte, EndOfInput>)
      modifies this
      ensures old(rest).IsEmpty() ==> r == Err(EndOfInput) && rest == old(rest)
      ensures !old(rest).IsEmpty() ==> r == Ok(old(rest).bytes[0]) && rest.bytes == old(rest).bytes[1..]
    {
      match rest.SplitFirst()
      case None =>
        r := Err(EndOfInput);
      case Some(split) =>
        rest := split.1;
        r := Ok(split.0);
    }

    method ReadBytes(numBytes: nat) returns (r: Result<Input, EndOfInput>)
      modifies this
      ensures r.Ok? <==> numBytes <= old(rest).Len()
      ensures r.Ok? ==> r.value.bytes == old(rest).bytes[..numBytes] && rest.bytes == old(rest).bytes[numBytes..]
      ensures r.Err? ==> r.error == EndOfInput && rest == old(rest)
    {
      match rest.SplitAt(numBytes)
      case None =>
        r := Err(EndOfInput);
      case Some(split) =>
        assert split.0.bytes == rest.bytes[..numBytes] by {
          assert split.0.bytes + split.1.bytes == rest.bytes;
        }
        rest := split.1;
        r := Ok(split.0);
    }

    method ReadBytesToEnd() returns (r: Input)
      modifies this
      ensures r == old(rest)
      ensures rest == Input.Empty()
    {
      r := rest;
      rest := Input.Empty();
    }

    /** Runs `read` on this reader and returns, with its result, the exact
        prefix of the old remaining input that it consumed. */
    method ReadPartial<E>(read: seq<Op<E>>, endOfInput: E) returns (r: Result<(Input, seq<Value>), E>)
      modifies this
      ensures rest == Exec(read, endOfInput, old(rest)).1
      ensures Exec(read, endOfInput, old(rest)).0.Err? ==> r == Err(Exec(read, endOfInput, old(rest)).0.error)
      ensures Exec(read, endOfInput, old(rest)).0.Ok? ==> r.Ok? && r.value.1 == Exec(read, endOfInput, old(rest)).0.value
      ensures r.Ok? ==> r.value.0.bytes + rest.bytes == old(rest).bytes
      decreases read, 1
    {
      var original := rest;
      var result := Run(read, endOfInput);
      if result.Err? {
        return Err(result.error);
      }
      var bytesRead := PartialPrefix(original, rest).value;
      r := Ok((bytesRead, result.value));
    }

    method Skip(numBytes: nat) returns (r: Result<(), EndOfInput>)
      modifies this
      ensures r.Ok? <==> numBytes <= old(rest).Len()
      ensures r.Ok? ==> rest.bytes == old(rest).bytes[numBytes..]
      ensures r.Err? ==> r.error == EndOfInput && rest == old(rest)
    {
      var read := ReadBytes(numBytes);
      r := if read.Ok? then Ok(()) else Err(read.error);
    }

    method SkipToEnd()
      modifies this
      ensures rest == Input.Empty()
    {
      var _ := ReadBytesToEnd();
    }

    /** Makes the reader call `op` stands for, converting `EndOfInput`
        as `?` does. */
    method RunStep<E>(op: Op<E>, endOfInput: E) returns (r: Result<Value, E>)
      modifies this
      ensures (r, rest) == Step(op, endOfInput, old(rest))
      decreases op, 0
    {
      match op
      case ReadByte =>
        var b := ReadByte();
        r := if b.Ok? then Ok(Byte(b.value)) else Err(endOfInput);
      case ReadBytes(n) =>
        var bytes := ReadBytes(n);
        r := if bytes.Ok? then Ok(Bytes(bytes.value)) else Err(endOfInput);
      case ReadBytesToEnd =>
        var bytes := ReadBytesToEnd();
        r := Ok(Bytes(bytes));
      case Skip(n) =>
        var skipped := Skip(n);
        r := if skipped.Ok? then Ok(Unit) else Err(endOfInput);
      case SkipToEnd =>
        SkipToEnd();
        r := Ok(Unit);
      case Peek(b) =>
        r := Ok(Flag(Peek(b)));
      case AtEnd =>
        r := Ok(Flag(AtEnd()));
      case Partial(body) =>
        var partial := ReadPartial(body, endOfInput);
        r := if partial.Ok? then Ok(Consumed(partial.value.0, partial.value.1)) else Err(partial.error);
      case Fail(e) =>
        r := Err(e);
    }

    /** Runs the callback `ops` on this reader. */
    method Run<E>(ops: seq<Op<E>>, endOfInput: E) returns (r: Result<seq<Value>, E>)
      modifies this
      ensures (r, rest) == Exec(ops, endOfInput, old(rest))
      decreases ops, 0
    {
      if ops == [] {
        return Ok([]);
      }
      var step := RunStep(ops[0], endOfInput);
      if step.Err? {
        return Err(step.error);
      }
      var tail := Run(ops[1..], endOfInput);
      r := if tail.Ok? then Ok([step.value] + tail.value) else tail;
    }
  }
}
