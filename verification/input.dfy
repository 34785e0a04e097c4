/** `Input`: an immutable view of untrusted bytes (src/input.rs). The
    `read_all` protocol, which needs `Reader`, is in module InputReadAll. */
module Inputs {
  import opened Base

  datatype Input = Input(bytes: seq<byte>) {

    /** The zero-length input. */
    static function Empty(): (r: Input)
      ensures r.Len() == 0 && r.IsEmpty()
    {
      Input([])
    }

    /** Wraps any byte region, of any length, unconditionally. */
    static function From(bytes: seq<byte>): (r: Input)
      ensures r.AsSliceLessSafe() == bytes
      ensures r.Len() == |bytes|
    {
      Input(bytes)
    }

    function First(): (r: Option<byte>)
      ensures r.Some? <==> |bytes| > 0
      ensures r.Some? ==> r.value == bytes[0]
    {
      if bytes == [] then None else Some(bytes[0])
    }

    function IsEmpty(): (r: bool)
      ensures r <==> Len() == 0
    {
      bytes == []
    }

    function Len(): (n: nat)
      ensures n == |bytes|
    {
      |bytes|
    }

    /** The first byte and the input after it; `None` exactly when empty. */
    function SplitFirst(): (r: Option<(byte, Input)>)
      ensures r.None? <==> IsEmpty()
      ensures r.Some? ==> [r.value.0] + r.value.1.bytes == bytes
      ensures r.Some? ==> r.value.1.Len() == Len() - 1
    {
      if bytes == [] then None else Some((bytes[0], Input(bytes[1..])))
    }

    /** The inputs before and after position `i`; `None` exactly when `i`
        is beyond the end. */
    function SplitAt(i: nat): (r: Option<(Input, Input)>)
      ensures r.Some? <==> i <= Len()
      ensures r.Some? ==> r.value.0.Len() == i && r.value.1.Len() == Len() - i
      ensures r.Some? ==> r.value.0.bytes + r.value.1.bytes == bytes
    {
      if |bytes| < i then None
      else
        assert bytes[..i] + bytes[i..] == bytes;
        Some((Input(bytes[..i]), Input(bytes[i..])))
    }

    function AsSliceLessSafe(): seq<byte> {
      bytes
    }

    /** `Input == Input`: byte-content equality. */
    function Eq(other: Input): (r: bool)
      ensures r <==> Len() == other.Len() && forall k :: 0 <= k < Len() ==> bytes[k] == other.bytes[k]
      ensures r <==> this == other
    {
      AsSliceLessSafe() == other.AsSliceLessSafe()
    }

    /** `Input == [u8]`. */
    function EqSlice(other: seq<byte>): (r: bool)
      ensures r <==> Len() == |other| && forall k :: 0 <= k < Len() ==> bytes[k] == other[k]
    {
      AsSliceLessSafe() == other
    }
  }

  /** `[u8] == Input`. */
  function SliceEqInput(s: seq<byte>, input: Input): (r: bool)
    ensures r <==> |s| == input.Len() && forall k :: 0 <= k < |s| ==> s[k] == input.bytes[k]
  {
    input.AsSliceLessSafe() == s
  }

  /** The three equalities agree with one another whichever side the raw
      bytes are on. */
  lemma EqualitiesAgree(a: Input, b: Input, s: seq<byte>)
    ensures a.Eq(b) == b.Eq(a) == a.EqSlice(b.bytes)
    ensures a.EqSlice(s) == SliceEqInput(s, a)
    ensures a.EqSlice(s) <==> a.Eq(Input.From(s))
  {
  }

  /** Splitting at either end always succeeds, with an empty side. */
  lemma SplitAtEnds(input: Input)
    ensures input.SplitAt(0) == Some((Input.Empty(), input))
    ensures input.SplitAt(input.Len()) == Some((input, Input.Empty()))
  {
    assert input.bytes[..0] == [] && input.bytes[0..] == input.bytes;
    assert input.bytes[..|input.bytes|] == input.bytes && input.bytes[|input.bytes|..] == [];
  }

  /** Concrete cases: `from(b"foo")` has length 3 and is not empty;
      `from(b"")` is empty. */
  lemma FromExamples()
    ensures Input.From([0x66, 0x6f, 0x6f]).Len() == 3
    ensures !Input.From([0x66, 0x6f, 0x6f]).IsEmpty()
    ensures Input.From([]).IsEmpty()
  {
  }
}
