/** The bounds-checked byte view (`Slice`) and its byte-string debug
    rendering (src/no_panic.rs). */
module NoPanic {
  import opened Base

  /** A view over a byte region whose accessors return `None` rather than
      trapping, whatever the index. */
  datatype Slice = Slice(bytes: seq<byte>) {

    static function New(bytes: seq<byte>): (s: Slice)
      ensures s.AsSliceLessSafe() == bytes
      ensures s.Len() == |bytes|
    {
      Slice(bytes)
    }

    function Get(i: nat): (r: Option<byte>)
      ensures r.Some? <==> i < |bytes|
      ensures r.Some? ==> r.value == bytes[i]
    {
      if i < |bytes| then Some(bytes[i]) else None
    }

    /** `bytes.get(start..end)`: the range must be ordered and in bounds. */
    function Subslice(start: nat, end: nat): (r: Option<Slice>)
      ensures r.Some? <==> start <= end <= |bytes|
      ensures r.Some? ==> |r.value.bytes| == end - start
      ensures r.Some? ==> forall k :: 0 <= k < end - start ==> r.value.bytes[k] == bytes[start + k]
    {
      if start <= end <= |bytes| then Some(Slice(bytes[start..end])) else None
    }

    function IsEmpty(): (r: bool)
      ensures r <==> Len() == 0
    {
      bytes == []
    }

    function Len(): (n: nat)
      ensures n == |bytes|
    {
      |bytes|
    }

    function AsSliceLessSafe(): seq<byte> {
      bytes
    }
  }

  /** Every sub-view is no longer than the view it was cut from. */
  lemma SubsliceShrinks(s: Slice, start: nat, end: nat)
    requires s.Subslice(start, end).Some?
    ensures s.Subslice(start, end).value.Len() <= s.Len()
  {
  }

  // ---------------------------------------------------------------------
  // Debug rendering

  /** A character a terminal shows as itself: ASCII 0x20 to 0x7e. */
  predicate IsPrintable(c: char) {
    0x20 <= c as int < 0x7f
  }

  /** The lowercase hex digit of `{:02x}` for the nibble `d`. */
  function HexDigit(d: nat): (c: char)
    requires d < 16
    ensures IsPrintable(c)
    ensures d < 10 ==> c as int == '0' as int + d
    ensures 10 <= d ==> c as int == 'a' as int + d - 10
    ensures HexValue(c) == Some(d)
  {
    var digits := "0123456789abcdef";
    if d < 10 then
      assert digits[d] as int == '0' as int + d;
      digits[d]
    else
      assert digits[d] as int == 'a' as int + d - 10;
      digits[d]
  }

  /** The escape written for one byte, following the byte-escape forms of
      Rust's string-literal syntax. */
  function Escape(b: byte): (r: string)
    ensures |r| == 1 || |r| == 2 || |r| == 4
    ensures |r| == 1 <==> 0x20 <= b < 0x7f && b != 0x5c && b != 0x22
    ensures |r| > 1 ==> r[0] == '\\'
    ensures forall k :: 0 <= k < |r| ==> IsPrintable(r[k])
  {
    if b == 0x0a then "\\n"
    else if b == 0x0d then "\\r"
    else if b == 0x09 then "\\t"
    else if b == 0x5c || b == 0x22 then ['\\', b as char]
    else if b == 0x00 then "\\0"
    else if 0x20 <= b < 0x7f then [b as char]
    else ['\\', 'x', HexDigit(b / 16), HexDigit(b % 16)]
  }

  /** The escapes of all bytes, one after the other, in order. */
  function EscapeAll(s: seq<byte>): (r: string)
    ensures |s| <= |r| <= 4 * |s|
    ensures forall k :: 0 <= k < |r| ==> IsPrintable(r[k])
  {
    if s == [] then [] else Escape(s[0]) + EscapeAll(s[1..])
  }

  /** The whole rendering: the escapes between `b"` and `"`. */
  function Render(s: seq<byte>): (r: string)
    ensures |s| + 3 <= |r| <= 4 * |s| + 3
    ensures r[..2] == "b\"" && r[|r| - 1] == '"'
    ensures forall k :: 0 <= k < |r| ==> IsPrintable(r[k])
  {
    "b\"" + EscapeAll(s) + "\""
  }

  lemma {:induction false} EscapeAllAppend(s: seq<byte>, b: byte)
    ensures EscapeAll(s + [b]) == EscapeAll(s) + Escape(b)
  {
    if s == [] {
      assert [b][1..] == [];
    } else {
      assert (s + [b])[1..] == s[1..] + [b];
      EscapeAllAppend(s[1..], b);
    }
  }

  /** Rendering distributes over concatenation: the escape of each byte
      depends on that byte alone. */
  lemma {:induction false} EscapeAllConcat(a: seq<byte>, b: seq<byte>)
    ensures EscapeAll(a + b) == EscapeAll(a) + EscapeAll(b)
  {
    if a == [] {
      assert a + b == b;
    } else {
      assert (a + b)[1..] == a[1..] + b;
      EscapeAllConcat(a[1..], b);
    }
  }

  /** `fmt` for `Slice`: writes `b"`, then each byte's escape, then `"`. */
  method Fmt(s: Slice) returns (out: string)
    ensures out == Render(s.bytes)
  {
    out := "b\"";
    for i := 0 to |s.bytes|
      invariant out == "b\"" + EscapeAll(s.bytes[..i])
    {
      var b := s.bytes[i];
      var esc := Escape(b);
      assert s.bytes[..i + 1] == s.bytes[..i] + [b];
      EscapeAllAppend(s.bytes[..i], b);
      out := out + esc;
    }
    out := out + "\"";
    assert s.bytes[..|s.bytes|] == s.bytes;
  }

  // ---------------------------------------------------------------------
  // Reading a rendering back: the rendering loses no information.

  function HexValue(c: char): (r: Option<nat>)
    ensures r.Some? ==> r.value < 16
  {
    if '0' <= c <= '9' then Some(c as int - '0' as int)
    else if 'a' <= c <= 'f' then Some(c as int - 'a' as int + 10)
    else None
  }

  /** Reads one escape off the front of `t`: the byte and the number of
      characters it took, or `None` if `t` does not start with an escape. */
  function UnescapeOne(t: string): (r: Option<(byte, nat)>)
    requires |t| > 0
    ensures r.Some? ==> 1 <= r.value.1 <= |t|
  {
    if t[0] != '\\' then
      if IsPrintable(t[0]) && t[0] != '"' then Some((t[0] as int, 1)) else None
    else if |t| < 2 then None
    else if t[1] == 'n' then Some((0x0a, 2))
    else if t[1] == 'r' then Some((0x0d, 2))
    else if t[1] == 't' then Some((0x09, 2))
    else if t[1] == '\\' then Some((0x5c, 2))
    else if t[1] == '"' then Some((0x22, 2))
    else if t[1] == '0' then Some((0x00, 2))
    else if t[1] == 'x' && |t| >= 4 && HexValue(t[2]).Some? && HexValue(t[3]).Some? then
      Some((16 * HexValue(t[2]).value + HexValue(t[3]).value, 4))
    else None
  }

  function UnescapeAll(t: string): (r: Option<seq<byte>>)
    ensures r.Some? ==> |r.value| <= |t|
    decreases |t|
  {
    if t == [] then Some([])
    else match UnescapeOne(t)
      case None => None
      case Some(step) =>
        match UnescapeAll(t[step.1..])
        case None => None
        case Some(tail) => Some([step.0] + tail)
  }

  /** Inverse of `Render`. */
  function Parse(r: string): (s: Option<seq<byte>>)
  {
    if |r| >= 3 && r[..2] == "b\"" && r[|r| - 1] == '"' then UnescapeAll(r[2..|r| - 1]) else None
  }

  lemma UnescapeEscape(b: byte, rest: string)
    ensures UnescapeOne(Escape(b) + rest) == Some((b, |Escape(b)|))
  {
    var t := Escape(b) + rest;
    if |Escape(b)| == 4 {
      assert t[2] == HexDigit(b / 16) && t[3] == HexDigit(b % 16);
    }
  }

  lemma {:induction false} UnescapeAllEscapeAll(s: seq<byte>)
    ensures UnescapeAll(EscapeAll(s)) == Some(s)
  {
    if s != [] {
      var e, tail := Escape(s[0]), EscapeAll(s[1..]);
      assert EscapeAll(s) == e + tail;
      UnescapeEscape(s[0], tail);
      assert (e + tail)[|e|..] == tail;
      UnescapeAllEscapeAll(s[1..]);
      assert s == [s[0]] + s[1..];
    }
  }

  /** Round trip: the rendering can be read back to exactly the bytes it
      came from, so no byte is omitted or escaped ambiguously. */
  lemma RenderRoundTrip(s: seq<byte>)
    ensures Parse(Render(s)) == Some(s)
  {
    var r := Render(s);
    assert r[2..|r| - 1] == EscapeAll(s);
    UnescapeAllEscapeAll(s);
  }

  /** Distinct byte strings never render alike. */
  lemma RenderInjective(a: seq<byte>, b: seq<byte>)
    requires Render(a) == Render(b)
    ensures a == b
  {
    RenderRoundTrip(a);
    RenderRoundTrip(b);
  }

  /** The individual byte escapes the rendering promises. */
  lemma EscapeTable()
    ensures Escape(0x0a) == "\\n" && Escape(0x0d) == "\\r" && Escape(0x09) == "\\t"
    ensures Escape(0x5c) == "\\\\" && Escape(0x22) == "\\\""
    ensures Escape(0x00) == "\\0"
    ensures Escape(0x20) == " " && Escape(0x41) == "A" && Escape(0x7e) == "~"
    ensures Escape(0x01) == "\\x01" && Escape(0x0b) == "\\x0b" && Escape(0x1f) == "\\x1f"
    ensures Escape(0x7f) == "\\x7f" && Escape(0x80) == "\\x80" && Escape(0xff) == "\\xff"
  {
  }
}
