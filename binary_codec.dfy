/** The binary codec of codec/binary.go: a pass-through for `[]byte` values
    that defers to `MarshalBinary`/`UnmarshalBinary` when a value has them.
    Its Unmarshal writes into the caller's `*[]byte`, which is modelled as a
    `Slice` object over a backing array.
 */
module BinaryCodec {
  import opened Base

  /** A Go `[]byte` variable: a backing array whose length is the slice's
      capacity, and the slice's length. `*[]byte` is a reference to one. */
  class Slice {
    var buf: array<byte>
    var len: nat

    ghost predicate Valid()
      reads this
    {
      len <= buf.Length
    }

    /** The bytes the slice shows. */
    function Contents(): (s: seq<byte>)
      reads this, buf
      requires Valid()
      ensures |s| == len
      ensures forall i :: 0 <= i < len ==> s[i] == buf[i]
    {
      buf[..len]
    }

    /** A slice over a fresh backing array of `capacity` bytes holding `init`. */
    constructor (init: seq<byte>, capacity: nat)
      requires |init| <= capacity
      ensures Valid() && Contents() == init && buf.Length == capacity
      ensures fresh(buf)
    {
      var a := new byte[capacity](i => 0);
      var k := 0;
      while k < |init|
        invariant 0 <= k <= |init|
        invariant forall i :: 0 <= i < k ==> a[i] == init[i]
      {
        a[k] := init[k];
        k := k + 1;
      }
      buf, len := a, |init|;
      assert a[..|init|] == init;
    }
  }

  /** The target an Unmarshal call is given: a value whose type has
      `UnmarshalBinary` (described by what that method returns for given
      bytes), a `*[]byte`, or anything else. */
  datatype Target =
    | Unmarshaler(unmarshalBinary: seq<byte> -> Option<Error>)
    | SlicePointer(slice: Slice)
    | OtherTarget

  /** `Marshal(v)`: `MarshalBinary` when the value has it, the bytes themselves
      for a `[]byte`, and an error for anything else (including nil). */
  function Marshal(v: Value): (r: Result<seq<byte>>)
    ensures v.ByteSlice? ==> r == Ok(v.bytes)
    ensures v.Obj? && v.encoder.Encodes? ==> r == v.encoder.result
    ensures r.Ok? ==> v.ByteSlice? || (v.Obj? && v.encoder.Encodes?)
    ensures !v.ByteSlice? && !(v.Obj? && v.encoder.Encodes?) ==> r == Err(ValueNotBytes)
  {
    match v
    case Obj(_, _, Encodes(res), _) => res
    case ByteSlice(b) => Ok(b)
    case _ => Err(ValueNotBytes)
  }

  /** `append(dst[:0], b...)` on a `[]byte` variable: when `b` fits the
      capacity, the bytes are copied into the existing backing array;
      otherwise into a new one. Either way the slice then shows `b`. */
  method Assign(s: Slice, b: seq<byte>)
    requires s.Valid()
    modifies s, s.buf
    ensures s.Valid() && s.Contents() == b
    ensures |b| <= old(s.buf.Length) ==> s.buf == old(s.buf)
    ensures |b| > old(s.buf.Length) ==> fresh(s.buf)
  {
    var dst := s.buf;
    if |b| > dst.Length {
      dst := new byte[|b|](i => 0);
    }
    var k := 0;
    while k < |b|
      invariant 0 <= k <= |b| <= dst.Length
      invariant forall i :: 0 <= i < k ==> dst[i] == b[i]
    {
      dst[k] := b[k];
      k := k + 1;
    }
    s.buf, s.len := dst, |b|;
    assert dst[..|b|] == b;
  }

  /** `Unmarshal(b, target)`: `UnmarshalBinary` when the target has it; for a
      `*[]byte`, the slice ends up showing exactly `b`, whatever it held
      before; any other target is refused and left alone. */
  method Unmarshal(b: seq<byte>, target: Target) returns (err: Option<Error>)
    requires target.SlicePointer? ==> target.slice.Valid()
    modifies if target.SlicePointer? then {target.slice, target.slice.buf} else {}
    ensures target.Unmarshaler? ==> err == target.unmarshalBinary(b)
    ensures target.OtherTarget? ==> err == Some(TargetNotBytePointer)
    ensures target.SlicePointer? ==>
              var s := target.slice;
              && err.None? && s.Valid() && s.Contents() == b
              && (s.buf == old(s.buf) || fresh(s.buf))
  {
    match target
    case Unmarshaler(f) =>
      err := f(b);
    case SlicePointer(s) =>
      Assign(s, b);
      err := None;
    case OtherTarget =>
      err := Some(TargetNotBytePointer);
  }

  /** Unmarshalling into a `*[]byte` copies: once it returns, writing into the
      array the bytes came from leaves the target as it was decoded. */
  method UnmarshalThenOverwrite(src: array<byte>, s: Slice, i: nat, c: byte)
    requires s.Valid() && src != s.buf && i < src.Length
    modifies src, s, s.buf
    ensures s.Valid() && s.Contents() == old(src[..])
    ensures src[i] == c
  {
    var err := Unmarshal(src[..], SlicePointer(s));
    src[i] := c;
  }

  /** Bytes marshalled by the binary codec and unmarshalled into a `*[]byte`
      come back unchanged. */
  method RoundTrip(bytes: seq<byte>, s: Slice) returns (err: Option<Error>)
    requires s.Valid()
    modifies s, s.buf
    ensures err.None? && s.Valid() && s.Contents() == bytes
  {
    var encoded := Marshal(ByteSlice(bytes));
    err := Unmarshal(encoded.value, SlicePointer(s));
  }
}
