/** The codec interface of codec/codec.go and the process-wide table of named
    codecs. The concrete JSON, MessagePack and Protocol Buffers codecs are not
    modelled: a codec is any pair of failable functions. `Unmarshal` in Go
    writes into the value it is given; here it returns the content it would
    write there, and the registries put that content into the target, whose
    type and methods stay as they were.
 */
module Codecs {
  import opened Base

  datatype Codec = Codec(
    name: string,
    marshal: Value -> Result<seq<byte>>,
    unmarshal: (seq<byte>, Value) -> Result<seq<int>>)

  /** `codec.Codecs` and `codec.Mimes`, plus `codec.JSON`, the default codec of
      the registry in registry.go. */
  datatype CodecTable = CodecTable(
    codecs: map<string, Codec>,
    mimes: map<string, string>,
    json: Codec)

  /** Go's `m[k]` on a map of strings: the empty string for a missing key. */
  function MimeOf(table: CodecTable, name: string): string
  {
    if name in table.mimes then table.mimes[name] else ""
  }

  /** Two values hold the same content and the same underlying struct type,
      whether each is held directly or through a pointer. This is what
      comparing the pointed-to structs (`proto.Equal` in the tests) observes. */
  predicate SameContent(a: Value, b: Value)
  {
    a.Obj? && b.Obj? && ElemShape(a.typ) == ElemShape(b.typ) && a.fields == b.fields
  }

  function ElemShape(t: GoType): Shape
  {
    match t
    case Plain(s) => s
    case Pointer(s) => s
  }

  /** The hypothesis that `c` decodes what it encodes: bytes produced from `v`,
      decoded into a target of the same struct type, yield `v`'s content. */
  ghost predicate DecodesWhatItEncodes(c: Codec, v: Value)
  {
    forall target: Value {:trigger c.unmarshal(c.marshal(v).value, target)} ::
      v.Obj? && c.marshal(v).Ok? && target.Obj? && ElemShape(target.typ) == ElemShape(v.typ) ==>
        c.unmarshal(c.marshal(v).value, target) == Ok(v.fields)
  }
}
