/** Values of the Go program that every other module talks about: optional and
    failable results, bytes, the dynamic types that reflection reports, the
    values that travel through `any`, and the error conditions the library
    returns.
 */
module Base {

  datatype Option<+T> = None | Some(value: T)

  /** A Go `(T, error)` pair: exactly one of the two is meaningful. */
  datatype Result<+T> = Ok(value: T) | Err(error: Error)

  newtype byte = x: int | 0 <= x < 256

  /** A `time.Time` as nanoseconds since January 1, year 1, 00:00:00 UTC, the
      instant Go's zero `Time` stands for; `IsZero()` holds of 0 alone.
      Locations and monotonic clock readings are not modelled. */
  type Time = int

  const MinInt64: int := -0x8000_0000_0000_0000
  const MaxInt64: int := 0x7fff_ffff_ffff_ffff

  /** An `int64` (such as a `time.Duration`). */
  predicate IsInt64(x: int)
  {
    MinInt64 <= x <= MaxInt64
  }

  /** `x` reduced to 64-bit two's complement, as Go's `int64` arithmetic does. */
  function Wrap64(x: int): (r: int)
    ensures IsInt64(r)
    ensures (x - r) % 0x1_0000_0000_0000_0000 == 0
    ensures IsInt64(x) ==> r == x
  {
    var m := x % 0x1_0000_0000_0000_0000;
    if m <= MaxInt64 then m else m - 0x1_0000_0000_0000_0000
  }

  /** The shape a non-pointer Go type has, as far as the registry's reflection
      checks can tell: a struct type, the built-in `[]byte`, or any other type.
      Each `id` stands for one named Go type. */
  datatype Shape = StructShape(id: nat) | ByteSliceShape | OtherShape(id: nat)

  /** `reflect.TypeOf` of a non-nil value: either a value type or a pointer to one.
      `Pointer(s).Elem()` is `Plain(s)`. */
  datatype GoType = Plain(shape: Shape) | Pointer(elem: Shape)

  /** What calling `MarshalBinary` on a value gives, when its type has that method. */
  datatype Encoder = NoEncoder | Encodes(result: Result<seq<byte>>)

  /** What calling `Validate` on a value gives, when its type has that method. */
  datatype Check = NoValidator | Passes | Fails(reason: string)

  /** A value stored in an `any`: nil, a `[]byte`, or any other typed value,
      whose observable content is `fields` and whose optional methods are
      described by `encoder` and `check`. */
  datatype Value =
    | Nil
    | ByteSlice(bytes: seq<byte>)
    | Obj(typ: GoType, fields: seq<int>, encoder: Encoder, check: Check)

  /** `reflect.TypeOf(v)`; `None` is the nil interface. */
  function TypeOf(v: Value): (t: Option<GoType>)
    ensures t.None? <==> v.Nil?
  {
    match v
    case Nil => None
    case ByteSlice(_) => Some(Plain(ByteSliceShape))
    case Obj(typ, _, _, _) => Some(typ)
  }

  /** Why a type was refused at registration (each wraps ErrTypeNotValid). */
  datatype InvalidReason =
    | MissingName
    | InvalidCharacters
    | NilInit
    | InitReturnsNil
    | NotPointer
    | NotStruct
    | MarshalFailed(cause: Error)
    | UnmarshalFailed(cause: Error)

  datatype Error =
    // type registry
    | TypeNotValid(name: string, reason: InvalidReason)
    | TypeNotRegistered(typeName: string)
    | NoTypeForStruct(typ: Option<GoType>)
    | CodecNotRegistered(codec: string)
    | MarshalError(valueType: GoType, cause: Error)
    | UnmarshalError(valueType: GoType, cause: Error)
    // binary codec
    | ValueNotBytes
    | TargetNotBytePointer
    // event store
    | EventDataNil
    | EventTypeNotDefined
    | WrongEventType(eventType: string)
    | SequenceConflict
    | ApiError(description: string, code: int)
    | MetadataUnavailable(cause: Error)
    | BadEventTime(cause: Error)
    /** An error produced by code outside the model (a codec, a payload's
        Validate or MarshalBinary method, the broker), passed on unchanged. */
    | Opaque(message: string)
}
