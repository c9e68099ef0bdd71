# rita event store and type registries, modelled in Dafny

This project models the core of `rita`, a Go library that keeps event-sourced
entities in a NATS JetStream stream:

- the event store (`eventstore.go`):
  - `Append` wraps a caller's `Event` (fills in its blank ID, type and time),
    packs it into a NATS message with an envelope of headers, and publishes it,
    optionally expecting a last sequence for the subject;
  - `Load` asks the server for the subject's last sequence and drains an ordered
    consumer up to it, unpacking each message back into an event;
- the two type registries (`registry.go` and its copy `types/registry.go`):
  - they map type names to factories and reflected Go types to names;
  - they check each type at construction, all or nothing;
  - they encode and decode registered values through a codec;
- the binary codec (`codec/binary.go`), which passes `[]byte` through and defers
  to `MarshalBinary`/`UnmarshalBinary`;
- the test helpers `testutil/clock.go` (a counting clock) and `testutil/id.go`
  (an ID generator that buffers one ID ahead).

## Layout

| file | module | models |
|---|---|---|
| base.dfy | `Base` | Option/Result, bytes, `int64` wrap-around, Go values and reflected types, the library's errors |
| codecs.dfy | `Codecs` | a codec as a pair of failable functions, the named codec table, the "decodes what it encodes" hypothesis |
| type_names.dfy | `TypeNames` | the type-name pattern as a scan, proved equal to "dot-joined non-empty `[\w-]` segments" |
| type_check.dfy | `TypeCheck` | `validate`, the two indexes and their invariant, and the `Codec` option; both registries share it |
| registry.dfy | `Registry` | `registry.go`: class `TypeRegistry` |
| types_registry.dfy | `TypesRegistry` | `types/registry.go`: class `Registry`, with the `Codec()` accessor |
| binary_codec.dfy | `BinaryCodec` | `codec/binary.go`; a `*[]byte` target is a `Slice` object over an `array<byte>` |
| envelope.dfy | `Envelope` | header names, the header map, the metadata prefix, `Event` |
| broker.dfy | `Broker` | the JetStream server as the store sees it: replies as parameters, subscriptions and publications as logs |
| event_store.dfy | `EventStore` | `eventstore.go`: wrap, pack, unpack, `lastMsgForSubject`, `Load`, `Append` |
| test_clock.dfy | `TestClock` | `testutil/clock.go` |
| test_id.dfy | `TestId` | `testutil/id.go` |

Each `Event` method is specified against a pure function of the event's old
fields:

- `WrapEvent` against `Wrap`;
- `PackEvent` against `Packed`;
- `UnpackEvent` against `Unpacked`;
- `Load` against `LoadResult`, which is `LoadFrom` applied to the server's replies.

The lemmas prove the promised properties of those functions. The registries
are classes whose `Valid()` invariant (`TypeCheck.IndexOk`) says three things:

- every registered type passed validation;
- both of its reflected types are indexed;
- every index entry leads back to a name that owns it.

## Model

| member | source | states |
|---|---|---|
| `Base.Wrap64` | testutil/clock.go:22 | the result is an `int64` congruent to the input modulo 2^64, and it is the input itself when the input already fits |
| `TypeNames.NamePatternCorrect` | registry.go:19 | the scan of `^[\w-]+(\.[\w-]+)*$` accepts a name exactly when the name is one or more non-empty `[\w-]` segments joined by dots |
| `TypeNames.DottedNameShape` | registry.go:19 | a name that matches is non-empty, neither starts nor ends with a dot, has no two dots in a row, and holds only name characters and dots |
| `TypeCheck.ValidateTypeName` | registry.go:22-27 | a name is accepted exactly when it is a dotted name; a refused name gets ErrTypeNotValid with "invalid characters" |
| `TypeCheck.CheckType` | registry.go:74-118 | accepts exactly the registrable types: a valid name, an `Init` yielding a pointer to a struct, and a value the codec can marshal and unmarshal back. The first failed check is the reported one, in the source's order: missing name, bad characters, nil init, nil value, not a pointer, not a struct, marshal failure, then unmarshal failure, each carrying the codec's own error |
| `TypeCheck.AddTypeKeepsIndex` | registry.go:120-129 | adding a validated new name, indexed under both the pointer type and its element type, keeps the registry invariant |
| `TypeCheck.IndexFindsOwner` | registry.go:143-151 | under the invariant, a reflected type is indexed exactly when some registered name owns it, and the index leads to such a name |
| `TypeCheck.FirstUnknownCodec` | registry.go:204-208 | `None` exactly when every option names a registered codec; otherwise the earliest option naming an unregistered codec |
| `Registry.TypeRegistry.constructor` | registry.go:198-202 | a fresh registry has the given codec (`NewTypeRegistry` passes JSON), no MIME type and empty indexes, and satisfies the invariant |
| `Registry.TypeRegistry.AddOption` | registry.go:48-58 | an unknown codec name fails with ErrCodecNotRegistered and changes nothing; otherwise the codec and its MIME type are set |
| `Registry.TypeRegistry.AddType` | registry.go:120-129 | the name is recorded, and both the pointer type and its element type map to it; the invariant is kept when the name was new and validated |
| `Registry.TypeRegistry.Init` | registry.go:132-140 | fails with ErrTypeNotRegistered exactly for an unknown name; otherwise gives the factory's value, which is registered under that name |
| `Registry.TypeRegistry.Lookup` | registry.go:143-151 | succeeds exactly for a value whose type some registered name owns, pointer or struct alike, and names such an owner; otherwise ErrNoTypeForStruct with the value's type |
| `Registry.TypeRegistry.Marshal` | registry.go:155-166 | an unregistered value fails before the codec is used; a registered one gets the codec's bytes, or the codec's error wrapped as a marshal error |
| `Registry.TypeRegistry.Unmarshal` | registry.go:170-181 | an unregistered target fails before the codec is used; a registered one is a struct or struct pointer and ends up holding the content the codec decoded, keeping its type, or the codec's error comes back wrapped as an unmarshal error |
| `Registry.TypeRegistry.UnmarshalType` | registry.go:185-195 | an unknown name fails with ErrTypeNotRegistered; for a known name it succeeds exactly when the codec decodes into a fresh value of that type, and returns that value holding the decoded content: a pointer of the type registered under the name, which `Lookup` accepts |
| `Registry.TypeRegistry.RoundTrip` | registry.go:155-195 | if the codec decodes what it encodes, a registered value that marshals comes back from `UnmarshalType`, under the name `Lookup` gives, with the same content, as a pointer to the same struct type |
| `Registry.TypeRegistry.NewTypeRegistry` | registry.go:197-219 | all or nothing: a registry is returned exactly when there is no error. An unknown codec option yields ErrCodecNotRegistered for the first such option. Otherwise construction succeeds exactly when every type validates under the selected codec (the last option, or JSON), and a failure is some type's validation error. A registry returned holds exactly the given types, satisfies the invariant, and has the selected codec and MIME type |
| `TypesRegistry.Registry.constructor` | types/registry.go:201-205 | a fresh registry has the given default codec and empty indexes, and satisfies the invariant |
| `TypesRegistry.Registry.Codec` | types/registry.go:73-75 | the configured codec: every registered type was validated against it, and `Marshal` of a registered value is that codec's output |
| `TypesRegistry.Registry.AddOption` | types/registry.go:48-58 | an unknown codec name fails with ErrCodecNotRegistered and changes nothing; otherwise the codec is set |
| `TypesRegistry.Registry.AddType` | types/registry.go:123-132 | the name is recorded, and both the pointer type and its element type map to it; the invariant is kept when the name was new and validated |
| `TypesRegistry.Registry.Init` | types/registry.go:135-143 | fails with ErrTypeNotRegistered exactly for an unknown name; otherwise gives the factory's value, which is registered |
| `TypesRegistry.Registry.Lookup` | types/registry.go:146-154 | succeeds exactly for a value whose type some registered name owns, and names such an owner; otherwise ErrNoTypeForStruct |
| `TypesRegistry.Registry.Marshal` | types/registry.go:158-169 | an unregistered value fails before the codec is used; otherwise the codec's bytes or its wrapped error |
| `TypesRegistry.Registry.Unmarshal` | types/registry.go:173-184 | an unregistered target fails before the codec is used; otherwise the target, a struct or struct pointer, ends up holding the content the codec decoded and keeps its type, or the codec's error comes back wrapped |
| `TypesRegistry.Registry.UnmarshalType` | types/registry.go:188-198 | an unknown name fails with ErrTypeNotRegistered; a known one succeeds exactly when the codec decodes into a fresh value of the type, and returns that value holding the decoded content: a pointer of the registered type, which `Lookup` accepts |
| `TypesRegistry.Registry.RoundTrip` | types/registry.go:158-198 | if the codec decodes what it encodes, a registered value that marshals comes back from `UnmarshalType` with the same content, as a pointer to the same struct type |
| `TypesRegistry.Registry.NewRegistry` | types/registry.go:200-222 | the same all-or-nothing construction as `NewTypeRegistry`, starting from the default codec |
| `BinaryCodec.Marshal` | codec/binary.go:18-31 | `MarshalBinary` takes priority when the value has it; a `[]byte` encodes to exactly its bytes; anything else, nil included, fails with "value not []byte" |
| `BinaryCodec.Assign` | codec/binary.go:45 | after `append(dst[:0], b...)` the slice shows exactly `b`; the backing array is reused when `b` fits it and is fresh otherwise |
| `BinaryCodec.Unmarshal` | codec/binary.go:33-47 | `UnmarshalBinary` takes priority; a `*[]byte` ends up showing exactly the input bytes; any other target fails with "value must be *[]byte" and is not touched |
| `BinaryCodec.UnmarshalThenOverwrite` | codec/binary.go:45 | unmarshalling into a `*[]byte` copies: later writes into the source array do not change the decoded slice |
| `BinaryCodec.RoundTrip` | codec/binary.go:18-47 | bytes marshalled and unmarshalled into a `*[]byte` come back unchanged, without error |
| `TestClock.Clock.constructor` | testutil/clock.go:32-38 | a new clock starts at 2019-09-20 14:00:00 UTC with the given unit, that start as its last time, and a count of 0 |
| `TestClock.Clock.Now` | testutil/clock.go:21-25 | the k-th call (from 0) returns start + k·unit, with the product wrapped to `int64`; the count goes up by one and `Last` becomes the result |
| `TestClock.Clock.Last` | testutil/clock.go:28-30 | the latest `Now` result, or the start time before the first call |
| `TestClock.TicksIncrease` | testutil/clock.go:21-25 | with a positive unit and no `int64` overflow, a later tick is strictly later |
| `TestClock.TicksNeverDecrease` | testutil/clock.go:21-25 | with a non-negative unit and no `int64` overflow, no later tick is earlier |
| `TestClock.WrapMakesClockGoBack` | testutil/clock.go:22 | the overflow hypothesis is needed: with a unit of 2^62, the third tick is earlier than the second |
| `TestId.Source.New` | testutil/id.go:3-5 | the wrapped generator's n-th call gives its n-th ID |
| `TestId.IDGen.constructor` | testutil/id.go:26-31 | `NewIDGen` draws exactly one ID from the wrapped generator and buffers it |
| `TestId.IDGen.New` | testutil/id.go:15-19 | returns the previous `Last()`, which is the wrapped generator's k-th ID since construction for the k-th call, then draws one more ID, so the outputs lag the wrapped generator by one |
| `TestId.IDGen.Last` | testutil/id.go:22-24 | the newest ID the wrapped generator handed out, which is what the next `New` returns; it changes nothing |
| `Envelope.MetaHeaders` | eventstore.go:176-178 | there is one header for each metadata key, under the name `rita-meta-` + key and with that key's value, and no other header |
| `Envelope.StripMeta` | eventstore.go:212-219 | a key is in the result exactly when `rita-meta-` + key is a header, and its value is that header's |
| `Envelope.FixedNamesAreNotMeta` | eventstore.go:15-19 | none of the ID, type, time and codec header names starts with `rita-meta-` |
| `Envelope.EnvelopeRoundTrip` | eventstore.go:171-226 | reading back the packed headers gives exactly the packed metadata, ID, type and time text |
| `Envelope.MetaRoundTrip` | eventstore.go:176-219 | metadata packed beside headers that lack the prefix strips back to exactly itself |
| `Broker.Server.Subscribe` | eventstore.go:298 | returns the server's subscription for the subject and start position, and logs the request |
| `Broker.Server.Publish` | eventstore.go:364 | returns the server's answer to the request, given the earlier publications, and logs the request |
| `EventStore.ExpectedSeq` | eventstore.go:338-352 | an expected sequence is attached exactly when some option is `ExpectSequence`, and the last option's value wins |
| `EventStore.AfterSeq` | eventstore.go:267-272 | an after-sequence is set exactly when some option is `AfterSequence`, and the last option's value wins |
| `EventStore.LastSequence` | eventstore.go:234-260 | a stored message gives its sequence. A 404 API error means no message and reads as sequence 0. Any other API error becomes "description (code)". Request and decoding errors pass through |
| `EventStore.ContainsIffOccurs` | eventstore.go:366 | `strings.Contains` holds exactly when the substring occurs at some position |
| `EventStore.PublishError` | eventstore.go:364-370 | a publication error is a sequence conflict exactly when its text contains "wrong last sequence"; any other error passes through unchanged |
| `EventStore.ConflictIffWrongLastSequence` | eventstore.go:366-367 | Append reports a conflict exactly when "wrong last sequence" occurs somewhere in the server's error text |
| `EventStore.EventStore.ResolveType` | eventstore.go:107-127 | checks run in order. Nil data fails first. Without a registry, an empty type fails and a given type is kept. With a registry, an unregistered value fails with the lookup's error; an empty type becomes the registered name; a different type fails with "wrong type". Any accepted type with a registry is a registered name |
| `EventStore.EventStore.Wrap` | eventstore.go:107-146 | data, metadata, sequence and subject never change; a type failure leaves the event untouched; a failing `Validate` is reported as-is, after the type was set; when the type resolves and `Validate` (if any) passes, there is no error, and an empty ID becomes the new ID and a zero time becomes now, and nothing else is filled in |
| `EventStore.EventStore.WrappedEventHasType` | eventstore.go:112-127 | a successfully wrapped event has a non-empty type |
| `EventStore.EventStore.WrapEvent` | eventstore.go:107-146 | updates the caller's event in place to exactly what `Wrap` gives for its old fields, and returns `Wrap`'s error |
| `EventStore.EventStore.Encode` | eventstore.go:158-165 | without a registry, the binary codec's bytes; with one, unregistered data fails before the codec is used, and registered data gets the registry codec's bytes when it marshals, or the codec's error wrapped as a marshal error |
| `EventStore.EventStore.Packed` | eventstore.go:151-181 | fails exactly when encoding the data fails, with that error. Otherwise the message has the subject, the encoded data, and headers for the ID, type, formatted time and codec plus one prefixed header per metadata entry |
| `EventStore.EventStore.PackEvent` | eventstore.go:151-181 | builds exactly the `Packed` message for the event's fields |
| `EventStore.EventStore.DecodeData` | eventstore.go:185-200 | without a registry, a copy of the bytes; with one, `UnmarshalType` under the type header: an unknown type header fails with ErrTypeNotRegistered, and decoded data is always a registered pointer of the type registered under that header |
| `EventStore.EventStore.UnpackEvent` | eventstore.go:184-230 | gives a fresh event equal to `Unpacked` of the delivery, or no event and `Unpacked`'s error. Failures come in order: data, then metadata, then time |
| `EventStore.EventStore.Load` | eventstore.go:265-331 | returns `LoadResult` for the options' after-sequence: its events and last sequence, or no events, 0 and its error; it subscribes exactly when `SubscribesAfter` holds, with `StartSequence(after)` or `DeliverAll` |
| `EventStore.EventStore.DrainSubscription` | eventstore.go:311-328 | the read loop returns exactly `Drain` of the unpacked deliveries: their events in order up to the first at the last sequence, or the first error |
| `EventStore.EventStore.UnpackAt` | eventstore.go:318-321 | the `unpackEvent` call of the read loop: returns the event of delivery i, or its error, which is the i-th element of the unpacked deliveries |
| `EventStore.EventStore.Append` | eventstore.go:336-373 | the event is wrapped in place. A wrap or pack failure returns 0 and publishes nothing. Otherwise exactly one request is published: the packed message, the stream, and the expected sequence exactly when `ExpectSequence` was given. An ack returns its sequence; a failure returns 0 and `PublishError` of its text |
| `EventStore.EventStore.PackUnpackRoundTrip` | eventstore.go:151-230 | a packed event unpacks to the same ID, type, time, metadata, subject and delivered sequence, provided parsing inverts formatting. Without a registry the data comes back as the binary codec's bytes; with one, with the same content as a pointer to the same struct type, provided the codec decodes what it encodes |
| `EventStore.EventStore.RawBytesRoundTrip` | eventstore.go:158-199 | without a registry, a `[]byte` event packs and unpacks to the same event, apart from the delivered sequence and subject |
| `EventStore.LoadOfEmptySubject` | eventstore.go:252-281 | when the server answers 404, Load returns no events and sequence 0, without subscribing |
| `EventStore.LoadOfNothingNew` | eventstore.go:288-292 | when the last sequence is not past `afterSeq`, Load returns no events and sequence 0, not the last sequence, without subscribing |
| `EventStore.LoadEndsAtLast` | eventstore.go:303-330 | a Load that subscribes and succeeds returns the last sequence and a non-empty run of the unpacked deliveries, in delivery order. With `afterSeq` the first delivery is skipped. The run ends with the first event at the last sequence, and no earlier event has it |
| `EventStore.DrainInOrder` | eventstore.go:311-330 | a successful drain is the unpacked deliveries from the start position on, in order, ending at the first event with the last sequence |
| `EventStore.EventStore.Unpacked` | eventstore.go:184-230 | a data decoding failure is reported first, then unreadable metadata, then an unparsable time; it succeeds exactly when none of the three fails, and then the event has the decoded data, the parsed time, the delivered sequence and subject, the ID and type headers, and as metadata exactly the prefixed headers with the prefix removed |
| `EventStore.LoadFrom` | eventstore.go:274-330 | a failed last-message request is Load's error; with nothing after `afterSeq` the result is no events and sequence 0; a failed subscription is Load's error; otherwise the drain's error, or its events together with the last sequence. Events are only returned after subscribing, and with the last sequence |
| `EventStore.Drain` | eventstore.go:311-328 | running out of deliveries gives the subscription's end error; a successful drain is non-empty, fits in the deliveries from the start position, ends with the event at the last sequence and has no earlier event at that sequence |
| `EventStore.Contains` | eventstore.go:366 | a substring that is a prefix of the text is contained in it, and a contained substring is never longer than the text |
| `EventStore.SetMetaHeaders` | eventstore.go:176-178 | the header loop adds exactly the prefixed metadata headers to the headers already set |

## Left out

- I/O and the broker: these are not modelled. This covers the request/reply to
  the JetStream API, JSON encoding of its request and reply, `SubscribeSync`,
  `NextMsgWithContext`, `PublishMsg`, contexts, timeouts and concurrency. The
  server's answers are parameters of `Broker.Server`: the last-message reply,
  the subscription's deliveries and end error, and the publication answer.
  `NextMsgWithContext` returning an error once the deliveries run out is the
  subscription's `end` error.
- Stream administration (`Create`, `Update`, `Delete`, the stream config), the
  `EventStoreManager` and `rita.go`'s constructor are not part of this model.
  `EventStore.EventStore.constructor` takes the registry, stream, server, time
  format and codec header as parameters.
- The ID generator and the clock behind `wrapEvent` are passed in as the values
  they would give (`newId`, `now`). `time.Now().Local()` carries a location,
  which is not modelled.
- RFC 3339 formatting and parsing of event times are the parameter
  `TimeFormat`. The round trips assume parsing inverts formatting for the
  event's time.
- The codec header value is the constant `codecHeader`.
  `eventstore.go:174` calls `s.rt.types.Codec()` even when there is no
  registry, and `registry.go` has no `Codec()` method. No claim is made about
  this header's value.
- The JSON, MessagePack and Protocol Buffers codecs are not modelled. A codec
  is any pair of failable functions, and round trips assume
  `Codecs.DecodesWhatItEncodes`. `codec.Default` in `types/registry.go` does
  not exist in `codec/codec.go`, so it is a parameter of `NewRegistry`.
- Codec `Unmarshal` writes into its target in Go. In the model a codec's
  decoder returns the content it would write, and the registries return the
  target with that content put in: same type, same `MarshalBinary` and
  `Validate` behaviour. The pointer is a value, so aliasing of the target is
  not modelled. The binary codec's `*[]byte` target keeps the in-place form
  (`BinaryCodec.Slice`).
- Header names are compared exactly, as `nats.Header` map keys are when
  `packEvent` sets them and `unpackEvent` scans them with `strings.HasPrefix`.
  The envelope round trips rest on this; canonical MIME case folding of header
  names is not modelled.
- `Registry.TypeRegistry.Marshal` and `TypesRegistry.Registry.Marshal` return
  only the error when the codec fails, not the partial bytes Go also returns.
  No caller uses those bytes.
- Error messages are not modelled: errors are the constructors of
  `Base.Error`, and errors from code outside the model are `Opaque(text)`.
- Go map iteration order is unspecified. `NewTypeRegistry`, `NewRegistry`,
  `SetMetaHeaders` and `UnpackEvent` pick keys with `:|`, so every order is
  covered.
- `EventStore.EventStore.Load` returns the events as `EventRecord` values, not
  `*Event` pointers. No caller in the model shares or mutates them.
- `uint64` sequences are `nat`, without the 64-bit bound. `Clock.count` is an
  unbounded `nat`, whereas Go's `int` counter could wrap after 2^63 calls.
  `time.Time.Add` is plain integer addition, without Go's own saturation.
- A nil `[]byte` and an empty one are the same value, and slice capacity beyond
  the copy is not modelled except in `BinaryCodec.Assign`.
- A JetStream reply with neither an error nor a message is not modelled: the
  Go code would dereference nil there.
- In `Event`, the field the code calls `Sequence` is the record's `sequence`
  field.
- `EventStore.EventStore.DrainSubscription` is `Load`'s read loop and
  `EventStore.SetMetaHeaders` is `packEvent`'s metadata loop; they are
  separate methods only to keep proofs small. `UnpackAt` is the `unpackEvent`
  call in the read loop's body.
- Go panics are not modelled. A nil `*Type` in the map given to
  `NewTypeRegistry` makes `validate` dereference nil at `typ.Init`
  (`registry.go:82`). A nil `*[]byte` target makes the binary codec's
  `Unmarshal` dereference nil (`codec/binary.go:45`). The model's types are
  values, so neither input can be written.
- Where the library's documented behaviour and its code disagree, the model
  follows the code. When `afterSeq` is at or beyond the subject's last
  sequence, `Load` returns sequence 0, not the last sequence
  (`eventstore.go:288-292`).
