/** The event store of eventstore.go: `Append` wraps an event into its
    envelope, packs it into a NATS message and publishes it, optionally
    expecting a last sequence for the subject; `Load` finds the subject's
    last sequence and drains an ordered consumer up to it.
 */
module EventStore {
  import opened Base
  import opened Codecs
  import opened Envelope
  import opened Broker
  import Registry
  import BinaryCodec
  import TypeCheck

  /** `ExpectSequence(sequence)`, the one Append option. */
  datatype AppendOption = ExpectSequence(sequence: nat)

  /** `AfterSequence(sequence)`, the one Load option. */
  datatype LoadOption = AfterSequence(sequence: nat)

  /** Formatting and parsing of event times with `time.RFC3339Nano`. */
  datatype TimeFormat = TimeFormat(format: Time -> string, parse: string -> Result<Time>)

  /** What `wrapEvent` leaves in the event and whether it failed. */
  datatype WrapResult = WrapResult(event: EventRecord, err: Option<Error>)

  /** The expected last sequence the options of one Append call set: each
      option overwrites it, so the last one wins. */
  function ExpectedSeq(opts: seq<AppendOption>): (r: Option<nat>)
    ensures r.Some? <==> exists i :: 0 <= i < |opts| && opts[i].ExpectSequence?
    ensures r.Some? ==> r.value == opts[|opts| - 1].sequence
  {
    if opts == [] then None
    else
      assert opts[|opts| - 1].ExpectSequence?;
      Some(opts[|opts| - 1].sequence)
  }

  /** The sequence the options of one Load call start after; the last wins. */
  function AfterSeq(opts: seq<LoadOption>): (r: Option<nat>)
    ensures r.Some? <==> exists i :: 0 <= i < |opts| && opts[i].AfterSequence?
    ensures r.Some? ==> r.value == opts[|opts| - 1].sequence
  {
    if opts == [] then None
    else
      assert opts[|opts| - 1].AfterSequence?;
      Some(opts[|opts| - 1].sequence)
  }

  /** The consumer's start position: `StartSequence(afterSeq)`, or
      `DeliverAll()` without the option. */
  function StartOf(after: Option<nat>): Start
  {
    if after.Some? then StartSequence(after.value) else DeliverAll
  }

  /** `lastMsgForSubject` on the server's reply: a 404 API error means the
      subject has no message yet and reads as sequence 0; any other API error
      becomes "description (code)"; request and decoding errors pass through. */
  function LastSequence(reply: LastMsgReply): (r: Result<nat>)
    ensures reply.StoredMsg? ==> r == Ok(reply.sequence)
    ensures reply.ApiFailure? ==> (r.Ok? <==> reply.code == 404)
    ensures reply.ApiFailure? && r.Ok? ==> r.value == 0
    ensures reply.ApiFailure? && r.Err? ==> r.error == ApiError(reply.description, reply.code)
    ensures (reply.RequestFailed? || reply.Undecodable?) ==> r == Err(reply.err)
  {
    match reply
    case RequestFailed(e) => Err(e)
    case Undecodable(e) => Err(e)
    case ApiFailure(code, description) =>
      if code == 404 then Ok(0) else Err(ApiError(description, code))
    case StoredMsg(sequence) => Ok(sequence)
  }

  const WrongLastSequence: string := "wrong last sequence"

  /** `strings.Contains(s, sub)`. */
  function Contains(s: string, sub: string): (r: bool)
    ensures r ==> |sub| <= |s|
    ensures |sub| <= |s| && s[..|sub|] == sub ==> r
    decreases |s|
  {
    if |sub| > |s| then false
    else if s[..|sub|] == sub then true
    else Contains(s[1..], sub)
  }

  /** `sub` occurs in `s` at position `i`. */
  predicate OccursAt(s: string, sub: string, i: int)
  {
    0 <= i && i + |sub| <= |s| && s[i..i + |sub|] == sub
  }

  /** `Contains` holds exactly when `sub` occurs somewhere in `s`. */
  lemma {:induction false} ContainsIffOccurs(s: string, sub: string)
    ensures Contains(s, sub) <==> exists i :: OccursAt(s, sub, i)
    decreases |s|
  {
    if |sub| > |s| {
    } else if s[..|sub|] == sub {
      assert OccursAt(s, sub, 0);
    } else {
      ContainsIffOccurs(s[1..], sub);
      if Contains(s, sub) {
        var j :| OccursAt(s[1..], sub, j);
        assert s[1..][j..j + |sub|] == s[j + 1..j + 1 + |sub|];
        assert OccursAt(s, sub, j + 1);
      }
      if exists i :: OccursAt(s, sub, i) {
        var i :| OccursAt(s, sub, i);
        assert i != 0;
        assert s[1..][i - 1..i - 1 + |sub|] == s[i..i + |sub|];
        assert OccursAt(s[1..], sub, i - 1);
      }
    }
  }

  /** How Append reports a failed publication: a text mentioning the wrong
      last sequence is a sequence conflict; any other error passes through. */
  function PublishError(text: string): (e: Error)
    ensures e == SequenceConflict <==> Contains(text, WrongLastSequence)
    ensures e != SequenceConflict ==> e == Opaque(text)
  {
    if Contains(text, WrongLastSequence) then SequenceConflict else Opaque(text)
  }

  /** A conflict is reported exactly when the server's text mentions the wrong
      last sequence somewhere. */
  lemma ConflictIffWrongLastSequence(text: string)
    ensures PublishError(text) == SequenceConflict <==> exists i :: OccursAt(text, WrongLastSequence, i)
  {
    ContainsIffOccurs(text, WrongLastSequence);
  }

  class EventStore {
    /** The type registry, or null when events carry raw bytes. */
    const types: Registry.TypeRegistry?
    const stream: string
    const server: Server
    const times: TimeFormat
    /** What the codec header is set to. */
    const codecHeader: string

    ghost predicate Valid()
      reads this, types
    {
      types != null ==> types.Valid()
    }

    /** `EventStoreManager.Get(stream)`. */
    constructor (types: Registry.TypeRegistry?, stream: string, server: Server, times: TimeFormat, codecHeader: string)
      requires types != null ==> types.Valid()
      ensures Valid()
      ensures this.types == types && this.stream == stream && this.server == server
      ensures this.times == times && this.codecHeader == codecHeader
    {
      this.types, this.stream, this.server := types, stream, server;
      this.times, this.codecHeader := times, codecHeader;
    }

    /** The event type `wrapEvent` settles on, or why it refuses the event:
        nil data first; without a registry the given type must be non-empty;
        with one, the data's registered name fills an empty type and must
        match a given one. */
    function ResolveType(data: Value, typ: string): (r: Result<string>)
      reads this, types
      requires Valid()
      ensures data.Nil? ==> r == Err(EventDataNil)
      ensures !data.Nil? && types == null ==> (r.Ok? <==> typ != "") && (r.Ok? ==> r.value == typ)
      ensures !data.Nil? && types == null && typ == "" ==> r == Err(EventTypeNotDefined)
      ensures !data.Nil? && types != null && !types.IsRegistered(data) ==> r == Err(NoTypeForStruct(TypeOf(data)))
      ensures types != null && r.Ok? ==>
                types.IsRegistered(data) && r.value == types.Lookup(data).value && r.value in types.types
      ensures !data.Nil? && types != null && types.IsRegistered(data) ==>
                (r.Ok? <==> typ == "" || typ == types.Lookup(data).value)
      ensures !data.Nil? && types != null && types.IsRegistered(data) && typ != "" && typ != types.Lookup(data).value ==>
                r == Err(WrongEventType(typ))
    {
      if data.Nil? then Err(EventDataNil)
      else if types == null then
        if typ == "" then Err(EventTypeNotDefined) else Ok(typ)
      else
        match types.Lookup(data)
        case Err(e) => Err(e)
        case Ok(t) =>
          if typ == "" then Ok(t)
          else if typ != t then Err(WrongEventType(typ))
          else Ok(typ)
    }

    /** `wrapEvent` on an event with fields `e`, where `newId` and `now` are
        what the ID generator and the clock would give. */
    function Wrap(e: EventRecord, newId: string, now: Time): (w: WrapResult)
      reads this, types
      requires Valid()
      ensures w.event.data == e.data && w.event.meta == e.meta
      ensures w.event.sequence == e.sequence && w.event.subject == e.subject
      ensures ResolveType(e.data, e.typ).Err? ==> w == WrapResult(e, Some(ResolveType(e.data, e.typ).error))
      ensures ResolveType(e.data, e.typ).Ok? ==> w.event.typ == ResolveType(e.data, e.typ).value
      ensures w.err.Some? ==> w.event.id == e.id && w.event.time == e.time
      ensures ResolveType(e.data, e.typ).Ok? && e.data.Obj? && e.data.check.Fails? ==>
                w.err == Some(Opaque(e.data.check.reason))
      ensures ResolveType(e.data, e.typ).Ok? && !(e.data.Obj? && e.data.check.Fails?) ==> w.err.None?
      ensures w.err.None? ==> w.event.id == (if e.id == "" then newId else e.id)
      ensures w.err.None? ==> w.event.time == (if e.time == 0 then now else e.time)
      ensures w.err.None? && types != null ==>
                types.IsRegistered(e.data) && w.event.typ == types.Lookup(e.data).value
    {
      match ResolveType(e.data, e.typ)
      case Err(err) => WrapResult(e, Some(err))
      case Ok(t) =>
        var typed := e.(typ := t);
        if e.data.Obj? && e.data.check.Fails? then WrapResult(typed, Some(Opaque(e.data.check.reason)))
        else
          var id := if e.id == "" then newId else e.id;
          var time := if e.time == 0 then now else e.time;
          WrapResult(typed.(id := id, time := time), None)
    }

    /** A wrapped event always has a type: the given one without a registry,
        and otherwise a registered name, which the name pattern keeps
        non-empty. */
    lemma WrappedEventHasType(e: EventRecord, newId: string, now: Time)
      requires Valid()
      ensures Wrap(e, newId, now).err.None? ==> Wrap(e, newId, now).event.typ != ""
    {
      var w := Wrap(e, newId, now);
      if w.err.None? && types != null {
        assert w.event.typ in types.types;
        assert TypeCheck.Registrable(types.codec, w.event.typ, types.types[w.event.typ]);
      }
    }

    /** `wrapEvent(event)`: fills in the event's blank fields in place. The
        type is set before the data's own validation runs, so a failing
        validation leaves the resolved type behind. */
    method WrapEvent(event: Event, newId: string, now: Time) returns (err: Option<Error>)
      requires Valid()
      modifies event`typ, event`id, event`time
      ensures event.Record() == Wrap(old(event.Record()), newId, now).event
      ensures err == Wrap(old(event.Record()), newId, now).err
    {
      if event.data.Nil? {
        return Some(EventDataNil);
      }
      if types == null {
        if event.typ == "" {
          return Some(EventTypeNotDefined);
        }
      } else {
        var t := types.Lookup(event.data);
        if t.Err? {
          return Some(t.error);
        }
        if event.typ == "" {
          event.typ := t.value;
        } else if event.typ != t.value {
          return Some(WrongEventType(event.typ));
        }
      }
      if event.data.Obj? && event.data.check.Fails? {
        return Some(Opaque(event.data.check.reason));
      }
      if event.id == "" {
        event.id := newId;
      }
      if event.time == 0 {
        event.time := now;
      }
      return None;
    }

    /** The bytes `packEvent` sends for the event data: the binary codec without
        a registry, the registry's Marshal with one. */
    function Encode(data: Value): (r: Result<seq<byte>>)
      reads this, types
      requires Valid()
      ensures types == null ==> r == BinaryCodec.Marshal(data)
      ensures types != null && !types.IsRegistered(data) ==> r == Err(NoTypeForStruct(TypeOf(data)))
      ensures types != null && types.IsRegistered(data) && types.codec.marshal(data).Ok? ==>
                r == types.codec.marshal(data)
      ensures types != null && types.IsRegistered(data) && types.codec.marshal(data).Err? ==>
                r == Err(MarshalError(TypeOf(data).value, types.codec.marshal(data).error))
    {
      if types == null then BinaryCodec.Marshal(data) else types.Marshal(data)
    }

    /** The message `packEvent` builds for an event with fields `e`. */
    function Packed(subject: string, e: EventRecord): (r: Result<Msg>)
      reads this, types
      requires Valid()
      ensures r.Err? <==> Encode(e.data).Err?
      ensures r.Err? ==> r.error == Encode(e.data).error
      ensures r.Ok? ==> r.value.subject == subject && r.value.data == Encode(e.data).value
      ensures r.Ok? ==> r.value.header == FixedHeaders(e.id, e.typ, times.format(e.time), codecHeader) + MetaHeaders(e.meta)
    {
      match Encode(e.data)
      case Err(err) => Err(err)
      case Ok(b) => Ok(Msg(subject, FixedHeaders(e.id, e.typ, times.format(e.time), codecHeader) + MetaHeaders(e.meta), b))
    }

    /** `packEvent(subject, event)`: marshals the data, sets the fixed headers
        and then one prefixed header per metadata entry. */
    method PackEvent(subject: string, event: Event) returns (r: Result<Msg>)
      requires Valid()
      ensures r == Packed(subject, event.Record())
    {
      var data: Result<seq<byte>>;
      if types == null {
        data := BinaryCodec.Marshal(event.data);
      } else {
        data := types.Marshal(event.data);
      }
      if data.Err? {
        return Err(data.error);
      }
      var header: Header := map[];
      header := header[MsgIdHdr := event.id];
      header := header[EventTypeHdr := event.typ];
      header := header[EventTimeHdr := times.format(event.time)];
      header := header[EventCodecHdr := codecHeader];
      header := SetMetaHeaders(header, event.meta);
      return Ok(Msg(subject, header, data.value));
    }

    /** The data `unpackEvent` decodes: a copy of the bytes without a registry,
        and the registry's UnmarshalType under the event type header with one.
        With a registry, decoded data is always a pointer to the struct type
        registered under the type header, never nil or an unregistered type. */
    function DecodeData(b: seq<byte>, eventType: string): (r: Result<Value>)
      reads this, types
      requires Valid()
      ensures types == null ==> r == Ok(ByteSlice(b))
      ensures types != null ==> r == types.UnmarshalType(b, eventType)
      ensures types != null && eventType !in types.types ==> r == Err(TypeNotRegistered(eventType))
      ensures types != null && r.Ok? ==>
                && eventType in types.types && r.value.Obj? && r.value.typ.Pointer?
                && r.value.typ == types.types[eventType].init.value.typ && types.IsRegistered(r.value)
    {
      if types == null then Ok(ByteSlice(b)) else types.UnmarshalType(b, eventType)
    }

    /** The event `unpackEvent` reads from a delivery, or the first of its
        failures: the data, then the metadata, then the time header. */
    function Unpacked(d: Delivery): (r: Result<EventRecord>)
      reads this, types
      requires Valid()
      ensures DecodeData(d.msg.data, Get(d.msg.header, EventTypeHdr)).Err? ==>
                r == Err(DecodeData(d.msg.data, Get(d.msg.header, EventTypeHdr)).error)
      ensures DecodeData(d.msg.data, Get(d.msg.header, EventTypeHdr)).Ok? && d.metadata.Err? ==>
                r == Err(MetadataUnavailable(d.metadata.error))
      ensures DecodeData(d.msg.data, Get(d.msg.header, EventTypeHdr)).Ok? && d.metadata.Ok? &&
              times.parse(Get(d.msg.header, EventTimeHdr)).Err? ==>
                r == Err(BadEventTime(times.parse(Get(d.msg.header, EventTimeHdr)).error))
      ensures r.Ok? <==> DecodeData(d.msg.data, Get(d.msg.header, EventTypeHdr)).Ok? && d.metadata.Ok? &&
                         times.parse(Get(d.msg.header, EventTimeHdr)).Ok?
      ensures r.Ok? ==>
                && r.value.data == DecodeData(d.msg.data, Get(d.msg.header, EventTypeHdr)).value
                && r.value.time == times.parse(Get(d.msg.header, EventTimeHdr)).value
                && r.value.sequence == d.metadata.value && r.value.subject == d.msg.subject
                && r.value.id == Get(d.msg.header, MsgIdHdr) && r.value.typ == Get(d.msg.header, EventTypeHdr)
                && r.value.meta == StripMeta(d.msg.header)
    {
      var h := d.msg.header;
      match DecodeData(d.msg.data, Get(h, EventTypeHdr))
      case Err(e) => Err(e)
      case Ok(data) =>
        match d.metadata
        case Err(e) => Err(MetadataUnavailable(e))
        case Ok(sequence) =>
          match times.parse(Get(h, EventTimeHdr))
          case Err(e) => Err(BadEventTime(e))
          case Ok(t) => Ok(EventRecord(Get(h, MsgIdHdr), Get(h, EventTypeHdr), t, data, StripMeta(h), sequence, d.msg.subject))
    }

    /** `unpackEvent(msg)`: a fresh event read from the delivery. */
    method UnpackEvent(d: Delivery) returns (event: Event?, err: Option<Error>)
      requires Valid()
      ensures Unpacked(d).Ok? ==> err.None? && event != null && fresh(event) && event.Record() == Unpacked(d).value
      ensures Unpacked(d).Err? ==> event == null && err == Some(Unpacked(d).error)
    {
      var h := d.msg.header;
      var eventType := Get(h, EventTypeHdr);
      var data: Value;
      if types == null {
        var b := new BinaryCodec.Slice([], 0);
        var e := BinaryCodec.Unmarshal(d.msg.data, BinaryCodec.SlicePointer(b));
        if e.Some? {
          return null, e;
        }
        data := ByteSlice(b.Contents());
      } else {
        var r := types.UnmarshalType(d.msg.data, eventType);
        if r.Err? {
          return null, Some(r.error);
        }
        data := r.value;
      }
      if d.metadata.Err? {
        return null, Some(MetadataUnavailable(d.metadata.error));
      }
      var time := times.parse(Get(h, EventTimeHdr));
      if time.Err? {
        return null, Some(BadEventTime(time.error));
      }
      var meta: map<string, string> := map[];
      var remaining := h.Keys;
      while remaining != {}
        invariant remaining <= h.Keys
        invariant forall k :: k in meta <==> MetaName(k) in h && MetaName(k) !in remaining
        invariant forall k :: k in meta ==> meta[k] == h[MetaName(k)]
        decreases remaining
      {
        var n :| n in remaining;
        if HasMetaPrefix(n) {
          var key := MetaKey(n);
          MetaNameInjective(key);
          meta := meta[key := Get(h, n)];
        }
        remaining := remaining - {n};
      }
      SameEntries(meta, StripMeta(h));
      event := new Event(EventRecord(Get(h, MsgIdHdr), Get(h, EventTypeHdr), time.value, data, meta,
                                     d.metadata.value, d.msg.subject));
      return event, None;
    }

    /** Every delivery unpacked, in order. */
    function UnpackedAll(ds: seq<Delivery>): (us: seq<Result<EventRecord>>)
      reads this, types
      requires Valid()
      ensures |us| == |ds|
    {
      if ds == [] then [] else [Unpacked(ds[0])] + UnpackedAll(ds[1..])
    }

    /** The `k`-th of the unpacked deliveries is the `k`-th delivery unpacked. */
    lemma {:induction false} UnpackedAt(ds: seq<Delivery>, k: nat)
      requires Valid() && k < |ds|
      ensures UnpackedAll(ds)[k] == Unpacked(ds[k])
      decreases k
    {
      if k > 0 {
        UnpackedAt(ds[1..], k - 1);
      }
    }

    /** What `Load(subject, opts...)` returns, given the options' `after`:
        the events and the last sequence, or the error. */
    function LoadResult(subject: string, after: Option<nat>): Result<(seq<EventRecord>, nat)>
      reads this, types
      requires Valid()
    {
      var sub := server.subscribe(subject, StartOf(after));
      LoadFrom(server.lastMsg(stream, subject), after, sub,
               if sub.Subscribed? then UnpackedAll(sub.deliveries) else [])
    }

    /** Whether Load gets as far as subscribing. */
    function Subscribes(subject: string, after: Option<nat>): bool
    {
      SubscribesAfter(server.lastMsg(stream, subject), after)
    }

    /** `Load(subject, opts...)`. */
    method Load(subject: string, opts: seq<LoadOption>) returns (events: seq<EventRecord>, last: nat, err: Option<Error>)
      requires Valid()
      modifies server`subscriptions
      ensures var out := LoadResult(subject, AfterSeq(opts));
        && (out.Err? ==> events == [] && last == 0 && err == Some(out.error))
        && (out.Ok? ==> err.None? && events == out.value.0 && last == out.value.1)
      ensures server.subscriptions == old(server.subscriptions) +
        (if Subscribes(subject, AfterSeq(opts)) then [(subject, StartOf(AfterSeq(opts)))] else [])
    {
      var after: Option<nat> := None;
      for i := 0 to |opts|
        invariant after == AfterSeq(opts[..i])
      {
        after := Some(opts[i].sequence);
      }
      assert opts[..|opts|] == opts;
      events, last := [], 0;
      var lastMsg := LastSequence(server.lastMsg(stream, subject));
      if lastMsg.Err? {
        return [], 0, Some(lastMsg.error);
      }
      if lastMsg.value == 0 {
        return [], 0, None;
      }
      if after.Some? && lastMsg.value <= after.value {
        return [], 0, None;
      }
      var sub := server.Subscribe(subject, StartOf(after));
      if sub.SubscribeFailed? {
        return [], 0, Some(sub.err);
      }
      var i := 0;
      if after.Some? {
        if |sub.deliveries| == 0 {
          return [], 0, Some(sub.end);
        }
        i := 1;
      }
      events, err := DrainSubscription(sub.deliveries, UnpackedAll(sub.deliveries), i, sub.end, lastMsg.value);
      if err.Some? {
        return [], 0, err;
      }
      return events, lastMsg.value, None;
    }

    /** The loop of `Load` that reads the subscription from delivery `start`
        on and stops after the event at sequence `last`; `us` are the
        deliveries unpacked. */
    method DrainSubscription(ds: seq<Delivery>, ghost us: seq<Result<EventRecord>>, start: nat, end: Error, last: nat)
      returns (events: seq<EventRecord>, err: Option<Error>)
      requires Valid() && us == UnpackedAll(ds)
      ensures var out := Drain(us, start, end, last);
        && (out.Err? ==> events == [] && err == Some(out.error))
        && (out.Ok? ==> err.None? && events == out.value)
    {
      events := [];
      var i := start;
      DrainBegins(us, start, end, last);
      while i < |ds|
        invariant |us| == |ds| && DrainedUpTo(us, start, end, last, events, i)
        decreases |ds| - i
      {
        var u := UnpackAt(ds, us, i);
        if u.Err? || u.value.sequence == last {
          DrainEnds(us, start, end, last, events, i);
          if u.Err? {
            return [], Some(u.error);
          }
          return events + [u.value], None;
        }
        DrainContinues(us, start, end, last, events, i, u.value);
        events := events + [u.value];
        i := i + 1;
      }
      DrainEnds(us, start, end, last, events, i);
      return [], Some(end);
    }

    /** `unpackEvent` on delivery `i`, stated against the unpacked deliveries. */
    method UnpackAt(ds: seq<Delivery>, ghost us: seq<Result<EventRecord>>, i: nat) returns (r: Result<EventRecord>)
      requires Valid() && us == UnpackedAll(ds) && i < |ds|
      ensures r == us[i]
    {
      UnpackedAt(ds, i);
      var event, err := UnpackEvent(ds[i]);
      if err.Some? {
        return Err(err.value);
      }
      return Ok(event.Record());
    }

    /** `Append(subject, event, opts...)`: returns the sequence the server
        acknowledged. A failure before publishing returns 0 and publishes
        nothing. */
    method Append(subject: string, event: Event, opts: seq<AppendOption>, newId: string, now: Time)
      returns (sequence: nat, err: Option<Error>)
      requires Valid()
      modifies event`typ, event`id, event`time, server`published
      ensures var w := Wrap(old(event.Record()), newId, now);
        && event.Record() == w.event
        && (w.err.Some? ==> sequence == 0 && err == w.err && server.published == old(server.published))
        && (w.err.None? && Packed(subject, w.event).Err? ==>
              sequence == 0 && err == Some(Packed(subject, w.event).error) && server.published == old(server.published))
        && (w.err.None? && Packed(subject, w.event).Ok? ==>
              var req := PubRequest(Packed(subject, w.event).value, stream, ExpectedSeq(opts));
              && server.published == old(server.published) + [req]
              && match server.respond(old(server.published), req)
                 case Acked(s) => sequence == s && err.None?
                 case PubFailed(text) => sequence == 0 && err == Some(PublishError(text)))
    {
      var expSeq: Option<nat> := None;
      for i := 0 to |opts|
        invariant expSeq == ExpectedSeq(opts[..i])
      {
        expSeq := Some(opts[i].sequence);
      }
      assert opts[..|opts|] == opts;
      err := WrapEvent(event, newId, now);
      if err.Some? {
        return 0, err;
      }
      var msg := PackEvent(subject, event);
      if msg.Err? {
        return 0, Some(msg.error);
      }
      var ack := server.Publish(PubRequest(msg.value, stream, expSeq));
      match ack
      case PubFailed(text) =>
        return 0, Some(PublishError(text));
      case Acked(s) =>
        return s, None;
    }

    /** A wrapped event packed into a message and read back from it keeps its
        ID, type, metadata and time, provided parsing the formatted time gives
        the time back. Without a registry the data comes back as the bytes the
        binary codec made of it; with one, as a pointer to the same struct type holding the same content,
        provided the codec decodes what it encodes. */
    lemma PackUnpackRoundTrip(subject: string, e: EventRecord, sequence: nat)
      requires Valid()
      requires Packed(subject, e).Ok?
      requires times.parse(times.format(e.time)) == Ok(e.time)
      requires types != null ==>
        types.IsRegistered(e.data) && e.typ == types.Lookup(e.data).value && DecodesWhatItEncodes(types.codec, e.data)
      ensures var u := Unpacked(Delivery(Packed(subject, e).value, Ok(sequence)));
        && u.Ok? && u.value.id == e.id && u.value.typ == e.typ && u.value.time == e.time
        && u.value.meta == e.meta && u.value.sequence == sequence && u.value.subject == subject
        && (types == null ==> u.value.data == ByteSlice(BinaryCodec.Marshal(e.data).value))
        && (types != null ==> SameContent(u.value.data, e.data) && u.value.data.typ == Pointer(ElemShape(e.data.typ)))
    {
      var msg := Packed(subject, e).value;
      EnvelopeRoundTrip(e.id, e.typ, times.format(e.time), codecHeader, e.meta);
      if types != null {
        types.RoundTrip(e.data);
      }
    }

    /** Bytes appended without a registry are loaded back unchanged. */
    lemma RawBytesRoundTrip(subject: string, e: EventRecord, sequence: nat)
      requires Valid() && types == null && e.data.ByteSlice?
      requires times.parse(times.format(e.time)) == Ok(e.time)
      ensures Packed(subject, e).Ok?
      ensures Unpacked(Delivery(Packed(subject, e).value, Ok(sequence))).Ok?
      ensures Unpacked(Delivery(Packed(subject, e).value, Ok(sequence))).value == e.(sequence := sequence, subject := subject)
    {
      PackUnpackRoundTrip(subject, e, sequence);
    }
  }

  /** Load's outcome given the server's reply for the subject's last message,
      the subscription it would get and that subscription's deliveries
      unpacked (`us`): the events and the last sequence, or the error. */
  function LoadFrom(reply: LastMsgReply, after: Option<nat>, sub: Subscription, us: seq<Result<EventRecord>>)
    : (r: Result<(seq<EventRecord>, nat)>)
    ensures LastSequence(reply).Err? ==> r == Err(LastSequence(reply).error)
    ensures LastSequence(reply).Ok? && !SubscribesAfter(reply, after) ==> r == Ok(([], 0))
    ensures SubscribesAfter(reply, after) && sub.SubscribeFailed? ==> r == Err(sub.err)
    ensures SubscribesAfter(reply, after) && sub.Subscribed? ==>
      var drained := Drain(us, if after.Some? then 1 else 0, sub.end, LastSequence(reply).value);
      && (drained.Err? ==> r == Err(drained.error))
      && (drained.Ok? ==> r == Ok((drained.value, LastSequence(reply).value)))
    ensures r.Ok? && r.value.0 != [] ==> SubscribesAfter(reply, after) && r.value.1 == LastSequence(reply).value
  {
    match LastSequence(reply)
    case Err(e) => Err(e)
    case Ok(last) =>
      if last == 0 || (after.Some? && last <= after.value) then Ok(([], 0))
      else
        match sub
        case SubscribeFailed(e) => Err(e)
        case Subscribed(_, end) =>
          match Drain(us, if after.Some? then 1 else 0, end, last)
          case Err(e) => Err(e)
          case Ok(rs) => Ok((rs, last))
  }

  /** Load subscribes only when the subject has a message past `after`. */
  predicate SubscribesAfter(reply: LastMsgReply, after: Option<nat>)
  {
    var last := LastSequence(reply);
    last.Ok? && last.value != 0 && !(after.Some? && last.value <= after.value)
  }

  /** A subject without messages (the server answers 404) loads as no events
      and sequence 0, without subscribing. */
  lemma LoadOfEmptySubject(reply: LastMsgReply, after: Option<nat>, sub: Subscription, us: seq<Result<EventRecord>>)
    requires reply.ApiFailure? && reply.code == 404
    ensures LoadFrom(reply, after, sub, us) == Ok(([], 0))
    ensures !SubscribesAfter(reply, after)
  {
  }

  /** When the subject's last sequence is not past `afterSeq`, Load returns no
      events and sequence 0, not the last sequence, without subscribing. */
  lemma LoadOfNothingNew(reply: LastMsgReply, after: Option<nat>, sub: Subscription, us: seq<Result<EventRecord>>)
    requires LastSequence(reply).Ok? && after.Some? && LastSequence(reply).value <= after.value
    ensures LoadFrom(reply, after, sub, us) == Ok(([], 0))
    ensures !SubscribesAfter(reply, after)
  {
  }

  /** A successful Load that subscribes returns the subject's last sequence and
      the unpacked deliveries in order, skipping the first one when `afterSeq`
      is set, up to and including the first event at that sequence. */
  lemma LoadEndsAtLast(reply: LastMsgReply, after: Option<nat>, sub: Subscription, us: seq<Result<EventRecord>>)
    requires SubscribesAfter(reply, after) && LoadFrom(reply, after, sub, us).Ok?
    ensures var (rs, last) := LoadFrom(reply, after, sub, us).value;
      var skip := if after.Some? then 1 else 0;
      && last == LastSequence(reply).value && last > 0
      && sub.Subscribed? && |rs| > 0 && skip + |rs| <= |us|
      && (forall k :: 0 <= k < |rs| ==> us[skip + k] == Ok(rs[k]))
      && rs[|rs| - 1].sequence == last
      && (forall k :: 0 <= k < |rs| - 1 ==> rs[k].sequence != last)
  {
    DrainInOrder(us, if after.Some? then 1 else 0, sub.end, LastSequence(reply).value);
  }

  /** The events the drain loop of Load collects from the unpacked deliveries
      `us`, from `i` on: it stops at the first failure, or right after the
      event at sequence `last`; running out of deliveries gives the
      subscription's `end` error. */
  function Drain(us: seq<Result<EventRecord>>, i: nat, end: Error, last: nat): (r: Result<seq<EventRecord>>)
    ensures i >= |us| ==> r == Err(end)
    ensures r.Ok? ==> |r.value| > 0 && i + |r.value| <= |us|
    ensures r.Ok? ==> r.value[|r.value| - 1].sequence == last
    ensures r.Ok? ==> forall k :: 0 <= k < |r.value| - 1 ==> r.value[k].sequence != last
    decreases |us| - i
  {
    if i >= |us| then Err(end)
    else
      match us[i]
      case Err(e) => Err(e)
      case Ok(r) =>
        if r.sequence == last then Ok([r])
        else
          match Drain(us, i + 1, end, last)
          case Err(e) => Err(e)
          case Ok(rs) => Ok([r] + rs)
  }

  /** `r`'s events after `done`, or `r`'s error. */
  function Prepend(done: seq<EventRecord>, r: Result<seq<EventRecord>>): Result<seq<EventRecord>>
  {
    match r
    case Err(e) => Err(e)
    case Ok(rs) => Ok(done + rs)
  }

  /** One step of the drain loop. */
  lemma DrainStep(us: seq<Result<EventRecord>>, i: nat, end: Error, last: nat)
    ensures i >= |us| ==> Drain(us, i, end, last) == Err(end)
    ensures i < |us| && us[i].Err? ==> Drain(us, i, end, last) == Err(us[i].error)
    ensures i < |us| && us[i].Ok? && us[i].value.sequence == last ==> Drain(us, i, end, last) == Ok([us[i].value])
    ensures i < |us| && us[i].Ok? && us[i].value.sequence != last ==>
      Drain(us, i, end, last) == Prepend([us[i].value], Drain(us, i + 1, end, last))
  {
  }

  lemma PrependNothing(r: Result<seq<EventRecord>>)
    ensures Prepend([], r) == r
  {
    if r.Ok? {
      assert [] + r.value == r.value;
    }
  }

  /** The drain from `start` has reached delivery `i` and collected `events`
      on the way: what it returns is `events` followed by the drain from `i`. */
  predicate DrainedUpTo(us: seq<Result<EventRecord>>, start: nat, end: Error, last: nat, events: seq<EventRecord>, i: nat)
  {
    start <= i && Drain(us, start, end, last) == Prepend(events, Drain(us, i, end, last))
  }

  lemma DrainBegins(us: seq<Result<EventRecord>>, start: nat, end: Error, last: nat)
    ensures DrainedUpTo(us, start, end, last, [], start)
  {
    PrependNothing(Drain(us, start, end, last));
  }

  /** An event before the one at sequence `last` is collected and the drain
      moves on to the next delivery. */
  lemma DrainContinues(us: seq<Result<EventRecord>>, start: nat, end: Error, last: nat, events: seq<EventRecord>, i: nat, r: EventRecord)
    requires DrainedUpTo(us, start, end, last, events, i)
    requires i < |us| && us[i] == Ok(r) && r.sequence != last
    ensures DrainedUpTo(us, start, end, last, events + [r], i + 1)
  {
    DrainStep(us, i, end, last);
    PrependTwice(events, [r], Drain(us, i + 1, end, last));
  }

  /** How the drain from `start` ends once it has reached delivery `i`: with
      the subscription's end, with delivery `i`'s error, or with `events` and
      the event at sequence `last`. */
  lemma DrainEnds(us: seq<Result<EventRecord>>, start: nat, end: Error, last: nat, events: seq<EventRecord>, i: nat)
    requires DrainedUpTo(us, start, end, last, events, i)
    ensures i >= |us| ==> Drain(us, start, end, last) == Err(end)
    ensures i < |us| && us[i].Err? ==> Drain(us, start, end, last) == Err(us[i].error)
    ensures i < |us| && us[i].Ok? && us[i].value.sequence == last ==>
      Drain(us, start, end, last) == Ok(events + [us[i].value])
  {
    DrainStep(us, i, end, last);
  }

  /** Prepending in two steps is prepending once. */
  lemma PrependTwice(a: seq<EventRecord>, b: seq<EventRecord>, r: Result<seq<EventRecord>>)
    ensures Prepend(a, Prepend(b, r)) == Prepend(a + b, r)
  {
    if r.Ok? {
      assert a + (b + r.value) == (a + b) + r.value;
    }
  }

  /** A successful drain returns the events from `i` on, in delivery order,
      ending with the first one at sequence `last`. */
  lemma {:induction false} DrainInOrder(us: seq<Result<EventRecord>>, i: nat, end: Error, last: nat)
    ensures Drain(us, i, end, last).Ok? ==>
      var rs := Drain(us, i, end, last).value;
      && |rs| > 0 && i + |rs| <= |us|
      && (forall k :: 0 <= k < |rs| ==> us[i + k] == Ok(rs[k]))
      && rs[|rs| - 1].sequence == last
      && (forall k :: 0 <= k < |rs| - 1 ==> rs[k].sequence != last)
    decreases |us| - i
  {
    if i < |us| && us[i].Ok? && us[i].value.sequence != last {
      DrainInOrder(us, i + 1, end, last);
      if Drain(us, i + 1, end, last).Ok? {
        var rs := Drain(us, i + 1, end, last).value;
        var r := us[i].value;
        assert Drain(us, i, end, last).value == [r] + rs;
        forall k | 0 <= k < |rs| + 1
          ensures us[i + k] == Ok(([r] + rs)[k])
        {
          if k > 0 {
            assert us[(i + 1) + (k - 1)] == Ok(rs[k - 1]);
          }
        }
      }
    }
  }

  /** The header loop of packEvent: one prefixed header per metadata entry
      on top of `header`. */
  method SetMetaHeaders(header: Header, meta: map<string, string>) returns (h: Header)
    ensures h == header + MetaHeaders(meta)
  {
    h := header;
    var remaining := meta.Keys;
    ghost var done: map<string, string> := map[];
    while remaining != {}
      invariant remaining !! done.Keys && remaining + done.Keys == meta.Keys
      invariant forall k :: k in done ==> done[k] == meta[k]
      invariant h == header + MetaHeaders(done)
      decreases remaining
    {
      var k :| k in remaining;
      SetMetaHeader(header, done, k, meta[k]);
      h := h[MetaName(k) := meta[k]];
      done := done[k := meta[k]];
      remaining := remaining - {k};
    }
    SameEntries(done, meta);
  }

  /** Setting the header for one more metadata entry extends the envelope by
      that entry's prefixed header. */
  lemma SetMetaHeader(fixed: Header, done: map<string, string>, k: string, v: string)
    ensures (fixed + MetaHeaders(done))[MetaName(k) := v] == fixed + MetaHeaders(done[k := v])
  {
    var a := (fixed + MetaHeaders(done))[MetaName(k) := v];
    var b := fixed + MetaHeaders(done[k := v]);
    forall n | n in a || n in b
      ensures n in a && n in b && a[n] == b[n]
    {
      if n != MetaName(k) && HasMetaPrefix(n) {
        MetaNameInjective(MetaKey(n));
        assert MetaKey(n) != k;
      }
    }
    SameEntries(a, b);
  }

  /** Two metadata keys share a header name only if they are the same key. */
  lemma MetaNameInjective(k: string)
    ensures forall j :: MetaName(j) == MetaName(k) ==> j == k
  {
    forall j | MetaName(j) == MetaName(k)
      ensures j == k
    {
      assert MetaName(j)[|EventMetaPrefixHdr|..] == j;
    }
  }
}
