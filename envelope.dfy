/** The event envelope of eventstore.go and types.go: the `Event` record and
    the NATS headers it travels in. Metadata entry `k` becomes header
    `rita-meta-k`; none of the fixed header names carries that prefix, so the
    prefix alone tells metadata headers apart.
 */
module Envelope {
  import opened Base

  const MsgIdHdr: string := "Nats-Msg-Id"
  const EventTypeHdr: string := "rita-event-type"
  const EventTimeHdr: string := "rita-event-time"
  const EventCodecHdr: string := "rita-event-codec"
  const EventMetaPrefixHdr: string := "rita-meta-"

  /** `nats.Header` with a single value per name: `Set` replaces, and `Get`
      of a missing name is the empty string. Names are compared exactly. */
  type Header = map<string, string>

  function Get(h: Header, name: string): (v: string)
    ensures name in h ==> v == h[name]
    ensures name !in h ==> v == ""
  {
    if name in h then h[name] else ""
  }

  predicate HasMetaPrefix(h: string)
  {
    |EventMetaPrefixHdr| <= |h| && h[..|EventMetaPrefixHdr|] == EventMetaPrefixHdr
  }

  /** The header name metadata key `k` is stored under. */
  function MetaName(k: string): (h: string)
    ensures HasMetaPrefix(h) && h[|EventMetaPrefixHdr|..] == k
  {
    EventMetaPrefixHdr + k
  }

  /** The metadata key a prefixed header name stands for. */
  function MetaKey(h: string): (k: string)
    requires HasMetaPrefix(h)
    ensures MetaName(k) == h
  {
    h[|EventMetaPrefixHdr|..]
  }

  /** The headers `packEvent` writes for the metadata entries. */
  function MetaHeaders(meta: map<string, string>): (h: Header)
    ensures forall n :: n in h <==> HasMetaPrefix(n) && MetaKey(n) in meta
    ensures forall k :: k in meta ==> MetaName(k) in h && h[MetaName(k)] == meta[k]
  {
    map n | n in (set k | k in meta :: MetaName(k)) :: meta[MetaKey(n)]
  }

  /** The metadata `unpackEvent` reads back from a header. */
  function StripMeta(h: Header): (meta: map<string, string>)
    ensures forall k :: k in meta <==> MetaName(k) in h
    ensures forall k :: k in meta ==> meta[k] == h[MetaName(k)]
  {
    map k | k in (set n | n in h && HasMetaPrefix(n) :: MetaKey(n)) :: h[MetaName(k)]
  }

  /** The fixed headers of an envelope: ID, type, formatted time and codec. */
  function FixedHeaders(id: string, typ: string, timeText: string, codecName: string): Header
  {
    map[MsgIdHdr := id][EventTypeHdr := typ][EventTimeHdr := timeText][EventCodecHdr := codecName]
  }

  /** No fixed header name carries the metadata prefix. */
  lemma FixedNamesAreNotMeta()
    ensures !HasMetaPrefix(MsgIdHdr) && !HasMetaPrefix(EventTypeHdr)
    ensures !HasMetaPrefix(EventTimeHdr) && !HasMetaPrefix(EventCodecHdr)
  {
    assert MsgIdHdr[0] != EventMetaPrefixHdr[0];
    assert EventTypeHdr[5] != EventMetaPrefixHdr[5];
    assert EventTimeHdr[5] != EventMetaPrefixHdr[5];
    assert EventCodecHdr[5] != EventMetaPrefixHdr[5];
  }

  lemma FixedNamesDistinct()
    ensures MsgIdHdr != EventTypeHdr && MsgIdHdr != EventTimeHdr && MsgIdHdr != EventCodecHdr
    ensures EventTypeHdr != EventTimeHdr && EventTypeHdr != EventCodecHdr && EventTimeHdr != EventCodecHdr
  {
    assert MsgIdHdr[0] != EventTypeHdr[0];
    assert EventTypeHdr[12] != EventTimeHdr[12] && EventTypeHdr[11] != EventCodecHdr[11];
    assert EventTimeHdr[11] != EventCodecHdr[11];
  }

  /** Metadata survives the trip through the headers: stripping the prefix
      from an envelope gives back exactly the metadata it was packed from,
      and the ID, type and time headers give back what was written to them. */
  lemma {:induction false} EnvelopeRoundTrip(
    id: string, typ: string, timeText: string, codecName: string, meta: map<string, string>)
    ensures var h := FixedHeaders(id, typ, timeText, codecName) + MetaHeaders(meta);
      && StripMeta(h) == meta
      && Get(h, MsgIdHdr) == id && Get(h, EventTypeHdr) == typ && Get(h, EventTimeHdr) == timeText
  {
    var fixed := FixedHeaders(id, typ, timeText, codecName);
    FixedHeadersAreNotMeta(id, typ, timeText, codecName);
    MetaRoundTrip(fixed, meta);
    FixedHeaderValues(id, typ, timeText, codecName);
    FixedWins(fixed, meta, MsgIdHdr);
    FixedWins(fixed, meta, EventTypeHdr);
    FixedWins(fixed, meta, EventTimeHdr);
  }

  lemma FixedHeaderValues(id: string, typ: string, timeText: string, codecName: string)
    ensures var fixed := FixedHeaders(id, typ, timeText, codecName);
      && MsgIdHdr in fixed && EventTypeHdr in fixed && EventTimeHdr in fixed
      && fixed[MsgIdHdr] == id && fixed[EventTypeHdr] == typ && fixed[EventTimeHdr] == timeText
  {
    FixedNamesDistinct();
  }

  /** A header without the prefix keeps its fixed value next to the metadata. */
  lemma FixedWins(fixed: Header, meta: map<string, string>, n: string)
    requires n in fixed && !HasMetaPrefix(n)
    ensures Get(fixed + MetaHeaders(meta), n) == fixed[n]
  {
    assert n !in MetaHeaders(meta);
  }

  lemma FixedHeadersAreNotMeta(id: string, typ: string, timeText: string, codecName: string)
    ensures forall n :: n in FixedHeaders(id, typ, timeText, codecName) ==> !HasMetaPrefix(n)
  {
    FixedNamesAreNotMeta();
    assert FixedHeaders(id, typ, timeText, codecName).Keys == {MsgIdHdr, EventTypeHdr, EventTimeHdr, EventCodecHdr};
  }

  /** Metadata packed beside headers without the prefix strips back to itself. */
  lemma MetaRoundTrip(fixed: Header, meta: map<string, string>)
    requires forall n :: n in fixed ==> !HasMetaPrefix(n)
    ensures StripMeta(fixed + MetaHeaders(meta)) == meta
  {
    var h := fixed + MetaHeaders(meta);
    forall k | k in StripMeta(h) || k in meta
      ensures k in StripMeta(h) && k in meta && StripMeta(h)[k] == meta[k]
    {
      MetaEntry(fixed, meta, k);
    }
    SameEntries(StripMeta(h), meta);
  }

  lemma SameEntries(a: map<string, string>, b: map<string, string>)
    requires forall k :: k in a || k in b ==> k in a && k in b && a[k] == b[k]
    ensures a == b
  {
  }

  /** One metadata key of an envelope whose fixed part has no prefixed name. */
  lemma MetaEntry(fixed: Header, meta: map<string, string>, k: string)
    requires forall n :: n in fixed ==> !HasMetaPrefix(n)
    ensures var h := fixed + MetaHeaders(meta);
      (k in StripMeta(h) <==> k in meta) && (k in meta ==> StripMeta(h)[k] == meta[k])
  {
    assert MetaKey(MetaName(k)) == k;
  }

  /** An event as `unpackEvent` builds it, and as `Load` hands it out. */
  datatype EventRecord = EventRecord(
    id: string, typ: string, time: Time, data: Value,
    meta: map<string, string>, sequence: nat, subject: string)

  /** The `Event` a caller passes to `Append`: `wrapEvent` fills in its blank
      fields in place. */
  class Event {
    var id: string
    var typ: string
    var time: Time
    var data: Value
    var meta: map<string, string>
    var sequence: nat
    var subject: string

    constructor (r: EventRecord)
      ensures Record() == r
    {
      id, typ, time, data := r.id, r.typ, r.time, r.data;
      meta, sequence, subject := r.meta, r.sequence, r.subject;
    }

    /** The event's fields as a value. */
    function Record(): (r: EventRecord)
      reads this
      ensures r.id == id && r.typ == typ && r.time == time && r.data == data
      ensures r.meta == meta && r.sequence == sequence && r.subject == subject
    {
      EventRecord(id, typ, time, data, meta, sequence, subject)
    }
  }
}
