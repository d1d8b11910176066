/** How the consumer turns one raw Kafka message into a buffered event, a
    rejection, or an exception that ends the read loop. */
module Decoding {

  import opened Options

  /** What lands in the buffer: a JSON object, or (on a topic without a tenant
      suffix) whatever else decoding produced, Python's `None` included. */
  datatype Event = Object(fields: map<string, string>) | NonObject | Null

  /** The outcome of `json.loads`: a value, an error the consumer catches, or
      one it does not (a recursion limit, an over-long integer). */
  datatype JsonResult = Loaded(event: Event) | Malformed | Uncaught

  /** The outcome of matching the topic and validating its suffix as a UUID. */
  datatype TopicTenant = NoSuffix | NotUuid | Tenant(id: string)

  /** `size` is None when the message has no value at all (a tombstone). */
  datatype Message = Message(
    size: Option<nat>,
    startsWithBrace: bool,
    json: JsonResult,
    proto: Option<map<string, string>>,
    topic: TopicTenant)

  datatype Verdict = Rejected | Raises | Accepted(event: Event)

  const MAX_MESSAGE_BYTES := 1_048_576

  predicate TooLarge(m: Message) {
    m.size.Some? && m.size.value > MAX_MESSAGE_BYTES
  }

  /** Python's truth value of `msg.value`. */
  predicate HasBytes(m: Message) {
    m.size.Some? && m.size.value > 0
  }

  /** The JSON fast path, then protobuf, then JSON again. */
  function Parse(m: Message): (v: Verdict) {
    if !HasBytes(m) then Accepted(Null)
    else if m.startsWithBrace && m.json.Uncaught? then Raises
    else if m.startsWithBrace && m.json.Loaded? && m.json.event != Null then Accepted(m.json.event)
    else if m.proto.Some? then Accepted(Object(m.proto.value))
    else match m.json
      case Loaded(e) => Accepted(e)
      case Malformed => Rejected
      case Uncaught => Raises
  }

  /** `event.setdefault("tenant_id", t)`: an AttributeError unless the event is an object. */
  function WithTenant(e: Event, t: string): Verdict {
    match e
    case Object(fields) => Accepted(Object(if "tenant_id" in fields then fields else fields["tenant_id" := t]))
    case _ => Raises
  }

  function Classify(m: Message): (v: Verdict) {
    if TooLarge(m) then Rejected
    else
      var parsed := Parse(m);
      if !parsed.Accepted? then parsed
      else match m.topic
        case NoSuffix => parsed
        case NotUuid => Rejected
        case Tenant(t) => WithTenant(parsed.event, t)
  }

  predicate IsObject(m: Message) {
    m.json.Loaded? && m.json.event.Object?
  }

  /** On a tenant topic only objects reach the buffer, always carrying a
      tenant; a message's own tenant is never overwritten by the topic's. */
  lemma AcceptedOnTenantTopic(m: Message)
    requires m.topic.Tenant? && Classify(m).Accepted?
    ensures var e := Classify(m).event;
            && e.Object? && "tenant_id" in e.fields
            && (IsObject(m) && m.startsWithBrace && "tenant_id" in m.json.event.fields
                ==> e == m.json.event)
            && (m.proto.None? ==> IsObject(m) && e.fields - {"tenant_id"} == m.json.event.fields - {"tenant_id"})
  {
  }

  predicate UncaughtJson(m: Message) {
    HasBytes(m) && m.json.Uncaught? && (m.startsWithBrace || m.proto.None?)
  }

  /** Exactly which messages end the read loop. On any topic, an error of the JSON
      decoder that is not caught. On a tenant topic also an empty value, and a JSON
      value that is not an object. None of them when the message is oversized, or
      when the protobuf decoder takes it before JSON gets a say. */
  lemma RaisesIff(m: Message)
    ensures Classify(m).Raises? <==>
            !TooLarge(m) &&
            (|| UncaughtJson(m)
             || (m.topic.Tenant?
                 && (|| !HasBytes(m)
                     || (m.startsWithBrace && m.json.Loaded? && m.json.event.NonObject?)
                     || (m.proto.None? && m.json.Loaded? && !m.json.event.Object?))))
  {
  }

  /** What the bytes decode to: JSON when they start with a brace and are a JSON value other
      than null, else protobuf, else whatever JSON makes of them; no bytes, to nothing. */
  predicate DecodesTo(m: Message, e: Event) {
    if m.size.None? || m.size == Some(0) then e == Null
    else if m.startsWithBrace && m.json.Loaded? && m.json.event != Null then e == m.json.event
    else if m.proto.Some? then !(m.startsWithBrace && m.json.Uncaught?) && e == Object(m.proto.value)
    else m.json.Loaded? && e == m.json.event
  }

  /** The fields with the topic's tenant, if they had none. */
  ghost predicate TenantSet(before: map<string, string>, after: map<string, string>, tenant: string) {
    && "tenant_id" in after
    && after["tenant_id"] == (if "tenant_id" in before then before["tenant_id"] else tenant)
    && (forall k :: k != "tenant_id" ==> (k in after <==> k in before))
    && (forall k :: k != "tenant_id" && k in before ==> after[k] == before[k])
  }

  lemma TenantSetIs(before: map<string, string>, after: map<string, string>, tenant: string)
    ensures TenantSet(before, after, tenant)
            <==> WithTenant(Object(before), tenant) == Accepted(Object(after))
  {
    var expected := if "tenant_id" in before then before else before["tenant_id" := tenant];
    if TenantSet(before, after, tenant) { assert after == expected; }
  }

  /** Exactly which messages are accepted, and as what: none over 1 MiB, none from a topic
      whose suffix is not a UUID; on a tenant topic an object gets the topic's tenant
      unless it has one, and keeps all else. */
  lemma AcceptedIff(m: Message, e: Event)
    ensures Classify(m) == Accepted(e) <==>
            && !(m.size.Some? && m.size.value > 1_048_576) && !m.topic.NotUuid?
            && (m.topic.NoSuffix? ==> DecodesTo(m, e))
            && (m.topic.Tenant? ==>
                  && e.Object?
                  && exists fields :: DecodesTo(m, Object(fields)) && TenantSet(fields, e.fields, m.topic.id))
  {
    if m.topic.Tenant? && e.Object? && Parse(m).Accepted? && Parse(m).event.Object? {
      TenantSetIs(Parse(m).event.fields, e.fields, m.topic.id);
    }
  }

  /** Refused without an exception: oversized messages, bytes that are neither JSON nor
      protobuf, and readable messages on a topic whose suffix is not a UUID. */
  lemma RejectedIff(m: Message)
    ensures Classify(m).Rejected? <==>
            || (m.size.Some? && m.size.value > 1_048_576)
            || (m.size.Some? && m.size.value > 0 && m.proto.None? && m.json.Malformed?)
            || (m.topic.NotUuid? && exists e :: DecodesTo(m, e))
  {
    if !TooLarge(m) && Parse(m).Accepted? { assert DecodesTo(m, Parse(m).event); }
  }
}
