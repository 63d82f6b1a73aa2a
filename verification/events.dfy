/** What the aggregator reads from one input record, and the two coercions it
    applies: the choice of timestamp and the coercion of the amount. */
module Events {

  datatype Option<T> = None | Some(value: T)

  /** What `Number(obj.amount)` does: it gives a number, gives NaN, or throws a
      TypeError (an amount that is an object whose own `valueOf` and
      `toString` are not functions). */
  datatype Amount = Number(value: real) | NotANumber | Throws

  /** One input record after base64 decoding, UTF-8 decoding and `JSON.parse`.
      - `Undecodable`: one of those steps throws, or the timestamp lookup
        throws before anything is counted. This covers a payload that parses
        to `null`, whose field access throws, and a `timestamp` whose
        conversion to a string throws inside `Date.parse`.
      - `Object`: the three fields the aggregator reads.
        - `eventTimestamp` is `Some(n)` exactly when `event_timestamp` is a
          number.
        - `parsedTimestamp` is what `Date.parse` makes of the `timestamp`
          field, `None` when that is NaN, including when the field is absent.
        - `amount` is what `Number(amount)` does.

      A payload that parses to a number, a string, a boolean or an array has
      no such fields. It is `Object(None, None, NotANumber)`, and it is skipped
      for want of a timestamp. */
  datatype Payload =
    | Undecodable
    | Object(eventTimestamp: Option<int>, parsedTimestamp: Option<int>, amount: Amount)

  /** The timestamp the record names: the numeric `event_timestamp` when there
      is one, the parsed `timestamp` string otherwise. `None` stands for NaN. */
  function RawTimestamp(p: Payload): (ts: Option<int>)
    requires p.Object?
    ensures p.eventTimestamp.Some? ==> ts == p.eventTimestamp
    ensures p.eventTimestamp.None? ==> ts == p.parsedTimestamp
  {
    if p.eventTimestamp.Some? then p.eventTimestamp else p.parsedTimestamp
  }

  /** The timestamp a record is windowed by, or `None` when the record is
      skipped: it did not decode, or its timestamp is NaN or falsy. The only
      falsy number that is not NaN is 0, so a record stamped exactly at the
      epoch is skipped too. */
  function AcceptedTimestamp(p: Payload): (ts: Option<int>)
    ensures ts.Some? ==> ts.value != 0
  {
    match p
    case Undecodable => None
    case Object(_, _, _) =>
      var raw := RawTimestamp(p);
      if raw.None? || raw.value == 0 then None else raw
  }

  /** Whether `Number(obj.amount)` throws for this record. */
  predicate AmountThrows(p: Payload) {
    p.Object? && p.amount.Throws?
  }

  /** `Number(amount) || 0`, for an amount whose coercion does not throw: an
      amount that is not a number counts as 0. */
  function CoercedAmount(p: Payload): (x: real)
    ensures p.Object? && p.amount.Number? ==> x == p.amount.value
    ensures x != 0.0 ==> p.Object? && p.amount == Number(x)
  {
    if p.Object? && p.amount.Number? then p.amount.value else 0.0
  }

  /** A numeric `event_timestamp` takes precedence: the `timestamp` string is
      not consulted at all, whatever it holds, and the record is windowed by
      that number itself unless it is 0. */
  lemma EventTimestampPrecedence(p: Payload, other: Option<int>)
    requires p.Object? && p.eventTimestamp.Some?
    ensures AcceptedTimestamp(p) == AcceptedTimestamp(p.(parsedTimestamp := other))
    ensures AcceptedTimestamp(p) == if p.eventTimestamp.value == 0 then None else p.eventTimestamp
  {
  }

  /** Without a numeric `event_timestamp`, the outcome depends on the parsed
      `timestamp` alone: two such records that parse to the same value are
      treated alike, and the parsed value is used unless it is NaN or 0. */
  lemma ParsedTimestampFallback(p: Payload, q: Payload)
    requires p.Object? && p.eventTimestamp.None?
    requires q.Object? && q.eventTimestamp.None? && q.parsedTimestamp == p.parsedTimestamp
    ensures AcceptedTimestamp(p) == AcceptedTimestamp(q)
    ensures AcceptedTimestamp(p) == if p.parsedTimestamp == Some(0) then None else p.parsedTimestamp
  {
  }

  /** A record is skipped exactly when it does not decode or its resolved
      timestamp is NaN or 0; its amount plays no part in that. */
  lemma RejectedIff(p: Payload, other: Amount)
    ensures AcceptedTimestamp(p).None?
        <==> p.Undecodable? || RawTimestamp(p) == None || RawTimestamp(p) == Some(0)
    ensures p.Object? ==> AcceptedTimestamp(p) == AcceptedTimestamp(p.(amount := other))
  {
  }
}
