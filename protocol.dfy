/**
 * Wire-level vocabulary of the phone-to-watch route protocol: the protocol
 * limits, the messages the phone sends, the status-code packing of the
 * SUCCESS field, step-text truncation and the split of the inbound SEARCH
 * string into a route type and an address.
 */
module Protocol {

  /** At most this many step strings are transferred for one route. */
  const MaxStepCount: nat := 40
  /** Each step string is cut to at most this many characters. */
  const MaxStepStringLength: nat := 128
  /** The SUCCESS field carries `code + messageNumber * MessagePadding`. */
  const MessagePadding: nat := 10

  const SuccessCode: nat := 0
  const RouteNotFoundCode: nat := 1
  const TooManyStepsCode: nat := 2

  /** A geographic waypoint of a route, kept for live tracking only. */
  datatype Waypoint = Waypoint(latitude: int, longitude: int)

  /** One outbound app message, by the field it fills. */
  datatype Message =
    | Overview(distance: int, time: int, icons: string)  // DISTANCE, TIME, INSTRUCTION_ICONS
    | StepItem(text: string)                              // INSTRUCTION_LIST
    | Status(value: int)                                  // SUCCESS
    | Current(step: int)                                  // CURRENT

  /** The inbound SEARCH field, split into its one-character type and the address. */
  datatype Search = Search(routeType: string, address: string)

  function Min(a: int, b: int): (m: int) { if a <= b then a else b }

  /**
   * The SUCCESS value for a status code and a request number. As long as the
   * code is below the padding, the watch recovers both halves with `%` and `/`.
   */
  function EncodeStatus(code: nat, messageNumber: nat): (v: nat)
    ensures code < MessagePadding ==> v % MessagePadding == code && v / MessagePadding == messageNumber
    ensures v >= messageNumber * MessagePadding
  {
    code + messageNumber * MessagePadding
  }

  /** What the watch does with a SUCCESS value: the status code and the request number. */
  function DecodeStatus(v: nat): (r: (nat, nat))
    ensures r.0 < MessagePadding
    ensures r.0 + r.1 * MessagePadding == v
  {
    (v % MessagePadding, v / MessagePadding)
  }

  /** Decoding undoes encoding for every code below the padding. */
  lemma StatusRoundTrip(code: nat, messageNumber: nat)
    requires code < MessagePadding
    ensures DecodeStatus(EncodeStatus(code, messageNumber)) == (code, messageNumber)
  {
  }

  /** Encoding undoes decoding: every SUCCESS value is the encoding of exactly one pair. */
  lemma StatusDecodeEncode(v: nat)
    ensures EncodeStatus(DecodeStatus(v).0, DecodeStatus(v).1) == v
  {
  }

  /** Two requests' status values never collide while the codes stay below the padding. */
  lemma StatusEncodingInjective(c1: nat, n1: nat, c2: nat, n2: nat)
    requires c1 < MessagePadding && c2 < MessagePadding
    requires EncodeStatus(c1, n1) == EncodeStatus(c2, n2)
    ensures c1 == c2 && n1 == n2
  {
    StatusRoundTrip(c1, n1);
    StatusRoundTrip(c2, n2);
  }

  /** A later request always gets a larger status value, whatever the two codes. */
  lemma StatusOrderFollowsRequests(c1: nat, n1: nat, c2: nat, n2: nat)
    requires c1 < MessagePadding && c2 < MessagePadding
    requires n1 < n2
    ensures EncodeStatus(c1, n1) < EncodeStatus(c2, n2)
  {
  }

  /** A code that reaches the padding is indistinguishable from the next request's code 0. */
  lemma StatusPaddingTooSmallCollides(messageNumber: nat)
    ensures EncodeStatus(MessagePadding, messageNumber) == EncodeStatus(SuccessCode, messageNumber + 1)
  {
  }

  /** The payload sent for one step: the step string cut to the per-item limit. */
  function TruncateStep(s: string): (r: string)
    ensures r <= s
    ensures |r| == Min(|s|, MaxStepStringLength)
    ensures |s| <= MaxStepStringLength ==> r == s
  {
    if |s| <= MaxStepStringLength then s else s[..MaxStepStringLength]
  }

  /** Truncating twice is truncating once. */
  lemma TruncateStepIdempotent(s: string)
    ensures TruncateStep(TruncateStep(s)) == TruncateStep(s)
  {
  }

  /**
   * The SEARCH string split as `substr(0, 1)` and `substr(1)` split it: the
   * first character (none for an empty string) and the rest.
   */
  function ParseSearch(s: string): (q: Search)
    ensures q.routeType + q.address == s
    ensures |q.routeType| == Min(|s|, 1)
  {
    if s == [] then Search([], []) else Search(s[..1], s[1..])
  }

  /** The example of the header comment: "0Brockhofweg 9" is a car route to "Brockhofweg 9". */
  lemma ParseSearchExample()
    ensures ParseSearch("0Brockhofweg 9") == Search("0", "Brockhofweg 9")
  {
    assert "0Brockhofweg 9"[..1] == "0";
    assert "0Brockhofweg 9"[1..] == "Brockhofweg 9";
  }
}
