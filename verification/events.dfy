/**
 Events whose attributes may be base64 text: the eIBC mappers (dymension/utils.go) and
 `AttributeValue` (cosmos/events.go).
*/
module Events {
  import opened Outcomes
  import opened Bytes
  import opened Base64
  import BlockStore

  type Attribute = BlockStore.Attribute
  type Event = BlockStore.Event

  function EncodeAttribute(a: Attribute): Attribute {
    BlockStore.Attribute(Encode(a.key), Encode(a.value))
  }

  function EncodeAttributes(attrs: seq<Attribute>): (r: seq<Attribute>)
    ensures |r| == |attrs|
  {
    seq(|attrs|, i requires 0 <= i < |attrs| => EncodeAttribute(attrs[i]))
  }

  /** The event as a node that encodes keys and values would emit it. */
  function EncodeEvent(e: Event): Event {
    BlockStore.Event(e.kind, EncodeAttributes(e.attributes))
  }

  /* ---------- eIBC events ---------- */

  datatype EibcEvent = EibcEvent(
    orderId: Text,
    price: Text,
    fee: Text,
    isFulfilled: bool,
    packetStatus: Text,
    packetKey: Text,
    rollAppId: Text,
    recipient: Text,
    newPacketStatus: int)

  const ZERO_EVENT: EibcEvent := EibcEvent([], [], [], false, [], [], [], [], 0)

  datatype MapError = NoAttributes | KeyNotBase64 | ValueNotBase64 | NotABoolean

  /** strconv.ParseBool */
  function ParseBool(t: Text): Option<bool> {
    if t in {Ascii("1"), Ascii("t"), Ascii("T"), Ascii("true"), Ascii("TRUE"), Ascii("True")} then Some(true)
    else if t in {Ascii("0"), Ascii("f"), Ascii("F"), Ascii("false"), Ascii("FALSE"), Ascii("False")} then Some(false)
    else None
  }

  /** The Status_value table; a missing name reads as zero. */
  function StatusValue(t: Text): int {
    if t == Ascii("FINALIZED") then 1 else if t == Ascii("REVERTED") then 3 else 0
  }

  /** One turn of the switch: a recognised key sets its field (`recipient` sets RollAppId), any
      other key is skipped. */
  function Assign(e: EibcEvent, key: Text, value: Text): Result<EibcEvent, MapError> {
    if key == Ascii("order_id") then Ok(e.(orderId := value))
    else if key == Ascii("price") then Ok(e.(price := value))
    else if key == Ascii("fee") then Ok(e.(fee := value))
    else if key == Ascii("is_fulfilled") then
      (match ParseBool(value) case Some(b) => Ok(e.(isFulfilled := b)) case None => Err(NotABoolean))
    else if key == Ascii("packet_status") then Ok(e.(packetStatus := value))
    else if key == Ascii("packet_key") then Ok(e.(packetKey := value))
    else if key == Ascii("rollapp_id") then Ok(e.(rollAppId := value))
    else if key == Ascii("recipient") then Ok(e.(rollAppId := value))
    else if key == Ascii("new_packet_status") then Ok(e.(newPacketStatus := StatusValue(value)))
    else Ok(e)
  }

  /** Reading attributes left to right, as they are. */
  function PlainReading(attrs: seq<Attribute>): Result<EibcEvent, MapError> {
    if attrs == [] then Ok(ZERO_EVENT)
    else
      var last := attrs[|attrs| - 1];
      match PlainReading(attrs[..|attrs| - 1])
      case Err(e) => Err(e)
      case Ok(e) => Assign(e, last.key, last.value)
  }

  /** Reading attributes left to right after decoding each key and value. */
  function DecodedReading(attrs: seq<Attribute>): Result<EibcEvent, MapError> {
    if attrs == [] then Ok(ZERO_EVENT)
    else
      var last := attrs[|attrs| - 1];
      match DecodedReading(attrs[..|attrs| - 1])
      case Err(e) => Err(e)
      case Ok(e) =>
        if !Valid(last.key) then Err(KeyNotBase64)
        else if !Valid(last.value) then Err(ValueNotBase64)
        else Assign(e, Decode(last.key).value, Decode(last.value).value)
  }

  lemma {:induction false} PlainFailsOnwards(attrs: seq<Attribute>, i: nat)
    requires i <= |attrs| && PlainReading(attrs[..i]).Err?
    ensures PlainReading(attrs) == PlainReading(attrs[..i])
  {
    if i < |attrs| {
      assert attrs[..|attrs| - 1][..i] == attrs[..i];
      PlainFailsOnwards(attrs[..|attrs| - 1], i);
    } else {
      assert attrs[..i] == attrs;
    }
  }

  lemma {:induction false} DecodedFailsOnwards(attrs: seq<Attribute>, i: nat)
    requires i <= |attrs| && DecodedReading(attrs[..i]).Err?
    ensures DecodedReading(attrs) == DecodedReading(attrs[..i])
  {
    if i < |attrs| {
      assert attrs[..|attrs| - 1][..i] == attrs[..i];
      DecodedFailsOnwards(attrs[..|attrs| - 1], i);
    } else {
      assert attrs[..i] == attrs;
    }
  }

  method MapToEibcEventPlainStr(event: Event) returns (r: Result<EibcEvent, MapError>)
    ensures r == PlainReading(event.attributes)
    ensures r.Err? <==> BadBoolean(event.attributes)
    ensures r.Ok? ==> FilledFrom(r.value, event.attributes)
  {
    PlainReadingFills(event.attributes);
    var attrs := event.attributes;
    r := Ok(ZERO_EVENT);
    for i := 0 to |attrs|
      invariant r.Ok? && r == PlainReading(attrs[..i])
    {
      assert attrs[..i + 1][..i] == attrs[..i];
      r := Assign(r.value, attrs[i].key, attrs[i].value);
      if r.Err? {
        PlainFailsOnwards(attrs, i + 1);
        return;
      }
    }
    assert attrs[..|attrs|] == attrs;
  }

  method MapToEibcEventBase64(event: Event) returns (r: Result<EibcEvent, MapError>)
    ensures r == DecodedReading(event.attributes)
    ensures r.Err? <==> !AllBase64(event.attributes) || BadBoolean(DecodedAttributes(event.attributes))
    ensures r.Ok? ==> FilledFrom(r.value, DecodedAttributes(event.attributes))
  {
    DecodedReadingFills(event.attributes);
    var attrs := event.attributes;
    r := Ok(ZERO_EVENT);
    for i := 0 to |attrs|
      invariant r.Ok? && r == DecodedReading(attrs[..i])
    {
      assert attrs[..i + 1][..i] == attrs[..i];
      var key, value := Decode(attrs[i].key), Decode(attrs[i].value);
      if key.None? {
        r := Err(KeyNotBase64);
      } else if value.None? {
        r := Err(ValueNotBase64);
      } else {
        r := Assign(r.value, key.value, value.value);
      }
      if r.Err? {
        DecodedFailsOnwards(attrs, i + 1);
        return;
      }
    }
    assert attrs[..|attrs|] == attrs;
  }

  /* ---------- what the record holds ---------- */

  /** The last attribute with one of the keys, -1 if there is none. */
  function LastWith(attrs: seq<Attribute>, keys: set<Text>): (i: int)
    ensures -1 <= i < |attrs| && (i >= 0 ==> attrs[i].key in keys)
    ensures forall j :: i < j < |attrs| ==> attrs[j].key !in keys
  {
    if attrs == [] then -1
    else if attrs[|attrs| - 1].key in keys then |attrs| - 1
    else LastWith(attrs[..|attrs| - 1], keys)
  }

  /** The value of the last attribute with one of the keys, empty if there is none. */
  function LastValue(attrs: seq<Attribute>, keys: set<Text>): Text {
    if LastWith(attrs, keys) < 0 then [] else attrs[LastWith(attrs, keys)].value
  }

  const TRUE_TEXTS: set<Text> := {Ascii("1"), Ascii("t"), Ascii("T"), Ascii("true"), Ascii("TRUE"), Ascii("True")}
  const FALSE_TEXTS: set<Text> := {Ascii("0"), Ascii("f"), Ascii("F"), Ascii("false"), Ascii("FALSE"), Ascii("False")}

  /** Field by field: which attributes a record was filled from. */
  ghost predicate FilledFrom(e: EibcEvent, attrs: seq<Attribute>) {
    && e.orderId == LastValue(attrs, {Ascii("order_id")})
    && e.price == LastValue(attrs, {Ascii("price")})
    && e.fee == LastValue(attrs, {Ascii("fee")})
    && e.isFulfilled == (LastValue(attrs, {Ascii("is_fulfilled")}) in TRUE_TEXTS)
    && e.packetStatus == LastValue(attrs, {Ascii("packet_status")})
    && e.packetKey == LastValue(attrs, {Ascii("packet_key")})
    && e.rollAppId == LastValue(attrs, {Ascii("rollapp_id"), Ascii("recipient")})
    && e.recipient == []
    && var status := LastValue(attrs, {Ascii("new_packet_status")});
       e.newPacketStatus == if status == Ascii("FINALIZED") then 1 else if status == Ascii("REVERTED") then 3 else 0
  }

  /** Some is_fulfilled value is neither a true nor a false text. */
  ghost predicate BadBoolean(attrs: seq<Attribute>) {
    exists i :: 0 <= i < |attrs| && attrs[i].key == Ascii("is_fulfilled")
                && attrs[i].value !in TRUE_TEXTS && attrs[i].value !in FALSE_TEXTS
  }

  lemma KeysDiffer()
    ensures Ascii("packet_key") != Ascii("rollapp_id")
  {
    assert Ascii("packet_key")[0] == 112 && Ascii("rollapp_id")[0] == 114;
  }

  /** One turn of the switch, field by field. */
  lemma AssignFields(e: EibcEvent, key: Text, value: Text)
    requires Assign(e, key, value).Ok?
    ensures var r := Assign(e, key, value).value;
      && r.orderId == (if key == Ascii("order_id") then value else e.orderId)
      && r.price == (if key == Ascii("price") then value else e.price)
      && r.fee == (if key == Ascii("fee") then value else e.fee)
      && r.isFulfilled == (if key == Ascii("is_fulfilled") then value in TRUE_TEXTS else e.isFulfilled)
      && r.packetStatus == (if key == Ascii("packet_status") then value else e.packetStatus)
      && r.packetKey == (if key == Ascii("packet_key") then value else e.packetKey)
      && r.rollAppId == (if key == Ascii("rollapp_id") || key == Ascii("recipient") then value else e.rollAppId)
      && r.recipient == e.recipient
      && r.newPacketStatus == (
           if key != Ascii("new_packet_status") then e.newPacketStatus
           else if value == Ascii("FINALIZED") then 1 else if value == Ascii("REVERTED") then 3 else 0)
  {
    KeysDiffer();
  }

  lemma AssignFails(e: EibcEvent, key: Text, value: Text)
    ensures Assign(e, key, value).Err? <==> key == Ascii("is_fulfilled") && value !in TRUE_TEXTS && value !in FALSE_TEXTS
    ensures Assign(e, key, value).Err? ==> Assign(e, key, value).error == NotABoolean
  {
  }

  lemma LastSnoc(attrs: seq<Attribute>, keys: set<Text>)
    requires attrs != []
    ensures LastValue(attrs, keys) ==
      if attrs[|attrs| - 1].key in keys then attrs[|attrs| - 1].value else LastValue(attrs[..|attrs| - 1], keys)
  {
  }

  lemma FilledByOne(e: EibcEvent, r: EibcEvent, attrs: seq<Attribute>)
    requires attrs != [] && FilledFrom(e, attrs[..|attrs| - 1])
    requires Assign(e, attrs[|attrs| - 1].key, attrs[|attrs| - 1].value) == Ok(r)
    ensures FilledFrom(r, attrs)
  {
    AssignFields(e, attrs[|attrs| - 1].key, attrs[|attrs| - 1].value);
    LastSnoc(attrs, {Ascii("order_id")});
    LastSnoc(attrs, {Ascii("price")});
    LastSnoc(attrs, {Ascii("fee")});
    LastSnoc(attrs, {Ascii("is_fulfilled")});
    LastSnoc(attrs, {Ascii("packet_status")});
    LastSnoc(attrs, {Ascii("packet_key")});
    LastSnoc(attrs, {Ascii("rollapp_id"), Ascii("recipient")});
    LastSnoc(attrs, {Ascii("new_packet_status")});
  }

  lemma NothingFilled()
    ensures FilledFrom(ZERO_EVENT, [])
  {
  }

  lemma BadBooleanSnoc(attrs: seq<Attribute>)
    requires attrs != []
    ensures var last := attrs[|attrs| - 1];
      BadBoolean(attrs) <==> (
        || BadBoolean(attrs[..|attrs| - 1])
        || (last.key == Ascii("is_fulfilled") && last.value !in TRUE_TEXTS && last.value !in FALSE_TEXTS))
  {
    var n := |attrs| - 1;
    if BadBoolean(attrs[..n]) {
      var i :| 0 <= i < n && attrs[..n][i].key == Ascii("is_fulfilled")
               && attrs[..n][i].value !in TRUE_TEXTS && attrs[..n][i].value !in FALSE_TEXTS;
      assert attrs[i] == attrs[..n][i];
    }
    if BadBoolean(attrs) {
      var i :| 0 <= i <= n && attrs[i].key == Ascii("is_fulfilled")
               && attrs[i].value !in TRUE_TEXTS && attrs[i].value !in FALSE_TEXTS;
      assert i < n ==> attrs[i] == attrs[..n][i];
    }
  }

  /** A plain reading fails exactly on a bad boolean; otherwise every field holds the value of the last
      attribute that fills it. */
  lemma {:induction false} PlainReadingFills(attrs: seq<Attribute>)
    ensures PlainReading(attrs).Err? <==> BadBoolean(attrs)
    ensures PlainReading(attrs).Err? ==> PlainReading(attrs).error == NotABoolean
    ensures PlainReading(attrs).Ok? ==> FilledFrom(PlainReading(attrs).value, attrs)
  {
    if attrs == [] {
      NothingFilled();
    } else {
      var n := |attrs| - 1;
      PlainReadingFills(attrs[..n]);
      BadBooleanSnoc(attrs);
      if PlainReading(attrs[..n]).Ok? {
        var e := PlainReading(attrs[..n]).value;
        AssignFails(e, attrs[n].key, attrs[n].value);
        if PlainReading(attrs).Ok? {
          FilledByOne(e, PlainReading(attrs).value, attrs);
        }
      }
    }
  }

  predicate AllBase64(attrs: seq<Attribute>) {
    forall a :: a in attrs ==> Valid(a.key) && Valid(a.value)
  }

  function DecodedAttributes(attrs: seq<Attribute>): (r: seq<Attribute>)
    requires AllBase64(attrs)
    ensures |r| == |attrs|
  {
    seq(|attrs|, i requires 0 <= i < |attrs| => BlockStore.Attribute(Decode(attrs[i].key).value, Decode(attrs[i].value).value))
  }

  lemma DecodedReadingFills(attrs: seq<Attribute>)
    ensures DecodedReading(attrs).Err? <==> !AllBase64(attrs) || BadBoolean(DecodedAttributes(attrs))
    ensures DecodedReading(attrs).Ok? ==> FilledFrom(DecodedReading(attrs).value, DecodedAttributes(attrs))
  {
    DecodedReadingIsPlain(attrs);
    if AllBase64(attrs) {
      PlainReadingFills(DecodedAttributes(attrs));
    }
  }

  /** Reading with decoding is reading the decoded attributes, up to the first that does not decode. */
  lemma {:induction false} DecodedReadingIsPlain(attrs: seq<Attribute>)
    ensures !AllBase64(attrs) ==> DecodedReading(attrs).Err?
    ensures AllBase64(attrs) ==> DecodedReading(attrs) == PlainReading(DecodedAttributes(attrs))
  {
    if attrs != [] {
      var n := |attrs| - 1;
      DecodedReadingIsPlain(attrs[..n]);
      assert attrs == attrs[..n] + [attrs[n]];
      if AllBase64(attrs) {
        assert attrs[n] in attrs && forall a :: a in attrs[..n] ==> a in attrs;
        assert DecodedAttributes(attrs)[..n] == DecodedAttributes(attrs[..n]);
      }
    }
  }

  /** What MapToEibcEvent answers. */
  function Mapped(event: Event): Result<EibcEvent, MapError> {
    if event.attributes == [] then Err(NoAttributes)
    else if Valid(event.attributes[0].key) then DecodedReading(event.attributes)
    else PlainReading(event.attributes)
  }

  /** The attributes as they are read: decoded when the first key is base64 text. None when that fails. */
  function ReadAttributes(event: Event): Option<seq<Attribute>> {
    var attrs := event.attributes;
    if attrs == [] || !Valid(attrs[0].key) then Some(attrs)
    else if AllBase64(attrs) then Some(DecodedAttributes(attrs))
    else None
  }

  method MapToEibcEvent(event: Event) returns (r: Result<EibcEvent, MapError>)
    ensures r == Mapped(event)
    ensures r.Err? <==> event.attributes == [] || ReadAttributes(event).None? || BadBoolean(ReadAttributes(event).value)
    ensures r.Ok? ==> FilledFrom(r.value, ReadAttributes(event).value)
  {
    if |event.attributes| == 0 {
      return Err(NoAttributes);
    }
    if Valid(event.attributes[0].key) {
      r := MapToEibcEventBase64(event);
    } else {
      r := MapToEibcEventPlainStr(event);
    }
  }

  /** Decoding the encoded attributes is reading the plain ones, whatever they hold. */
  lemma {:induction false} DecodedReadingOfEncoded(attrs: seq<Attribute>)
    ensures DecodedReading(EncodeAttributes(attrs)) == PlainReading(attrs)
  {
    if attrs != [] {
      var n := |attrs| - 1;
      assert EncodeAttributes(attrs)[..n] == EncodeAttributes(attrs[..n]);
      DecodedReadingOfEncoded(attrs[..n]);
      DecodeEncode(attrs[n].key);
      DecodeEncode(attrs[n].value);
    }
  }

  const RECOGNISED_KEYS: seq<string> :=
    ["order_id", "price", "fee", "is_fulfilled", "packet_status", "packet_key", "rollapp_id", "recipient", "new_packet_status"]

  /** An encoded event maps to the plain reading of the event it encodes, for every event. */
  lemma EncodedIsReadPlainly(event: Event)
    requires event.attributes != []
    ensures Mapped(EncodeEvent(event)) == PlainReading(event.attributes)
  {
    DecodeEncode(event.attributes[0].key);
    DecodedReadingOfEncoded(event.attributes);
  }

  /** Plain keys are recognised as such exactly by not being base64 text; then both forms of
      the event map to the same record or fail alike. */
  lemma EncodingIsTransparent(event: Event)
    requires event.attributes != [] ==> !Valid(event.attributes[0].key)
    ensures Mapped(EncodeEvent(event)) == Mapped(event)
  {
    if event.attributes != [] {
      EncodedIsReadPlainly(event);
    }
  }

  /** A key with a character outside the alphabet, or of odd length, is not base64 text. */
  lemma PlainKeyInvalid(key: Text, i: nat)
    requires forall j :: 0 <= j < |key| ==> key[j] != LF && key[j] != CR
    requires |key| % 4 != 0 || (i < |key| && Sextet(key[i]).None? && key[i] != PAD)
    ensures !Valid(key)
  {
    StripNothing(key);
    if |key| % 4 != 0 {
      BadLengthInvalid(key);
    } else {
      BadCharacterInvalid(key, i);
    }
  }

  lemma UnderscoreInvalid(name: string, i: nat)
    requires i < |name| && name[i] == '_'
    ensures !Valid(Ascii(name))
  {
    ForeignCharacterInvalid(Ascii(name), i);
  }

  lemma RecognisedKeyInvalid(name: string)
    requires name in RECOGNISED_KEYS
    ensures !Valid(Ascii(name))
  {
    if name == "order_id" {
      UnderscoreInvalid(name, 5);
    } else if name == "is_fulfilled" {
      UnderscoreInvalid(name, 2);
    } else {
      PlainKeyInvalid(Ascii(name), 0);
    }
  }

  /** The nine names the mappers know never look like base64 text, so an event that starts
      with one of them maps alike in both forms. */
  lemma RecognisedEventsMapAlike(event: Event, name: string)
    requires event.attributes != [] && name in RECOGNISED_KEYS
    requires event.attributes[0].key == Ascii(name)
    ensures Mapped(EncodeEvent(event)) == Mapped(event)
  {
    RecognisedKeyInvalid(name);
    EncodingIsTransparent(event);
  }

  ghost predicate MapsAlike(event: Event) {
    Mapped(EncodeEvent(event)) == Mapped(event)
  }

  ghost predicate StartsWith(event: Event, key: Text) {
    event.attributes != [] && event.attributes[0].key == key
  }

  lemma OneUndecodable(a: Attribute)
    requires Valid(a.key) && !Valid(a.value)
    ensures DecodedReading([a]) == Err(ValueNotBase64)
  {
    assert [a][..0] == [];
  }

  /** The guess from the first key goes wrong for every key that is base64 text: with a value that is
      not, the plain event is refused although its encoded form is not. */
  lemma GuessGoesWrong(kind: Text, key: Text)
    requires Valid(key)
    ensures !MapsAlike(BlockStore.Event(kind, [BlockStore.Attribute(key, Ascii("hi"))]))
  {
    var a := BlockStore.Attribute(key, Ascii("hi"));
    var event := BlockStore.Event(kind, [a]);
    PlainKeyInvalid(Ascii("hi"), 0);
    EncodedIsReadPlainly(event);
    OneUndecodable(a);
    PlainReadingFills([a]);
  }

  /** For every key: all events that start with it map alike in both forms if and only if it is not
      itself base64 text. */
  lemma KeyIsTransparentExactly(key: Text)
    ensures (forall event :: StartsWith(event, key) ==> MapsAlike(event)) <==> !Valid(key)
  {
    if Valid(key) {
      GuessGoesWrong([], key);
      assert StartsWith(BlockStore.Event([], [BlockStore.Attribute(key, Ascii("hi"))]), key);
    } else {
      forall event | StartsWith(event, key) ensures MapsAlike(event) {
        EncodingIsTransparent(event);
      }
    }
  }

  /* ---------- AttributeValue ---------- */

  /** What one attribute answers for `key`: its value, or nothing. */
  function Answer(a: Attribute, key: Text): Option<Text> {
    if a.key == key then Some(a.value)
    else if Decode(a.key) == Some(key) then Decode(a.value)
    else None
  }

  function FirstAnswer(attrs: seq<Attribute>, key: Text): Option<Text> {
    if attrs == [] then None
    else if Answer(attrs[0], key).Some? then Answer(attrs[0], key)
    else FirstAnswer(attrs[1..], key)
  }

  function FirstValue(events: seq<Event>, kind: Text, key: Text): Option<Text> {
    if events == [] then None
    else if events[0].kind == kind && FirstAnswer(events[0].attributes, key).Some? then
      FirstAnswer(events[0].attributes, key)
    else FirstValue(events[1..], kind, key)
  }

  method AttributeValue(events: seq<Event>, eventType: Text, attrKey: Text) returns (value: Text, found: bool)
    ensures found <==> FirstValue(events, eventType, attrKey).Some?
    ensures value == if found then FirstValue(events, eventType, attrKey).value else []
  {
    for i := 0 to |events|
      invariant FirstValue(events, eventType, attrKey) == FirstValue(events[i..], eventType, attrKey)
    {
      assert events[i..][1..] == events[i + 1..];
      if events[i].kind != eventType {
        continue;
      }
      var attrs := events[i].attributes;
      for j := 0 to |attrs|
        invariant FirstAnswer(attrs, attrKey) == FirstAnswer(attrs[j..], attrKey)
      {
        assert attrs[j..][1..] == attrs[j + 1..];
        if attrs[j].key == attrKey {
          return attrs[j].value, true;
        }
        var key := Decode(attrs[j].key);
        if key.None? {
          continue;
        }
        if key.value == attrKey {
          var v := Decode(attrs[j].value);
          if v.None? {
            continue;
          }
          return v.value, true;
        }
      }
    }
    value, found := [], false;
  }

  /** The plain lookup: the value of the first attribute with exactly this key. */
  function FirstMatch(attrs: seq<Attribute>, key: Text): Option<Text> {
    if attrs == [] then None
    else if attrs[0].key == key then Some(attrs[0].value)
    else FirstMatch(attrs[1..], key)
  }

  function PlainLookup(events: seq<Event>, kind: Text, key: Text): Option<Text> {
    if events == [] then None
    else if events[0].kind == kind && FirstMatch(events[0].attributes, key).Some? then
      FirstMatch(events[0].attributes, key)
    else PlainLookup(events[1..], kind, key)
  }

  function EncodeEvents(events: seq<Event>): (r: seq<Event>)
    ensures |r| == |events|
  {
    seq(|events|, i requires 0 <= i < |events| => EncodeEvent(events[i]))
  }

  lemma {:induction false} EncodedFirstAnswer(attrs: seq<Attribute>, key: Text)
    requires !Valid(key)
    ensures FirstAnswer(EncodeAttributes(attrs), key) == FirstMatch(attrs, key)
  {
    if attrs != [] {
      assert EncodeAttributes(attrs)[1..] == EncodeAttributes(attrs[1..]);
      EncodedFirstAnswer(attrs[1..], key);
      DecodeEncode(attrs[0].key);
      DecodeEncode(attrs[0].value);
    }
  }

  /** On encoded events the lookup is the plain lookup, unless the sought key is itself base64 text. */
  lemma {:induction false} EncodedLookup(events: seq<Event>, kind: Text, key: Text)
    requires !Valid(key)
    ensures FirstValue(EncodeEvents(events), kind, key) == PlainLookup(events, kind, key)
  {
    if events != [] {
      assert EncodeEvents(events)[1..] == EncodeEvents(events[1..]);
      EncodedLookup(events[1..], kind, key);
      EncodedFirstAnswer(events[0].attributes, key);
    }
  }

  predicate NoDisguise(attrs: seq<Attribute>, key: Text) {
    forall a :: a in attrs ==> Decode(a.key) != Some(key)
  }

  lemma {:induction false} PlainFirstAnswer(attrs: seq<Attribute>, key: Text)
    requires NoDisguise(attrs, key)
    ensures FirstAnswer(attrs, key) == FirstMatch(attrs, key)
  {
    if attrs != [] {
      assert NoDisguise(attrs[1..], key);
      PlainFirstAnswer(attrs[1..], key);
    }
  }

  /** On plain events the lookup is the plain lookup, unless some plain key happens to decode
      to the sought one. */
  lemma {:induction false} PlainEventsLookup(events: seq<Event>, kind: Text, key: Text)
    requires forall e :: e in events && e.kind == kind ==> NoDisguise(e.attributes, key)
    ensures FirstValue(events, kind, key) == PlainLookup(events, kind, key)
  {
    if events != [] {
      PlainEventsLookup(events[1..], kind, key);
      if events[0].kind == kind {
        PlainFirstAnswer(events[0].attributes, key);
      }
    }
  }

  /** `AttributeValue` gives one answer for both encodings of the same events. */
  lemma LookupIgnoresEncoding(events: seq<Event>, kind: Text, key: Text)
    requires !Valid(key)
    requires forall e :: e in events && e.kind == kind ==> NoDisguise(e.attributes, key)
    ensures FirstValue(EncodeEvents(events), kind, key) == FirstValue(events, kind, key)
  {
    EncodedLookup(events, kind, key);
    PlainEventsLookup(events, kind, key);
  }

  /** The attributes that a lookup goes through, in order. */
  function Considered(events: seq<Event>, kind: Text): seq<Attribute> {
    if events == [] then []
    else (if events[0].kind == kind then events[0].attributes else []) + Considered(events[1..], kind)
  }

  lemma {:induction false} FirstAnswerSplit(a: seq<Attribute>, b: seq<Attribute>, key: Text)
    ensures FirstAnswer(a + b, key) == if FirstAnswer(a, key).Some? then FirstAnswer(a, key) else FirstAnswer(b, key)
    ensures FirstMatch(a + b, key) == if FirstMatch(a, key).Some? then FirstMatch(a, key) else FirstMatch(b, key)
  {
    if a == [] {
      assert a + b == b;
    } else {
      assert (a + b)[1..] == a[1..] + b;
      FirstAnswerSplit(a[1..], b, key);
    }
  }

  lemma {:induction false} LookupConsiders(events: seq<Event>, kind: Text, key: Text)
    ensures FirstValue(events, kind, key) == FirstAnswer(Considered(events, kind), key)
    ensures PlainLookup(events, kind, key) == FirstMatch(Considered(events, kind), key)
  {
    if events != [] {
      LookupConsiders(events[1..], kind, key);
      FirstAnswerSplit(if events[0].kind == kind then events[0].attributes else [], Considered(events[1..], kind), key);
    }
  }

  /** The position of the first attribute with exactly this key, the length if there is none. */
  function FirstLiteral(attrs: seq<Attribute>, key: Text): (n: nat)
    ensures n <= |attrs|
  {
    if attrs == [] || attrs[0].key == key then 0 else 1 + FirstLiteral(attrs[1..], key)
  }

  /** The key is not the sought one but decodes to it, and the value decodes too. */
  predicate Disguise(a: Attribute, key: Text) {
    a.key != key && Decode(a.key) == Some(key) && Valid(a.value)
  }

  function FirstDisguise(attrs: seq<Attribute>, key: Text): (n: nat)
    ensures n <= |attrs|
    ensures n < |attrs| ==> Disguise(attrs[n], key)
  {
    if attrs == [] || Disguise(attrs[0], key) then 0 else 1 + FirstDisguise(attrs[1..], key)
  }

  /** No disguise comes before the first literal match, or the first one has the same value. */
  predicate Undisguised(attrs: seq<Attribute>, key: Text) {
    var d, n := FirstDisguise(attrs, key), FirstLiteral(attrs, key);
    d >= n || (n < |attrs| && Decode(attrs[d].value) == Some(attrs[n].value))
  }

  lemma {:induction false} MatchIsLiteral(attrs: seq<Attribute>, key: Text)
    ensures var n := FirstLiteral(attrs, key);
      FirstMatch(attrs, key) == if n < |attrs| then Some(attrs[n].value) else None
  {
    if attrs != [] && attrs[0].key != key {
      MatchIsLiteral(attrs[1..], key);
    }
  }

  lemma {:induction false} AnswerIsPlainExactly(attrs: seq<Attribute>, key: Text)
    ensures FirstAnswer(attrs, key) == FirstMatch(attrs, key) <==> Undisguised(attrs, key)
  {
    if attrs != [] {
      MatchIsLiteral(attrs, key);
      if attrs[0].key != key && !Disguise(attrs[0], key) {
        AnswerIsPlainExactly(attrs[1..], key);
      }
    }
  }

  /** For keys that are not base64 text, `AttributeValue` gives one answer for both encodings if and
      only if the events are undisguised. */
  lemma LookupIgnoresEncodingExactly(events: seq<Event>, kind: Text, key: Text)
    requires !Valid(key)
    ensures FirstValue(EncodeEvents(events), kind, key) == FirstValue(events, kind, key)
            <==> Undisguised(Considered(events, kind), key)
  {
    EncodedLookup(events, kind, key);
    LookupConsiders(events, kind, key);
    AnswerIsPlainExactly(Considered(events, kind), key);
  }

  /** Every key the repository looks up meets the first condition. */
  const SOUGHT_KEYS: seq<string> :=
    ["packet_sequence", "packet_src_port", "packet_src_channel", "packet_dst_port", "packet_dst_channel",
     "packet_timeout_height", "packet_timeout_timestamp", "packet_data", "amount", "proposal_id", "proposal_type"]

  lemma SoughtKeyInvalid(name: string)
    requires name in SOUGHT_KEYS
    ensures !Valid(Ascii(name))
  {
    if name == "amount" {
      PlainKeyInvalid(Ascii(name), 0);
    } else {
      UnderscoreInvalid(name, if name[6] == '_' then 6 else 8);
    }
  }

  /** The second condition matters: a plain key that decodes to the sought one is answered for. */
  lemma DisguisedKeyIsAnswered(kind: Text, key: Text, value: Text)
    requires key != []
    ensures var disguised := [BlockStore.Event(kind, [BlockStore.Attribute(Encode(key), Encode(value))])];
      PlainLookup(disguised, kind, key) == None && FirstValue(disguised, kind, key) == Some(value)
  {
    EncodeGrows(key);
    DecodeEncode(key);
    DecodeEncode(value);
    var a := BlockStore.Attribute(Encode(key), Encode(value));
    assert FirstAnswer([a], key) == Some(value);
    assert FirstMatch([a][1..], key) == None;
    assert FirstMatch([a], key) == None;
  }
}
