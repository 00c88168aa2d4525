/** The DXL message, what parsing and encoding one mean as functions, and the
    laws between the two. */
module DxlMessage {
  import opened Prelude
  import opened MsgPack
  import KeyOrder

  const REQUEST: byte := 0
  const RESPONSE: byte := 1
  const EVENT: byte := 2
  const ERROR: byte := 3

  datatype Message = Message(
    version: byte,
    messageType: byte,
    messageId: string,
    sourceClientId: string,
    sourceBrokerId: string,
    brokerIds: seq<string>,
    clientIds: seq<string>,
    payload: Bytes,
    replyToTopic: Option<string>,
    serviceId: Option<string>,
    requestMessageId: Option<string>,
    errorCode: Option<i32>,
    errorMessage: Option<string>,
    otherFields: map<string, string>,
    sourceTenantGuid: Option<string>,
    destinationTenantGuids: seq<string>,
    sourceClientInstanceId: Option<string>
  )

  // Error codes

  const I32_MIN := -0x8000_0000
  const I64_MIN := -0x8000_0000_0000_0000
  const I64_MAX := 0x7FFF_FFFF_FFFF_FFFF

  /** The cast of a raw code to 32 unsigned bits and from there to 32 signed bits. */
  function ToI32(raw: int): i32 {
    var low := raw % TWO_32;
    if low < 0x8000_0000 then low else low - TWO_32
  }

  function ReadErrorCode(s: Bytes, p: nat): (r: Parsed<i32>)
    ensures r.Done? ==> p < r.next <= |s|
  {
    var (raw, q) :- ReadInt(s, p, I64_MIN, I64_MAX);
    if I32_MIN <= raw < TWO_32 then Done(ToI32(raw), q) else Fail(ErrorCodeOutOfRange)
  }

  // Fields. After the version and the message type, a message is a list of
  // fields whose kinds those two numbers fix.

  datatype Kind = Text | Texts | Blob | Code | Unknown

  datatype Field =
    | TextField(text: string)
    | TextsField(texts: seq<string>)
    | BlobField(blob: Bytes)
    | CodeField(code: i32)

  function ReadField(s: Bytes, p: nat, kind: Kind): (r: Parsed<Field>)
    ensures r.Done? ==> p < r.next <= |s| && Fits(r.value, kind)
  {
    match kind
    case Text => var (v, q) :- ReadString(s, p); Done(TextField(v), q)
    case Texts => var (v, q) :- ReadStringArray(s, p); Done(TextsField(v), q)
    case Blob => var (v, q) :- ReadStrOrBin(s, p); Done(BlobField(v), q)
    case Code => var (v, q) :- ReadErrorCode(s, p); Done(CodeField(v), q)
    case Unknown => Fail(UnknownMessageType)
  }

  function WriteField(f: Field): Bytes {
    match f
    case TextField(v) => WriteString(v)
    case TextsField(v) => WriteStringArray(v)
    case BlobField(v) => WriteBytes(v)
    case CodeField(v) => WriteSint(v)
  }

  predicate Fits(f: Field, kind: Kind) {
    match kind
    case Text => f.TextField?
    case Texts => f.TextsField?
    case Blob => f.BlobField?
    case Code => f.CodeField?
    case Unknown => false
  }

  predicate AllFit(fs: seq<Field>, kinds: seq<Kind>) {
    |fs| == |kinds| && forall i :: 0 <= i < |fs| ==> Fits(fs[i], kinds[i])
  }

  ghost predicate ShortField(f: Field) {
    match f
    case TextField(v) => ShortString(v)
    case TextsField(v) => ShortArray(v)
    case BlobField(v) => |v| < TWO_32
    case CodeField(_) => true
  }

  ghost predicate AllShort(fs: seq<Field>) {
    forall i :: 0 <= i < |fs| ==> ShortField(fs[i])
  }

  function ReadFields(s: Bytes, p: nat, kinds: seq<Kind>): (r: Parsed<seq<Field>>)
    ensures r.Done? ==> p <= r.next && (p <= |s| ==> r.next <= |s|) && AllFit(r.value, kinds)
    decreases |kinds|
  {
    if kinds == [] then Done([], p)
    else
      var (f, q) :- ReadField(s, p, kinds[0]);
      var (fs, e) :- ReadFields(s, q, kinds[1..]);
      Done([f] + fs, e)
  }

  function WriteFields(fs: seq<Field>): Bytes {
    if fs == [] then [] else WriteField(fs[0]) + WriteFields(fs[1..])
  }

  const ENVELOPE := [Text, Text, Text, Texts, Texts, Blob]

  function TypedKinds(messageType: byte): seq<Kind> {
    if messageType == REQUEST || messageType == RESPONSE then [Text, Text]
    else if messageType == ERROR then [Text, Text, Code, Text]
    else if messageType == EVENT then []
    else [Unknown]
  }

  function VersionedKinds(version: byte): seq<Kind> {
    if version == 0 then []
    else if version == 1 then [Texts]
    else if version == 2 then [Texts, Text, Texts]
    else [Texts, Text, Texts, Text]
  }

  /** Keys and values taken in turn; a later pair replaces an earlier one with
      the same key, and a last key without a value is dropped. */
  function PairUp(xs: seq<string>): map<string, string> { Pairs(xs, |xs| / 2) }

  /** The map of the first `n` pairs. */
  function Pairs(xs: seq<string>, n: nat): map<string, string>
    requires 2 * n <= |xs|
  {
    if n == 0 then map[] else Pairs(xs, n - 1)[xs[2 * n - 2] := xs[2 * n - 1]]
  }

  /** The part of a message that every type and version has. */
  datatype Envelope = Envelope(
    messageId: string, sourceClientId: string, sourceBrokerId: string,
    brokerIds: seq<string>, clientIds: seq<string>, payload: Bytes
  )

  /** The part that depends on the message type. */
  datatype Typed = Typed(
    replyToTopic: Option<string>, serviceId: Option<string>, requestMessageId: Option<string>,
    errorCode: Option<i32>, errorMessage: Option<string>
  )

  /** The part that depends on the version. */
  datatype Versioned = Versioned(
    otherFields: map<string, string>, sourceTenantGuid: Option<string>,
    destinationTenantGuids: seq<string>, sourceClientInstanceId: Option<string>
  )

  function EnvelopeFrom(fs: seq<Field>): Envelope
    requires AllFit(fs, ENVELOPE)
  {
    Envelope(fs[0].text, fs[1].text, fs[2].text, fs[3].texts, fs[4].texts, fs[5].blob)
  }

  function TypedFrom(messageType: byte, fs: seq<Field>): Typed
    requires AllFit(fs, TypedKinds(messageType))
  {
    Typed(
      if messageType == REQUEST then Some(fs[0].text) else None,
      if messageType in {REQUEST, RESPONSE, ERROR} then Some(fs[1].text) else None,
      if messageType in {RESPONSE, ERROR} then Some(fs[0].text) else None,
      if messageType == ERROR then Some(fs[2].code) else None,
      if messageType == ERROR then Some(fs[3].text) else None
    )
  }

  function VersionedFrom(version: byte, fs: seq<Field>): Versioned
    requires AllFit(fs, VersionedKinds(version))
  {
    Versioned(
      if version >= 1 then PairUp(fs[0].texts) else map[],
      if version >= 2 then Some(fs[1].text) else None,
      if version >= 2 then fs[2].texts else [],
      if version >= 3 then Some(fs[3].text) else None
    )
  }

  function Assemble(version: byte, messageType: byte, e: Envelope, t: Typed, v: Versioned): Message {
    Message(
      version, messageType, e.messageId, e.sourceClientId, e.sourceBrokerId,
      e.brokerIds, e.clientIds, e.payload,
      t.replyToTopic, t.serviceId, t.requestMessageId, t.errorCode, t.errorMessage,
      v.otherFields, v.sourceTenantGuid, v.destinationTenantGuids, v.sourceClientInstanceId
    )
  }

  /** The message with these fields, in the order their kinds are listed. */
  function Build(version: byte, messageType: byte, e: seq<Field>, t: seq<Field>, v: seq<Field>): Message
    requires AllFit(e, ENVELOPE) && AllFit(t, TypedKinds(messageType)) && AllFit(v, VersionedKinds(version))
  {
    Assemble(version, messageType, EnvelopeFrom(e), TypedFrom(messageType, t), VersionedFrom(version, v))
  }

  /** Parsing reads one message from the front of `s` and ignores what follows. */
  function Parse(s: Bytes): (r: Parsed<Message>)
    ensures r.Done? ==> 0 < r.next <= |s|
  {
    var (version, p1) :- ReadInt(s, 0, 0, 0xFF);
    var (messageType, p2) :- ReadInt(s, p1, 0, 0xFF);
    var (e, p3) :- ReadFields(s, p2, ENVELOPE);
    var (t, p4) :- ReadFields(s, p3, TypedKinds(messageType));
    var (v, p5) :- ReadFields(s, p4, VersionedKinds(version));
    Done(Build(version, messageType, e, t, v), p5)
  }

  // Encoding. `order` is the order in which the hash map yields its keys.

  function Flatten(keys: seq<string>, fields: map<string, string>): (xs: seq<string>)
    requires forall k :: k in keys ==> k in fields
    ensures |xs| == 2 * |keys|
  {
    if keys == [] then []
    else Flatten(keys[..|keys| - 1], fields) + [keys[|keys| - 1], fields[keys[|keys| - 1]]]
  }

  function EnvelopeFields(m: Message): seq<Field> {
    [TextField(m.messageId), TextField(m.sourceClientId), TextField(m.sourceBrokerId),
     TextsField(m.brokerIds), TextsField(m.clientIds), BlobField(m.payload)]
  }

  function TypedFields(m: Message): seq<Field> {
    if m.messageType == REQUEST then
      [TextField(m.replyToTopic.GetOr("")), TextField(m.serviceId.GetOr(""))]
    else if m.messageType == RESPONSE then
      [TextField(m.requestMessageId.GetOr("")), TextField(m.serviceId.GetOr(""))]
    else if m.messageType == ERROR then
      [TextField(m.requestMessageId.GetOr("")), TextField(m.serviceId.GetOr("")),
       CodeField(m.errorCode.GetOr(0)), TextField(m.errorMessage.GetOr(""))]
    else
      []
  }

  ghost function VersionedFields(m: Message, order: seq<string>): seq<Field>
    requires Enumerates(order, m.otherFields.Keys)
  {
    KeyOrder.SortEnumerates(order, m.otherFields.Keys);
    (if m.version >= 1 then [TextsField(Flatten(KeyOrder.Sort(order), m.otherFields))] else [])
    + (if m.version >= 2 then
         [TextField(m.sourceTenantGuid.GetOr("")), TextsField(m.destinationTenantGuids)] else [])
    + (if m.version >= 3 then [TextField(m.sourceClientInstanceId.GetOr(""))] else [])
  }

  ghost function Encode(m: Message, order: seq<string>): Bytes
    requires Enumerates(order, m.otherFields.Keys)
  {
    WriteUint(m.version) + (WriteUint(m.messageType) + (WriteFields(EnvelopeFields(m))
    + (WriteFields(TypedFields(m)) + WriteFields(VersionedFields(m, order)))))
  }

  // Well-formed messages

  predicate ShortOption(o: Option<string>) { o.Some? ==> ShortString(o.value) }

  /** A message a DXL peer can send: a known type, exactly the optional fields
      its type and version call for, and every length within 32 bits. */
  ghost predicate WellFormed(m: Message) {
    && m.messageType <= ERROR
    && (m.replyToTopic.Some? <==> m.messageType == REQUEST)
    && (m.serviceId.Some? <==> m.messageType != EVENT)
    && (m.requestMessageId.Some? <==> m.messageType in {RESPONSE, ERROR})
    && (m.errorCode.Some? <==> m.messageType == ERROR)
    && (m.errorMessage.Some? <==> m.messageType == ERROR)
    && (m.version < 1 ==> m.otherFields == map[])
    && (m.sourceTenantGuid.Some? <==> m.version >= 2)
    && (m.version < 2 ==> m.destinationTenantGuids == [])
    && (m.sourceClientInstanceId.Some? <==> m.version >= 3)
    && ShortString(m.messageId) && ShortString(m.sourceClientId) && ShortString(m.sourceBrokerId)
    && ShortArray(m.brokerIds) && ShortArray(m.clientIds) && |m.payload| < TWO_32
    && ShortOption(m.replyToTopic) && ShortOption(m.serviceId)
    && ShortOption(m.requestMessageId) && ShortOption(m.errorMessage)
    && 2 * |m.otherFields| < TWO_32
    && (forall k :: k in m.otherFields ==> ShortString(k) && ShortString(m.otherFields[k]))
    && ShortOption(m.sourceTenantGuid) && ShortArray(m.destinationTenantGuids)
    && ShortOption(m.sourceClientInstanceId)
  }

  // Error-code arithmetic

  /** A raw code is accepted exactly within [-2^31, 2^32), whatever integer
      encoding carries it, and decodes to the one `i32` congruent to it. */
  lemma ErrorCodeAccepted(s: Bytes, p: nat, code: i32)
    requires ReadNumber(s, p).Done?
    ensures var raw := ReadNumber(s, p).value;
            && (ReadErrorCode(s, p).Done? <==> I32_MIN <= raw < TWO_32)
            && (ReadErrorCode(s, p).Done? ==>
                  && ReadErrorCode(s, p).next == ReadNumber(s, p).next
                  && (code == ReadErrorCode(s, p).value <==> (code - raw) % TWO_32 == 0))
  {
  }

  /** Two accepted codes decode alike exactly when they agree modulo 2^32. */
  lemma ErrorCodesAlike(raw1: int, raw2: int)
    requires I32_MIN <= raw1 < TWO_32 && I32_MIN <= raw2 < TWO_32
    ensures ToI32(raw1) == ToI32(raw2) <==> (raw1 - raw2) % TWO_32 == 0
  {
  }

  /** Every error code survives being written in its shortest form and read. */
  lemma ErrorCodeRoundTrip(s: Bytes, p: nat, code: i32)
    requires At(s, p, WriteSint(code))
    ensures ReadErrorCode(s, p) == Done(code, p + |WriteSint(code)|)
  {
    ReadNumberOfSint(s, p, code);
  }

  // What is written is read back

  lemma FieldWritten(s: Bytes, p: nat, f: Field, kind: Kind)
    requires Fits(f, kind) && ShortField(f) && At(s, p, WriteField(f))
    ensures ReadField(s, p, kind) == Done(f, p + |WriteField(f)|)
  {
    match f
    case TextField(v) => ReadStringWritten(s, p, v);
    case TextsField(v) => ReadStringArrayWritten(s, p, v);
    case BlobField(v) => ReadBytesWritten(s, p, v);
    case CodeField(v) => ErrorCodeRoundTrip(s, p, v);
  }

  lemma {:induction false} FieldsWritten(s: Bytes, p: nat, fs: seq<Field>, kinds: seq<Kind>)
    requires AllFit(fs, kinds) && AllShort(fs) && At(s, p, WriteFields(fs))
    ensures ReadFields(s, p, kinds) == Done(fs, p + |WriteFields(fs)|)
    decreases |fs|
  {
    hide WriteField, ReadField, Fits, ShortField;
    if fs == [] {
    } else {
      AtSplit(s, p, WriteFields(fs), WriteField(fs[0]), WriteFields(fs[1..]));
      FieldWritten(s, p, fs[0], kinds[0]);
      FieldsWritten(s, p + |WriteField(fs[0])|, fs[1..], kinds[1..]);
      assert [fs[0]] + fs[1..] == fs;
    }
  }

  lemma {:induction false} PairsPrefix(xs: seq<string>, ys: seq<string>, n: nat)
    requires 2 * n <= |xs|
    ensures Pairs(xs + ys, n) == Pairs(xs, n)
  {
    if n == 0 {
    } else {
      PairsPrefix(xs, ys, n - 1);
    }
  }

  lemma {:induction false} PairUpFlatten(keys: seq<string>, fields: map<string, string>)
    requires forall k :: k in keys ==> k in fields
    ensures PairUp(Flatten(keys, fields)) == map k | k in keys :: fields[k]
  {
    if keys == [] {
    } else {
      var front, last := keys[..|keys| - 1], keys[|keys| - 1];
      PairUpFlatten(front, fields);
      PairsPrefix(Flatten(front, fields), [last, fields[last]], |front|);
      assert keys == front + [last];
    }
  }

  /** Keys stand at the even places and values after them; where a key stands more
      than once, its last value counts. */
  lemma {:induction false} PairsExactly(xs: seq<string>, n: nat, k: string)
    requires 2 * n <= |xs|
    ensures k in Pairs(xs, n) <==> exists i :: 0 <= i < n && xs[2 * i] == k
    ensures forall i :: 0 <= i < n && xs[2 * i] == k && (forall j :: i < j < n ==> xs[2 * j] != k) ==>
              k in Pairs(xs, n) && Pairs(xs, n)[k] == xs[2 * i + 1]
    decreases n
  {
    if n == 0 {
    } else {
      PairsExactly(xs, n - 1, k);
      assert xs[2 * n - 2] == xs[2 * (n - 1)] && xs[2 * n - 1] == xs[2 * (n - 1) + 1];
    }
  }

  lemma {:induction false} FlattenAt(keys: seq<string>, fields: map<string, string>, i: nat)
    requires i < |keys| && forall k :: k in keys ==> k in fields
    ensures Flatten(keys, fields)[2 * i] == keys[i] && Flatten(keys, fields)[2 * i + 1] == fields[keys[i]]
    decreases |keys|
  {
    if i == |keys| - 1 {
    } else {
      FlattenAt(keys[..|keys| - 1], fields, i);
    }
  }

  lemma {:induction false} FlattenShort(keys: seq<string>, fields: map<string, string>)
    requires forall k :: k in keys ==> k in fields && ShortString(k) && ShortString(fields[k])
    ensures ShortStrings(Flatten(keys, fields))
  {
    if keys == [] {
    } else {
      FlattenShort(keys[..|keys| - 1], fields);
    }
  }

  lemma EnumerationLength<T>(order: seq<T>, keys: set<T>)
    requires (forall k :: k in order <==> k in keys)
    requires (forall i, j :: 0 <= i < j < |order| ==> order[i] != order[j])
    ensures |order| == |keys|
    decreases |order|
  {
    if order != [] {
      var last := order[|order| - 1];
      assert order == order[..|order| - 1] + [last];
      EnumerationLength(order[..|order| - 1], keys - {last});
    } else {
      assert keys == {};
    }
  }

  lemma EnvelopeFit(m: Message)
    requires WellFormed(m)
    ensures AllFit(EnvelopeFields(m), ENVELOPE) && AllShort(EnvelopeFields(m))
  {
    hide ShortString, ShortArray;
  }

  lemma TypedFit(m: Message)
    requires WellFormed(m)
    ensures AllFit(TypedFields(m), TypedKinds(m.messageType)) && AllShort(TypedFields(m))
  {
    hide ShortString, ShortArray;
  }

  lemma FlattenedShort(fields: map<string, string>, order: seq<string>)
    requires Enumerates(order, fields.Keys) && 2 * |fields| < TWO_32
    requires forall k :: k in fields ==> ShortString(k) && ShortString(fields[k])
    ensures forall k :: k in KeyOrder.Sort(order) ==> k in fields
    ensures ShortArray(Flatten(KeyOrder.Sort(order), fields))
  {
    hide ShortString, KeyOrder.Sort;
    var keys := KeyOrder.Sort(order);
    KeyOrder.SortEnumerates(order, fields.Keys);
    EnumerationLength(keys, fields.Keys);
    FlattenShort(keys, fields);
  }

  lemma VersionedFit(m: Message, order: seq<string>)
    requires WellFormed(m) && Enumerates(order, m.otherFields.Keys)
    ensures AllFit(VersionedFields(m, order), VersionedKinds(m.version)) && AllShort(VersionedFields(m, order))
  {
    hide ShortString, ShortArray, Flatten, KeyOrder.Sort;
    FlattenedShort(m.otherFields, order);
  }

  lemma TypedRebuilt(m: Message)
    requires WellFormed(m) && AllFit(TypedFields(m), TypedKinds(m.messageType))
    ensures TypedFrom(m.messageType, TypedFields(m))
         == Typed(m.replyToTopic, m.serviceId, m.requestMessageId, m.errorCode, m.errorMessage)
  {
    hide ShortString, ShortArray, AllFit;
  }

  lemma FlattenedRebuilt(fields: map<string, string>, order: seq<string>)
    requires Enumerates(order, fields.Keys)
    ensures forall k :: k in KeyOrder.Sort(order) ==> k in fields
    ensures PairUp(Flatten(KeyOrder.Sort(order), fields)) == fields
  {
    hide PairUp, Flatten, KeyOrder.Sort;
    var keys := KeyOrder.Sort(order);
    KeyOrder.SortEnumerates(order, fields.Keys);
    PairUpFlatten(keys, fields);
    assert (map k | k in keys :: fields[k]) == fields;
  }

  lemma VersionedRebuilt(m: Message, order: seq<string>)
    requires WellFormed(m) && Enumerates(order, m.otherFields.Keys)
    requires AllFit(VersionedFields(m, order), VersionedKinds(m.version))
    ensures VersionedFrom(m.version, VersionedFields(m, order))
         == Versioned(m.otherFields, m.sourceTenantGuid, m.destinationTenantGuids, m.sourceClientInstanceId)
  {
    hide ShortString, ShortArray, PairUp, Flatten, AllFit, Enumerates, KeyOrder.Sort;
    FlattenedRebuilt(m.otherFields, order);
  }

  lemma BuildWritten(m: Message, order: seq<string>)
    requires WellFormed(m) && Enumerates(order, m.otherFields.Keys)
    requires AllFit(EnvelopeFields(m), ENVELOPE) && AllFit(TypedFields(m), TypedKinds(m.messageType))
    requires AllFit(VersionedFields(m, order), VersionedKinds(m.version))
    ensures Build(m.version, m.messageType, EnvelopeFields(m), TypedFields(m), VersionedFields(m, order)) == m
  {
    hide WellFormed, Enumerates, TypedFields, VersionedFields, TypedFrom, VersionedFrom, AllFit;
    TypedRebuilt(m);
    VersionedRebuilt(m, order);
  }

  lemma FiveParts(s: Bytes, w1: Bytes, w2: Bytes, w3: Bytes, w4: Bytes, w5: Bytes)
    requires At(s, 0, w1 + (w2 + (w3 + (w4 + w5))))
    ensures At(s, 0, w1) && At(s, |w1|, w2) && At(s, |w1| + |w2|, w3) && At(s, |w1| + |w2| + |w3|, w4)
    ensures At(s, |w1| + |w2| + |w3| + |w4|, w5)
  {
    hide At;
    AtSplit(s, 0, w1 + (w2 + (w3 + (w4 + w5))), w1, w2 + (w3 + (w4 + w5)));
    AtSplit(s, |w1|, w2 + (w3 + (w4 + w5)), w2, w3 + (w4 + w5));
    AtSplit(s, |w1| + |w2|, w3 + (w4 + w5), w3, w4 + w5);
    AtSplit(s, |w1| + |w2| + |w3|, w4 + w5, w4, w5);
  }

  /** The version, the type and the three lists of fields, one after the other. */
  function WriteParts(version: byte, messageType: byte, e: seq<Field>, t: seq<Field>, v: seq<Field>): Bytes {
    WriteUint(version) + (WriteUint(messageType) + (WriteFields(e) + (WriteFields(t) + WriteFields(v))))
  }

  lemma PartsAt(version: byte, messageType: byte, e: seq<Field>, t: seq<Field>, v: seq<Field>, tail: Bytes)
    ensures var parts := WriteParts(version, messageType, e, t, v);
            && At(parts + tail, 0, WriteUint(version) + (WriteUint(messageType)
                                   + (WriteFields(e) + (WriteFields(t) + WriteFields(v)))))
            && |parts| == |WriteUint(version)| + |WriteUint(messageType)| + |WriteFields(e)|
                          + |WriteFields(t)| + |WriteFields(v)|
  {
    hide WriteUint, WriteFields;
  }

  /** Fields of the right kinds are parsed back, whatever follows. */
  lemma ParseWritten(version: byte, messageType: byte, e: seq<Field>, t: seq<Field>, v: seq<Field>, tail: Bytes)
    requires AllFit(e, ENVELOPE) && AllFit(t, TypedKinds(messageType)) && AllFit(v, VersionedKinds(version))
    requires AllShort(e) && AllShort(t) && AllShort(v)
    ensures var parts := WriteParts(version, messageType, e, t, v);
            Parse(parts + tail) == Done(Build(version, messageType, e, t, v), |parts|)
  {
    hide ReadFields, WriteFields, ReadNumber, WriteUint, Build, WriteParts, At, AllFit, AllShort;
    hide TypedKinds, VersionedKinds;
    var s := WriteParts(version, messageType, e, t, v) + tail;
    var w1, w2, w3 := WriteUint(version), WriteUint(messageType), WriteFields(e);
    var w4, w5 := WriteFields(t), WriteFields(v);
    PartsAt(version, messageType, e, t, v, tail);
    FiveParts(s, w1, w2, w3, w4, w5);
    ReadNumberOfUint(s, 0, version);
    ReadNumberOfUint(s, |w1|, messageType);
    FieldsWritten(s, |w1| + |w2|, e, ENVELOPE);
    FieldsWritten(s, |w1| + |w2| + |w3|, t, TypedKinds(messageType));
    FieldsWritten(s, |w1| + |w2| + |w3| + |w4|, v, VersionedKinds(version));
  }

  /** A well-formed message is parsed back from its encoding, whatever follows. */
  lemma ParseEncoded(m: Message, order: seq<string>, tail: Bytes)
    requires WellFormed(m) && Enumerates(order, m.otherFields.Keys)
    ensures Parse(Encode(m, order) + tail) == Done(m, |Encode(m, order)|)
  {
    EnvelopeFit(m);
    TypedFit(m);
    hide WellFormed, Build, Enumerates, WriteFields, WriteUint, Parse;
    hide EnvelopeFields, TypedFields, VersionedFields, AllFit, AllShort, TypedKinds, VersionedKinds;
    VersionedFit(m, order);
    ParseWritten(m.version, m.messageType, EnvelopeFields(m), TypedFields(m), VersionedFields(m, order), tail);
    BuildWritten(m, order);
  }

  // What is read is well-formed

  lemma FieldShort(s: Bytes, p: nat, kind: Kind)
    requires ReadField(s, p, kind).Done?
    ensures ShortField(ReadField(s, p, kind).value)
  {
    match kind
    case Text => ReadStringShort(s, p);
    case Texts => ReadStringArrayShort(s, p);
    case Blob => ReadBytesBound(s, p);
    case Code =>
  }

  lemma {:induction false} ReadFieldsShort(s: Bytes, p: nat, kinds: seq<Kind>)
    requires ReadFields(s, p, kinds).Done?
    ensures AllShort(ReadFields(s, p, kinds).value)
    decreases |kinds|
  {
    if kinds == [] {
    } else {
      FieldShort(s, p, kinds[0]);
      ReadFieldsShort(s, ReadField(s, p, kinds[0]).next, kinds[1..]);
    }
  }

  lemma {:induction false} PairsShort(xs: seq<string>, n: nat)
    requires 2 * n <= |xs| && ShortStrings(xs)
    ensures |Pairs(xs, n)| <= n
    ensures forall k :: k in Pairs(xs, n) ==> ShortString(k) && ShortString(Pairs(xs, n)[k])
  {
    hide ShortString;
    if n == 0 {
    } else {
      PairsShort(xs, n - 1);
      var front := Pairs(xs, n - 1);
      assert Pairs(xs, n).Keys == front.Keys + {xs[2 * n - 2]};
      assert |Pairs(xs, n).Keys| <= |front.Keys| + 1;
    }
  }

  lemma BuiltWellFormed(version: byte, messageType: byte, e: seq<Field>, t: seq<Field>, v: seq<Field>)
    requires AllFit(e, ENVELOPE) && AllFit(t, TypedKinds(messageType)) && AllFit(v, VersionedKinds(version))
    requires AllShort(e) && AllShort(t) && AllShort(v)
    ensures WellFormed(Build(version, messageType, e, t, v))
  {
    hide ShortString, Pairs;
    assert messageType > ERROR ==> Fits(t[0], Unknown);
    assert forall i :: 0 <= i < 6 ==> ShortField(e[i]);
    if version >= 1 {
      PairsShort(v[0].texts, |v[0].texts| / 2);
    }
  }

  lemma ParsedWellFormed(s: Bytes)
    requires Parse(s).Done?
    ensures WellFormed(Parse(s).value)
  {
    hide ReadFields, ReadNumber, WellFormed, Build, AllFit, AllShort;
    var (version, p1) := ReadInt(s, 0, 0, 0xFF).Extract();
    var (messageType, p2) := ReadInt(s, p1, 0, 0xFF).Extract();
    var (e, p3) := ReadFields(s, p2, ENVELOPE).Extract();
    var (t, p4) := ReadFields(s, p3, TypedKinds(messageType)).Extract();
    var (v, p5) := ReadFields(s, p4, VersionedKinds(version)).Extract();
    ReadFieldsShort(s, p2, ENVELOPE);
    ReadFieldsShort(s, p3, TypedKinds(messageType));
    ReadFieldsShort(s, p4, VersionedKinds(version));
    BuiltWellFormed(version, messageType, e, t, v);
  }

  // The laws

  /** The round trip, exactly: for every iteration order and every tail, parsing
      the encoding returns the message and stops at its end if and only if the
      message is well-formed. */
  lemma RoundTrip(m: Message, order: seq<string>, tail: Bytes)
    requires Enumerates(order, m.otherFields.Keys)
    ensures Parse(Encode(m, order) + tail) == Done(m, |Encode(m, order)|) <==> WellFormed(m)
  {
    if WellFormed(m) {
      ParseEncoded(m, order, tail);
    } else if Parse(Encode(m, order) + tail) == Done(m, |Encode(m, order)|) {
      ParsedWellFormed(Encode(m, order) + tail);
    }
  }

  /** The bytes do not depend on the order in which the hash map yields its keys. */
  lemma EncodingDeterministic(m: Message, order1: seq<string>, order2: seq<string>)
    requires Enumerates(order1, m.otherFields.Keys) && Enumerates(order2, m.otherFields.Keys)
    ensures Encode(m, order1) == Encode(m, order2)
  {
    KeyOrder.SortIgnoresOrder(order1, order2, m.otherFields.Keys);
  }

  /** Normal form: whatever bytes parse, the encoding of the result parses to the
      same message, and encoding that again changes no byte. */
  lemma NormalForm(s: Bytes, order: seq<string>, order': seq<string>, tail: Bytes)
    requires Parse(s).Done?
    requires Enumerates(order, Parse(s).value.otherFields.Keys)
    requires Enumerates(order', Parse(s).value.otherFields.Keys)
    ensures var normal := Encode(Parse(s).value, order);
            && Parse(normal + tail) == Done(Parse(s).value, |normal|)
            && Encode(Parse(normal + tail).value, order') == normal
  {
    ParsedWellFormed(s);
    ParseEncoded(Parse(s).value, order, tail);
    EncodingDeterministic(Parse(s).value, order, order');
  }

  // Self-delimitation

  lemma FieldLocal(s: Bytes, t: Bytes, p: nat, kind: Kind)
    requires ReadField(s, p, kind).Done? && Follows(t, s, ReadField(s, p, kind).next)
    ensures ReadField(t, p, kind) == Cut(ReadField(s, p, kind), t)
  {
    match kind
    case Text => ReadStringLocal(s, t, p);
    case Texts => ReadStringArrayLocal(s, t, p);
    case Blob => ReadBytesLocal(s, t, p);
    case Code => ReadIntLocal(s, t, p, I64_MIN, I64_MAX);
  }

  lemma {:induction false} FieldsLocal(s: Bytes, t: Bytes, p: nat, kinds: seq<Kind>)
    requires p <= |s| && p <= |t|
    requires ReadFields(s, p, kinds).Done? && Follows(t, s, ReadFields(s, p, kinds).next)
    ensures ReadFields(t, p, kinds) == Cut(ReadFields(s, p, kinds), t)
    decreases |kinds|
  {
    if kinds == [] {
    } else {
      FieldLocal(s, t, p, kinds[0]);
      var q := ReadField(s, p, kinds[0]).next;
      if q <= |t| {
        FieldsLocal(s, t, q, kinds[1..]);
      }
    }
  }

  /** A parse that succeeds depends only on the bytes it consumed: changing what
      follows changes nothing, and an input cut short within those bytes fails
      for want of input. */
  lemma SelfDelimiting(s: Bytes, t: Bytes)
    requires Parse(s).Done? && Follows(t, s, Parse(s).next)
    ensures Parse(s).next <= |t| ==> Parse(t) == Parse(s)
    ensures |t| < Parse(s).next ==> Parse(t) == Fail(UnexpectedEof)
  {
    hide ReadFields, ReadNumber, Build, AllFit;
    ReadIntLocal(s, t, 0, 0, 0xFF);
    var (version, p1) := ReadInt(s, 0, 0, 0xFF).Extract();
    ReadIntLocal(s, t, p1, 0, 0xFF);
    var (messageType, p2) := ReadInt(s, p1, 0, 0xFF).Extract();
    if p2 <= |t| {
      FieldsLocal(s, t, p2, ENVELOPE);
      var p3 := ReadFields(s, p2, ENVELOPE).next;
      if p3 <= |t| {
        FieldsLocal(s, t, p3, TypedKinds(messageType));
        var p4 := ReadFields(s, p3, TypedKinds(messageType)).next;
        if p4 <= |t| {
          FieldsLocal(s, t, p4, VersionedKinds(version));
        }
      }
    }
  }

  /** No encoding of a well-formed message is a proper prefix of another's. */
  lemma PrefixFree(m1: Message, order1: seq<string>, m2: Message, order2: seq<string>)
    requires WellFormed(m1) && Enumerates(order1, m1.otherFields.Keys)
    requires WellFormed(m2) && Enumerates(order2, m2.otherFields.Keys)
    requires Encode(m1, order1) <= Encode(m2, order2)
    ensures m1 == m2 && Encode(m1, order1) == Encode(m2, order2)
  {
    var e1, e2 := Encode(m1, order1), Encode(m2, order2);
    assert e1 + [] == e1 && e2 + [] == e2;
    ParseEncoded(m1, order1, []);
    ParseEncoded(m2, order2, []);
    SelfDelimiting(e1, e2);
  }
}
