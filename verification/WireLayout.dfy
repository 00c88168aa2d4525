/** Where each field of a DXL message stands on the wire, for every message type
    and version, in the writers of single values alone. */
module WireLayout {
  import opened Prelude
  import opened MsgPack
  import opened DxlMessage
  import KeyOrder
  import Utf8

  // What a list of fields is on the wire

  lemma OneField(f: Field)
    ensures WriteFields([f]) == WriteField(f)
  {
    assert [f][1..] == [];
  }

  lemma {:induction false} FieldsJoin(a: seq<Field>, b: seq<Field>)
    ensures WriteFields(a + b) == WriteFields(a) + WriteFields(b)
    decreases |a|
  {
    hide WriteField;
    if a == [] {
      assert a + b == b;
    } else {
      assert (a + b)[1..] == a[1..] + b;
      FieldsJoin(a[1..], b);
    }
  }

  lemma TwoFields(f: Field, g: Field)
    ensures WriteFields([f, g]) == WriteField(f) + WriteField(g)
  {
    hide WriteField, WriteFields;
    assert [f, g] == [f] + [g];
    FieldsJoin([f], [g]);
    OneField(f);
    OneField(g);
  }

  /** The six fields every message has. */
  lemma EnvelopeLayout(a: string, b: string, c: string, brokers: seq<string>, clients: seq<string>, payload: Bytes)
    ensures WriteFields([TextField(a), TextField(b), TextField(c), TextsField(brokers), TextsField(clients),
                         BlobField(payload)])
         == WriteString(a) + WriteString(b) + WriteString(c) + WriteStringArray(brokers) + WriteStringArray(clients)
            + WriteBytes(payload)
  {
    hide WriteString, WriteStringArray, WriteBytes, WriteFields;
    var f1, f2, f3 := TextField(a), TextField(b), TextField(c);
    var f4, f5, f6 := TextsField(brokers), TextsField(clients), BlobField(payload);
    assert [f1, f2, f3, f4, f5, f6] == [f1, f2] + ([f3, f4] + [f5, f6]);
    FieldsJoin([f1, f2], [f3, f4] + [f5, f6]);
    FieldsJoin([f3, f4], [f5, f6]);
    TwoFields(f1, f2);
    TwoFields(f3, f4);
    TwoFields(f5, f6);
    Associate(WriteString(a), WriteString(b), WriteString(c), WriteStringArray(brokers),
              WriteStringArray(clients), WriteBytes(payload));
  }

  lemma Associate(a: Bytes, b: Bytes, c: Bytes, d: Bytes, e: Bytes, f: Bytes)
    ensures (a + b) + ((c + d) + (e + f)) == a + b + c + d + e + f
  {
  }

  /** The fields of message types 0, 1 and 3; type 2 has none. */
  function TypePart(messageType: byte, x: string, y: string, code: i32, text: string): Bytes {
    if messageType == 0 || messageType == 1 then WriteString(x) + WriteString(y)
    else if messageType == 3 then WriteString(x) + WriteString(y) + WriteSint(code) + WriteString(text)
    else []
  }

  function TypeFields(messageType: byte, x: string, y: string, code: i32, text: string): seq<Field> {
    if messageType == 0 || messageType == 1 then [TextField(x), TextField(y)]
    else if messageType == 3 then [TextField(x), TextField(y), CodeField(code), TextField(text)]
    else []
  }

  lemma TypeLayout(messageType: byte, x: string, y: string, code: i32, text: string)
    ensures WriteFields(TypeFields(messageType, x, y, code, text)) == TypePart(messageType, x, y, code, text)
  {
    hide WriteString, WriteSint;
    if messageType == 0 || messageType == 1 {
      TwoFields(TextField(x), TextField(y));
    } else if messageType == 3 {
      hide WriteFields;
      var front, back := [TextField(x), TextField(y)], [CodeField(code), TextField(text)];
      assert TypeFields(messageType, x, y, code, text) == front + back;
      FieldsJoin(front, back);
      TwoFields(TextField(x), TextField(y));
      TwoFields(CodeField(code), TextField(text));
      assert (WriteString(x) + WriteString(y)) + (WriteSint(code) + WriteString(text))
          == WriteString(x) + WriteString(y) + WriteSint(code) + WriteString(text);
    }
  }

  /** What versions 1, 2 and 3 each add. */
  function VersionPart(version: byte, pairs: seq<string>, tenant: string, tenants: seq<string>, instance: string)
    : Bytes
  {
    (if version >= 1 then WriteStringArray(pairs) else [])
    + (if version >= 2 then WriteString(tenant) + WriteStringArray(tenants) else [])
    + (if version >= 3 then WriteString(instance) else [])
  }

  function VersionFields(version: byte, pairs: seq<string>, tenant: string, tenants: seq<string>, instance: string)
    : seq<Field>
  {
    (if version >= 1 then [TextsField(pairs)] else [])
    + ((if version >= 2 then [TextField(tenant), TextsField(tenants)] else [])
    + (if version >= 3 then [TextField(instance)] else []))
  }

  lemma NoFields()
    ensures WriteFields([]) == []
  {
  }

  lemma VersionLayout(version: byte, pairs: seq<string>, tenant: string, tenants: seq<string>, instance: string)
    ensures WriteFields(VersionFields(version, pairs, tenant, tenants, instance))
         == VersionPart(version, pairs, tenant, tenants, instance)
  {
    hide WriteString, WriteStringArray, WriteFields;
    var a, b := if version >= 1 then [TextsField(pairs)] else [],
                if version >= 2 then [TextField(tenant), TextsField(tenants)] else [];
    var c := if version >= 3 then [TextField(instance)] else [];
    NoFields();
    OneField(TextsField(pairs));
    TwoFields(TextField(tenant), TextsField(tenants));
    OneField(TextField(instance));
    FieldsJoin(a, b + c);
    FieldsJoin(b, c);
    ThreeParts(WriteFields(a), WriteFields(b), WriteFields(c));
  }

  lemma ThreeParts(a: Bytes, b: Bytes, c: Bytes)
    ensures a + (b + c) == a + b + c
  {
  }

  /** A whole message: version and type, the six common fields, the fields of the
      type and those the version adds. */
  function Layout(
    version: byte, messageType: byte, a: string, b: string, c: string,
    brokers: seq<string>, clients: seq<string>, payload: Bytes, typed: Bytes, versioned: Bytes
  ): Bytes
  {
    WriteUint(version) + WriteUint(messageType)
    + (WriteString(a) + WriteString(b) + WriteString(c) + WriteStringArray(brokers) + WriteStringArray(clients)
       + WriteBytes(payload))
    + typed + versioned
  }

  lemma PartsLayout(
    version: byte, messageType: byte, a: string, b: string, c: string,
    brokers: seq<string>, clients: seq<string>, payload: Bytes, t: seq<Field>, v: seq<Field>
  )
    ensures WriteParts(version, messageType,
                       [TextField(a), TextField(b), TextField(c), TextsField(brokers), TextsField(clients),
                        BlobField(payload)], t, v)
         == Layout(version, messageType, a, b, c, brokers, clients, payload, WriteFields(t), WriteFields(v))
  {
    hide WriteUint, WriteString, WriteStringArray, WriteBytes, WriteFields;
    EnvelopeLayout(a, b, c, brokers, clients, payload);
    var w1, w2 := WriteUint(version), WriteUint(messageType);
    var w3 := WriteString(a) + WriteString(b) + WriteString(c) + WriteStringArray(brokers) + WriteStringArray(clients)
              + WriteBytes(payload);
    assert w1 + (w2 + (w3 + (WriteFields(t) + WriteFields(v)))) == w1 + w2 + w3 + WriteFields(t) + WriteFields(v);
  }

  // Encoding

  /** Encoding: every field of a message at its place, for every type and version.
      An optional field that is missing is written as the empty text or as zero. */
  lemma EncodedLayout(m: Message, order: seq<string>)
    requires Enumerates(order, m.otherFields.Keys)
    ensures forall k :: k in KeyOrder.Sort(order) ==> k in m.otherFields
    ensures var first := if m.messageType == 0 then m.replyToTopic.GetOr("") else m.requestMessageId.GetOr("");
            var typed := TypePart(m.messageType, first, m.serviceId.GetOr(""), m.errorCode.GetOr(0),
                                  m.errorMessage.GetOr(""));
            var pairs := Flatten(KeyOrder.Sort(order), m.otherFields);
            var versioned := VersionPart(m.version, pairs, m.sourceTenantGuid.GetOr(""), m.destinationTenantGuids,
                                         m.sourceClientInstanceId.GetOr(""));
            Encode(m, order)
            == Layout(m.version, m.messageType, m.messageId, m.sourceClientId, m.sourceBrokerId,
                      m.brokerIds, m.clientIds, m.payload, typed, versioned)
  {
    hide WriteUint, WriteString, WriteStringArray, WriteBytes, WriteFields, WriteSint, Flatten, Layout;
    hide TypePart, VersionPart, KeyOrder.Sort;
    KeyOrder.SortEnumerates(order, m.otherFields.Keys);
    var first := if m.messageType == 0 then m.replyToTopic.GetOr("") else m.requestMessageId.GetOr("");
    var pairs := Flatten(KeyOrder.Sort(order), m.otherFields);
    TypeLayout(m.messageType, first, m.serviceId.GetOr(""), m.errorCode.GetOr(0), m.errorMessage.GetOr(""));
    assert TypedFields(m) == TypeFields(m.messageType, first, m.serviceId.GetOr(""), m.errorCode.GetOr(0),
                                        m.errorMessage.GetOr(""));
    VersionLayout(m.version, pairs, m.sourceTenantGuid.GetOr(""), m.destinationTenantGuids,
                  m.sourceClientInstanceId.GetOr(""));
    assert VersionedFields(m, order)
        == VersionFields(m.version, pairs, m.sourceTenantGuid.GetOr(""), m.destinationTenantGuids,
                         m.sourceClientInstanceId.GetOr(""));
    PartsLayout(m.version, m.messageType, m.messageId, m.sourceClientId, m.sourceBrokerId, m.brokerIds, m.clientIds,
                m.payload, TypedFields(m), VersionedFields(m, order));
    hide TypeFields, VersionFields, TypedFields, VersionedFields;
  }

  /** The keys of the extra fields are written strictly ascending, each with its
      value behind it. */
  lemma WrittenPairs(m: Message, order: seq<string>, i: nat)
    requires Enumerates(order, m.otherFields.Keys) && i < |order|
    ensures var keys := KeyOrder.SortedKeys(m.otherFields.Keys);
            && |keys| == |order| && KeyOrder.Sort(order) == keys
            && keys[i] in m.otherFields
            && (forall k :: k in keys ==> k in m.otherFields)
            && Flatten(keys, m.otherFields)[2 * i] == keys[i]
            && Flatten(keys, m.otherFields)[2 * i + 1] == m.otherFields[keys[i]]
  {
    hide KeyOrder.Sort, KeyOrder.SortedKeys, Flatten;
    KeyOrder.SortIsSortedKeys(order, m.otherFields.Keys);
    EnumerationLength(order, m.otherFields.Keys);
    EnumerationLength(KeyOrder.SortedKeys(m.otherFields.Keys), m.otherFields.Keys);
    assert KeyOrder.SortedKeys(m.otherFields.Keys)[i] in m.otherFields.Keys;
    FlattenAt(KeyOrder.SortedKeys(m.otherFields.Keys), m.otherFields, i);
  }

  /** An array of strings: the element count, and then the strings in order. */
  lemma {:induction false} StringsExactly(xs: seq<string>, ys: seq<string>, x: string)
    ensures WriteStrings(xs + ys) == WriteStrings(xs) + WriteStrings(ys)
    ensures WriteStrings([x]) == WriteString(x)
    decreases |xs|
  {
    hide WriteString;
    assert [x][1..] == [];
    if xs == [] {
      assert xs + ys == ys;
    } else {
      assert (xs + ys)[1..] == xs[1..] + ys;
      StringsExactly(xs[1..], ys, x);
    }
  }

  // Parsing

  /** Parsing: which field of the message each place on the wire becomes, for every
      type and version, whatever follows. */
  lemma ParsedLayout(
    version: byte, messageType: byte, a: string, b: string, c: string,
    brokers: seq<string>, clients: seq<string>, payload: Bytes,
    x: string, y: string, code: i32, text: string,
    pairs: seq<string>, tenant: string, tenants: seq<string>, instance: string, tail: Bytes
  )
    requires messageType in {0, 1, 2, 3}
    requires ShortString(a) && ShortString(b) && ShortString(c) && ShortArray(brokers) && ShortArray(clients)
    requires |payload| < TWO_32 && ShortString(x) && ShortString(y) && ShortString(text)
    requires ShortArray(pairs) && ShortString(tenant) && ShortArray(tenants) && ShortString(instance)
    ensures var bytes := Layout(version, messageType, a, b, c, brokers, clients, payload,
                                TypePart(messageType, x, y, code, text),
                                VersionPart(version, pairs, tenant, tenants, instance));
            && Parse(bytes + tail).Done? && Parse(bytes + tail).next == |bytes|
            && var m := Parse(bytes + tail).value;
               && m.version == version && m.messageType == messageType
               && m.messageId == a && m.sourceClientId == b && m.sourceBrokerId == c
               && m.brokerIds == brokers && m.clientIds == clients && m.payload == payload
               && m.replyToTopic == (if messageType == 0 then Some(x) else None)
               && m.requestMessageId == (if messageType == 1 || messageType == 3 then Some(x) else None)
               && m.serviceId == (if messageType == 2 then None else Some(y))
               && m.errorCode == (if messageType == 3 then Some(code) else None)
               && m.errorMessage == (if messageType == 3 then Some(text) else None)
               && m.otherFields == (if version >= 1 then PairUp(pairs) else map[])
               && m.sourceTenantGuid == (if version >= 2 then Some(tenant) else None)
               && m.destinationTenantGuids == (if version >= 2 then tenants else [])
               && m.sourceClientInstanceId == (if version >= 3 then Some(instance) else None)
  {
    var e := [TextField(a), TextField(b), TextField(c), TextsField(brokers), TextsField(clients), BlobField(payload)];
    var t, v := TypeFields(messageType, x, y, code, text), VersionFields(version, pairs, tenant, tenants, instance);
    LayoutFits(version, messageType, a, b, c, brokers, clients, payload, x, y, code, text,
               pairs, tenant, tenants, instance);
    LayoutBuilds(version, messageType, a, b, c, brokers, clients, payload, x, y, code, text,
                 pairs, tenant, tenants, instance);
    hide Parse, Build, Layout, TypePart, VersionPart, TypeFields, VersionFields, WriteParts, AllFit, AllShort;
    hide ShortString, ShortArray, WriteFields, PairUp;
    TypeLayout(messageType, x, y, code, text);
    VersionLayout(version, pairs, tenant, tenants, instance);
    PartsLayout(version, messageType, a, b, c, brokers, clients, payload, t, v);
    ParseWritten(version, messageType, e, t, v, tail);
  }

  lemma LayoutFits(
    version: byte, messageType: byte, a: string, b: string, c: string,
    brokers: seq<string>, clients: seq<string>, payload: Bytes,
    x: string, y: string, code: i32, text: string,
    pairs: seq<string>, tenant: string, tenants: seq<string>, instance: string
  )
    requires messageType in {0, 1, 2, 3}
    requires ShortString(a) && ShortString(b) && ShortString(c) && ShortArray(brokers) && ShortArray(clients)
    requires |payload| < TWO_32 && ShortString(x) && ShortString(y) && ShortString(text)
    requires ShortArray(pairs) && ShortString(tenant) && ShortArray(tenants) && ShortString(instance)
    ensures var e := [TextField(a), TextField(b), TextField(c), TextsField(brokers), TextsField(clients),
                      BlobField(payload)];
            var t, v := TypeFields(messageType, x, y, code, text),
                        VersionFields(version, pairs, tenant, tenants, instance);
            && AllFit(e, ENVELOPE) && AllFit(t, TypedKinds(messageType)) && AllFit(v, VersionedKinds(version))
            && AllShort(e) && AllShort(t) && AllShort(v)
  {
    hide ShortString, ShortArray;
  }

  lemma LayoutBuilds(
    version: byte, messageType: byte, a: string, b: string, c: string,
    brokers: seq<string>, clients: seq<string>, payload: Bytes,
    x: string, y: string, code: i32, text: string,
    pairs: seq<string>, tenant: string, tenants: seq<string>, instance: string
  )
    requires messageType in {0, 1, 2, 3}
    requires AllFit(TypeFields(messageType, x, y, code, text), TypedKinds(messageType))
    requires AllFit(VersionFields(version, pairs, tenant, tenants, instance), VersionedKinds(version))
    ensures var e := [TextField(a), TextField(b), TextField(c), TextsField(brokers), TextsField(clients),
                      BlobField(payload)];
            var m := Build(version, messageType, e, TypeFields(messageType, x, y, code, text),
                           VersionFields(version, pairs, tenant, tenants, instance));
            && m.version == version && m.messageType == messageType
            && m.messageId == a && m.sourceClientId == b && m.sourceBrokerId == c
            && m.brokerIds == brokers && m.clientIds == clients && m.payload == payload
            && m.replyToTopic == (if messageType == 0 then Some(x) else None)
            && m.requestMessageId == (if messageType == 1 || messageType == 3 then Some(x) else None)
            && m.serviceId == (if messageType == 2 then None else Some(y))
            && m.errorCode == (if messageType == 3 then Some(code) else None)
            && m.errorMessage == (if messageType == 3 then Some(text) else None)
            && m.otherFields == (if version >= 1 then PairUp(pairs) else map[])
            && m.sourceTenantGuid == (if version >= 2 then Some(tenant) else None)
            && m.destinationTenantGuids == (if version >= 2 then tenants else [])
            && m.sourceClientInstanceId == (if version >= 3 then Some(instance) else None)
  {
    hide PairUp;
  }

  // A reference vector

  const VECTOR_ID := "{40b8ea11-f1fb-45ad-a319-581460dea9ac}"
  const VECTOR_CLIENT := "{11111111-2222-3333-4444-555555555555}"

  lemma VectorId()
    ensures |VECTOR_ID| == 38 && Utf8.Ascii(VECTOR_ID)
  {
  }

  lemma VectorClient()
    ensures |VECTOR_CLIENT| == 38 && Utf8.Ascii(VECTOR_CLIENT)
  {
  }

  lemma AsciiWritten(s: string)
    requires |s| == 38 && Utf8.Ascii(s)
    ensures WriteString(s) == [0xDA, 0x00, 0x26] + Utf8.AsciiBytes(s) && ShortString(s)
  {
    Utf8.AsciiEncoded(s);
    Utf8.AsciiLength(s);
    WrittenBytesExactly(Utf8.Encode(s));
  }

  lemma EmptyWritten()
    ensures WriteString("") == [0xA0] && ShortString("") && WriteBytes([]) == [0xA0]
    ensures WriteStringArray([]) == [0x90] && ShortArray([])
    ensures WriteUint(3) == [0x03] && WriteUint(2) == [0x02]
  {
  }

  lemma NoPairs()
    ensures Flatten([], map[]) == [] && PairUp([]) == map[]
  {
  }

  lemma LayoutOfEvent(x: Bytes, y: Bytes)
    ensures [0x03] + [0x02] + (x + y + [0xA0] + [0x90] + [0x90] + [0xA0]) + []
            + ([0x90] + ([0xA0] + [0x90]) + [0xA0])
         == [0x03, 0x02] + (x + y + [0xA0, 0x90, 0x90, 0xA0, 0x90, 0xA0, 0x90, 0xA0])
  {
  }

  /** An event of version 3 without payload, byte by byte: it parses to the message,
      and the message encodes to it. */
  ghost predicate EventVector(id: string, client: string) {
    && Utf8.Ascii(id) && Utf8.Ascii(client)
    && var bytes := [0x03, 0x02] + ([0xDA, 0x00, 0x26] + Utf8.AsciiBytes(id)
                    + ([0xDA, 0x00, 0x26] + Utf8.AsciiBytes(client))
                    + [0xA0, 0x90, 0x90, 0xA0, 0x90, 0xA0, 0x90, 0xA0]);
       var m := Message(3, 2, id, client, "", [], [], [], None, None, None, None, None,
                        map[], Some(""), [], Some(""));
       Parse(bytes) == Done(m, |bytes|) && Encode(m, []) == bytes
  }

  lemma EventVectorFor(id: string, client: string)
    requires |id| == 38 && Utf8.Ascii(id) && |client| == 38 && Utf8.Ascii(client)
    ensures EventVector(id, client)
  {
    var m := Message(3, 2, id, client, "", [], [], [], None, None, None, None, None, map[], Some(""), [], Some(""));
    assert m.otherFields.Keys == {} && KeyOrder.Sort([]) == [];
    NoPairs();
    AsciiWritten(id);
    AsciiWritten(client);
    EmptyWritten();
    EncodedLayout(m, []);
    ParsedLayout(3, 2, id, client, "", [], [], [], "", "", 0, "", [], "", [], "", []);
    hide Parse, Encode, WriteString, WriteStringArray, WriteBytes, WriteUint, ShortString, ShortArray, Flatten, PairUp;
    hide Utf8.AsciiBytes, KeyOrder.Sort;
    var bytes := Encode(m, []);
    assert bytes + [] == bytes;
    var x, y := [0xDA, 0x00, 0x26] + Utf8.AsciiBytes(id), [0xDA, 0x00, 0x26] + Utf8.AsciiBytes(client);
    LayoutOfEvent(x, y);
  }

  /** The third reference vector. */
  lemma GoldenEvent()
    ensures EventVector(VECTOR_ID, VECTOR_CLIENT)
  {
    hide EventVector;
    VectorId();
    VectorClient();
    EventVectorFor(VECTOR_ID, VECTOR_CLIENT);
  }
}
