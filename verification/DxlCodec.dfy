/** The codec as it runs: writers that append to a growing buffer and readers
    that advance a cursor, each tied to the functions of `DxlMessage`. */
module DxlCodec {
  import opened Prelude
  import opened MsgPack
  import opened DxlMessage
  import KeyOrder
  import Utf8

  /** Reading `n` more strings from `p`, after `texts`, is what `whole` says. */
  ghost predicate Continues(whole: Parsed<seq<string>>, s: Bytes, p: nat, n: nat, texts: seq<string>) {
    match ReadStrings(s, p, n)
    case Done(rest, q) => whole == Done(texts + rest, q)
    case Fail(e) => whole == Fail(e)
  }

  lemma ContinuesStep(whole: Parsed<seq<string>>, s: Bytes, p: nat, n: nat, texts: seq<string>)
    requires n > 0 && Continues(whole, s, p, n, texts)
    ensures match ReadString(s, p)
            case Done(text, q) => Continues(whole, s, q, n - 1, texts + [text])
            case Fail(e) => whole == Fail(e)
  {
    hide ReadString;
    var r := ReadString(s, p);
    if r.Done? && ReadStrings(s, r.next, n - 1).Done? {
      var rest := ReadStrings(s, r.next, n - 1).value;
      assert texts + ([r.value] + rest) == (texts + [r.value]) + rest;
    }
  }

  lemma ContinuesFromStart(s: Bytes, p: nat, n: nat)
    ensures Continues(ReadStrings(s, p, n), s, p, n, [])
  {
    var r := ReadStrings(s, p, n);
    assert r.Done? ==> [] + r.value == r.value;
  }

  lemma ContinuesAtEnd(whole: Parsed<seq<string>>, s: Bytes, p: nat, texts: seq<string>)
    requires Continues(whole, s, p, 0, texts)
    ensures whole == Done(texts, p)
  {
    assert texts + [] == texts;
  }

  lemma PairUpNothing()
    ensures PairUp([]) == map[]
  {
  }

  lemma PairUpNext(texts: seq<string>, text: string)
    ensures |texts| % 2 == 0 ==> PairUp(texts + [text]) == PairUp(texts)
    ensures |texts| % 2 == 1 ==>
              PairUp(texts + [text]) == PairUp(texts)[texts[|texts| - 1] := text]
  {
    PairsPrefix(texts, [text], |texts| / 2);
  }

  class ByteBuffer {
    var data: Bytes

    constructor ()
      ensures data == []
    {
      data := [];
    }

    method Append(bytes: Bytes)
      modifies this
      ensures data == old(data) + bytes
    {
      data := data + bytes;
    }

    method WriteRaw(bytes: Bytes)
      modifies this
      ensures data == old(data) + WriteBytes(bytes)
    {
      var len := |bytes|;
      if len < 32 {
        Append([0xA0 + len]);
      } else if len < 0x1_0000 {
        Append([0xDA]);
        Append(ToBigEndian(len, 2));
      } else {
        Append([0xDB]);
        Append(ToBigEndian(len, 4));
      }
      assert data == old(data) + LengthHeader(len);
      Append(bytes);
    }

    method WriteText(text: string)
      modifies this
      ensures data == old(data) + WriteString(text)
    {
      WriteRaw(Utf8.Encode(text));
    }

    method WriteTexts(texts: seq<string>)
      modifies this
      ensures data == old(data) + WriteStringArray(texts)
    {
      hide WriteString, WriteArrayLen;
      Append(WriteArrayLen(|texts| % TWO_32));
      for i := 0 to |texts|
        invariant data + WriteStrings(texts[i..]) == old(data) + WriteStringArray(texts)
      {
        WriteText(texts[i]);
        assert texts[i..][1..] == texts[i + 1..] && texts[i..][0] == texts[i];
      }
    }
  }

  class Cursor {
    const raw: Bytes
    var pos: nat

    constructor (raw: Bytes)
      ensures this.raw == raw && pos == 0
    {
      this.raw := raw;
      pos := 0;
    }

    /** The method's outcome is what reading function `r` says. */
    ghost predicate Agrees<T>(r: Parsed<T>, outcome: Result<T, ReadError>)
      reads this
    {
      match r
      case Done(v, q) => outcome == Ok(v) && pos == q
      case Fail(e) => outcome == Err(e)
    }

    method ReadExact(w: nat) returns (r: Result<Bytes, ReadError>)
      modifies this`pos
      ensures if old(pos) + w <= |raw| then r == Ok(raw[old(pos)..old(pos) + w]) && pos == old(pos) + w
              else r == Err(UnexpectedEof)
    {
      if pos + w > |raw| {
        return Err(UnexpectedEof);
      }
      r := Ok(raw[pos..pos + w]);
      pos := pos + w;
    }

    method ReadUnsigned(w: nat) returns (r: Result<nat, ReadError>)
      modifies this`pos
      ensures Agrees(ReadUint(raw, old(pos), w), r)
    {
      var bytes :- ReadExact(w);
      return Ok(BigEndian(bytes));
    }

    method ReadInteger(lo: int, hi: int) returns (r: Result<int, ReadError>)
      modifies this`pos
      ensures Agrees(ReadInt(raw, old(pos), lo, hi), r)
    {
      var marker :- ReadExact(1);
      var n: int;
      if marker[0] < 0x80 {
        n := marker[0];
      } else if marker[0] >= 0xE0 {
        n := marker[0] as int - 0x100;
      } else {
        match IntWidth(marker[0])
        case None => return Err(TypeMismatch);
        case Some((w, signed)) =>
          var u :- ReadUnsigned(w);
          n := if signed then Signed(u, w) else u;
      }
      if lo <= n <= hi {
        return Ok(n);
      } else {
        return Err(OutOfRange);
      }
    }

    method ReadRaw() returns (r: Result<Bytes, ReadError>)
      modifies this`pos
      ensures Agrees(ReadStrOrBin(raw, old(pos)), r)
    {
      var marker :- ReadExact(1);
      var len: nat;
      if 0xA0 <= marker[0] < 0xC0 {
        len := marker[0] as int - 0xA0;
      } else {
        match LengthWidth(marker[0])
        case None => return Err(TypeMismatch);
        case Some(w) => len :- ReadUnsigned(w);
      }
      r := ReadExact(len);
    }

    method ReadText() returns (r: Result<string, ReadError>)
      modifies this`pos
      ensures Agrees(ReadString(raw, old(pos)), r)
    {
      var bytes :- ReadRaw();
      match Utf8.Decode(bytes)
      case None => return Err(InvalidUtf8);
      case Some(text) => return Ok(text);
    }

    method ReadArrayLength() returns (r: Result<nat, ReadError>)
      modifies this`pos
      ensures Agrees(ReadArrayLen(raw, old(pos)), r)
    {
      var marker :- ReadExact(1);
      if 0x90 <= marker[0] < 0xA0 {
        return Ok(marker[0] as int - 0x90);
      }
      match ArrayWidth(marker[0])
      case None => return Err(TypeMismatch);
      case Some(w) => r := ReadUnsigned(w);
    }

    method ReadTexts() returns (r: Result<seq<string>, ReadError>)
      modifies this`pos
      ensures Agrees(ReadStringArray(raw, old(pos)), r)
    {
      hide ReadString, ReadStrings, Continues;
      var n :- ReadArrayLength();
      ghost var whole := ReadStrings(raw, pos, n);
      var texts := [];
      ContinuesFromStart(raw, pos, n);
      for i := 0 to n
        invariant |texts| == i && Continues(whole, raw, pos, n - i, texts)
      {
        ContinuesStep(whole, raw, pos, n - i, texts);
        var text :- ReadText();
        texts := texts + [text];
      }
      ContinuesAtEnd(whole, raw, pos, texts);
      return Ok(texts);
    }

    /** The array of alternating keys and values, inserted pair by pair. */
    method ReadPairs() returns (r: Result<map<string, string>, ReadError>)
      modifies this`pos
      ensures match ReadStringArray(raw, old(pos))
              case Done(xs, q) => r == Ok(PairUp(xs)) && pos == q
              case Fail(e) => r == Err(e)
    {
      hide ReadString, ReadStrings, Continues, PairUp;
      PairUpNothing();
      var n :- ReadArrayLength();
      ghost var whole := ReadStrings(raw, pos, n);
      var fields: map<string, string> := map[];
      var key: Option<string> := None;
      ghost var texts: seq<string> := [];
      ContinuesFromStart(raw, pos, n);
      for i := 0 to n
        invariant |texts| == i && Continues(whole, raw, pos, n - i, texts)
        invariant fields == PairUp(texts)
        invariant key == if i % 2 == 1 then Some(texts[i - 1]) else None
      {
        ContinuesStep(whole, raw, pos, n - i, texts);
        var val :- ReadText();
        PairUpNext(texts, val);
        texts := texts + [val];
        match key {
          case Some(k) =>
            fields := fields[k := val];
            key := None;
          case None =>
            key := Some(val);
        }
      }
      ContinuesAtEnd(whole, raw, pos, texts);
      return Ok(fields);
    }
  }

  /** One more field of a list, and what its failure means for the whole list. */
  lemma {:induction false} ReadFieldsNext(s: Bytes, p: nat, kinds: seq<Kind>, i: nat)
    requires i < |kinds| && ReadFields(s, p, kinds[..i]).Done?
    ensures var (fs, q) := ReadFields(s, p, kinds[..i]).Extract();
            match ReadField(s, q, kinds[i])
            case Done(f, q') => ReadFields(s, p, kinds[..i + 1]) == Done(fs + [f], q')
            case Fail(e) => ReadFields(s, p, kinds) == Fail(e)
    decreases i
  {
    hide ReadField;
    if i > 0 {
      assert kinds[..i][1..] == kinds[1..][..i - 1] && kinds[..i + 1][1..] == kinds[1..][..i];
      assert kinds[..i][0] == kinds[0] == kinds[..i + 1][0];
      var first := ReadField(s, p, kinds[0]);
      ReadFieldsNext(s, first.next, kinds[1..], i - 1);
      assert forall fs: seq<Field>, f: Field :: [first.value] + (fs + [f]) == ([first.value] + fs) + [f];
    } else {
      ReadOneField(s, p, kinds[0]);
      assert forall f: Field :: [] + [f] == [f];
      assert kinds[..1] == [kinds[0]] && kinds[..0] == [];
    }
  }

  lemma ReadOneField(s: Bytes, p: nat, kind: Kind)
    ensures match ReadField(s, p, kind)
            case Done(f, q) => ReadFields(s, p, [kind]) == Done([f], q)
            case Fail(e) => ReadFields(s, p, [kind]) == Fail(e)
  {
    hide ReadField;
    assert [kind][1..] == [];
    assert forall f: Field :: [f] + [] == [f];
  }

  lemma ReadNoFields(s: Bytes, p: nat, kinds: seq<Kind>)
    ensures ReadFields(s, p, kinds[..0]) == Done([], p)
  {
  }

  method ReadEnvelope(c: Cursor) returns (r: Result<Envelope, ReadError>)
    modifies c`pos
    ensures match ReadFields(c.raw, old(c.pos), ENVELOPE)
            case Done(fs, q) => r == Ok(EnvelopeFrom(fs)) && c.pos == q
            case Fail(e) => r == Err(e)
  {
    hide ReadString, ReadStringArray, ReadStrOrBin, ReadFields;
    ghost var p, kinds := c.pos, ENVELOPE;
    ReadNoFields(c.raw, p, kinds);
    ReadFieldsNext(c.raw, p, kinds, 0);
    var messageId :- c.ReadText();
    ReadFieldsNext(c.raw, p, kinds, 1);
    var sourceClientId :- c.ReadText();
    ReadFieldsNext(c.raw, p, kinds, 2);
    var sourceBrokerId :- c.ReadText();
    ReadFieldsNext(c.raw, p, kinds, 3);
    var brokerIds :- c.ReadTexts();
    ReadFieldsNext(c.raw, p, kinds, 4);
    var clientIds :- c.ReadTexts();
    ReadFieldsNext(c.raw, p, kinds, 5);
    var payload :- c.ReadRaw();
    assert kinds[..6] == kinds;
    return Ok(Envelope(messageId, sourceClientId, sourceBrokerId, brokerIds, clientIds, payload));
  }

  method ReadTyped(c: Cursor, messageType: byte) returns (r: Result<Typed, ReadError>)
    modifies c`pos
    ensures match ReadFields(c.raw, old(c.pos), TypedKinds(messageType))
            case Done(fs, q) => r == Ok(TypedFrom(messageType, fs)) && c.pos == q
            case Fail(e) => r == Err(e)
  {
    hide ReadString, ReadErrorCode, ReadFields;
    ghost var p, kinds := c.pos, TypedKinds(messageType);
    assert kinds[..|kinds|] == kinds;
    ReadNoFields(c.raw, p, kinds);
    if messageType == REQUEST {
      ReadFieldsNext(c.raw, p, kinds, 0);
      var replyToTopic :- c.ReadText();
      ReadFieldsNext(c.raw, p, kinds, 1);
      var serviceId :- c.ReadText();
      return Ok(Typed(Some(replyToTopic), Some(serviceId), None, None, None));
    } else if messageType == RESPONSE {
      ReadFieldsNext(c.raw, p, kinds, 0);
      var requestMessageId :- c.ReadText();
      ReadFieldsNext(c.raw, p, kinds, 1);
      var serviceId :- c.ReadText();
      return Ok(Typed(None, Some(serviceId), Some(requestMessageId), None, None));
    } else if messageType == ERROR {
      ReadFieldsNext(c.raw, p, kinds, 0);
      var requestMessageId :- c.ReadText();
      ReadFieldsNext(c.raw, p, kinds, 1);
      var serviceId :- c.ReadText();
      ReadFieldsNext(c.raw, p, kinds, 2);
      var code :- ReadCode(c);
      ReadFieldsNext(c.raw, p, kinds, 3);
      var errorMessage :- c.ReadText();
      return Ok(Typed(None, Some(serviceId), Some(requestMessageId), Some(code), Some(errorMessage)));
    } else if messageType != EVENT {
      ReadFieldsNext(c.raw, p, kinds, 0);
      return Err(UnknownMessageType);
    }
    return Ok(Typed(None, None, None, None, None));
  }

  method ReadCode(c: Cursor) returns (r: Result<i32, ReadError>)
    modifies c`pos
    ensures c.Agrees(ReadErrorCode(c.raw, old(c.pos)), r)
  {
    var rawCode :- c.ReadInteger(I64_MIN, I64_MAX);
    if !(I32_MIN <= rawCode < TWO_32) {
      return Err(ErrorCodeOutOfRange);
    }
    return Ok(ToI32(rawCode));
  }

  method ReadVersioned(c: Cursor, version: byte) returns (r: Result<Versioned, ReadError>)
    modifies c`pos
    ensures match ReadFields(c.raw, old(c.pos), VersionedKinds(version))
            case Done(fs, q) => r == Ok(VersionedFrom(version, fs)) && c.pos == q
            case Fail(e) => r == Err(e)
  {
    hide ReadString, ReadStringArray, ReadFields, PairUp;
    ghost var p, kinds := c.pos, VersionedKinds(version);
    assert kinds[..|kinds|] == kinds;
    ReadNoFields(c.raw, p, kinds);
    var otherFields: map<string, string> := map[];
    if version >= 1 {
      ReadFieldsNext(c.raw, p, kinds, 0);
      otherFields :- c.ReadPairs();
    }
    var sourceTenantGuid: Option<string> := None;
    var destinationTenantGuids: seq<string> := [];
    if version >= 2 {
      ReadFieldsNext(c.raw, p, kinds, 1);
      var tenant :- c.ReadText();
      sourceTenantGuid := Some(tenant);
      ReadFieldsNext(c.raw, p, kinds, 2);
      destinationTenantGuids :- c.ReadTexts();
    }
    var sourceClientInstanceId: Option<string> := None;
    if version >= 3 {
      ReadFieldsNext(c.raw, p, kinds, 3);
      var instance :- c.ReadText();
      sourceClientInstanceId := Some(instance);
    }
    return Ok(Versioned(otherFields, sourceTenantGuid, destinationTenantGuids, sourceClientInstanceId));
  }

  /** The parser computes `Parse`. */
  method ParseDxlMessage(raw: Bytes) returns (r: Result<Message, ReadError>)
    ensures match Parse(raw)
            case Done(m, _) => r == Ok(m)
            case Fail(e) => r == Err(e)
  {
    hide ReadInt, ReadFields, EnvelopeFrom, TypedFrom, VersionedFrom, AllFit;
    var c := new Cursor(raw);
    var version :- c.ReadInteger(0, 0xFF);
    var messageType :- c.ReadInteger(0, 0xFF);
    var e :- ReadEnvelope(c);
    var t :- ReadTyped(c, messageType);
    var v :- ReadVersioned(c, version);
    return Ok(Assemble(version, messageType, e, t, v));
  }

  lemma {:induction false} WriteFieldsSnoc(fs: seq<Field>, f: Field)
    ensures WriteFields(fs + [f]) == WriteFields(fs) + WriteField(f)
    decreases |fs|
  {
    hide WriteField;
    if fs == [] {
      assert [f][1..] == [] && fs + [f] == [f];
    } else {
      assert (fs + [f])[1..] == fs[1..] + [f];
      WriteFieldsSnoc(fs[1..], f);
    }
  }

  lemma WriteNoFields()
    ensures WriteFields([]) == []
  {
  }

  lemma WriteOneField(f: Field)
    ensures WriteFields([f]) == WriteField(f)
  {
    assert [f][1..] == [];
  }

  method WriteEnvelope(b: ByteBuffer, m: Message)
    modifies b
    ensures b.data == old(b.data) + WriteFields(EnvelopeFields(m))
  {
    hide WriteString, WriteStringArray, WriteBytes, WriteFields;
    ghost var fs: seq<Field> := [];
    WriteNoFields();
    b.WriteText(m.messageId);
    WriteFieldsSnoc(fs, TextField(m.messageId));
    fs := fs + [TextField(m.messageId)];
    b.WriteText(m.sourceClientId);
    WriteFieldsSnoc(fs, TextField(m.sourceClientId));
    fs := fs + [TextField(m.sourceClientId)];
    b.WriteText(m.sourceBrokerId);
    WriteFieldsSnoc(fs, TextField(m.sourceBrokerId));
    fs := fs + [TextField(m.sourceBrokerId)];
    b.WriteTexts(m.brokerIds);
    WriteFieldsSnoc(fs, TextsField(m.brokerIds));
    fs := fs + [TextsField(m.brokerIds)];
    b.WriteTexts(m.clientIds);
    WriteFieldsSnoc(fs, TextsField(m.clientIds));
    fs := fs + [TextsField(m.clientIds)];
    b.WriteRaw(m.payload);
    WriteFieldsSnoc(fs, BlobField(m.payload));
    fs := fs + [BlobField(m.payload)];
    assert fs == EnvelopeFields(m);
  }

  method WriteTwoTexts(b: ByteBuffer, x: string, y: string)
    modifies b
    ensures b.data == old(b.data) + WriteFields([TextField(x), TextField(y)])
  {
    hide WriteString, WriteFields;
    b.WriteText(x);
    b.WriteText(y);
    WriteOneField(TextField(x));
    WriteFieldsSnoc([TextField(x)], TextField(y));
    assert [TextField(x)] + [TextField(y)] == [TextField(x), TextField(y)];
  }

  method WriteTyped(b: ByteBuffer, m: Message)
    modifies b
    ensures b.data == old(b.data) + WriteFields(TypedFields(m))
  {
    hide WriteString, WriteSint, WriteFields;
    if m.messageType == REQUEST {
      WriteTwoTexts(b, m.replyToTopic.GetOr(""), m.serviceId.GetOr(""));
    } else if m.messageType == RESPONSE {
      WriteTwoTexts(b, m.requestMessageId.GetOr(""), m.serviceId.GetOr(""));
    } else if m.messageType == ERROR {
      WriteTwoTexts(b, m.requestMessageId.GetOr(""), m.serviceId.GetOr(""));
      ghost var fs := TypedFields(m);
      b.Append(WriteSint(m.errorCode.GetOr(0)));
      WriteFieldsSnoc(fs[..2], fs[2]);
      b.WriteText(m.errorMessage.GetOr(""));
      WriteFieldsSnoc(fs[..3], fs[3]);
      assert fs[..2] == [fs[0], fs[1]] && fs[..2] + [fs[2]] == fs[..3] && fs[..3] + [fs[3]] == fs;
    } else {
      WriteNoFields();
    }
  }

  lemma {:induction false} WriteStringsSnoc(xs: seq<string>, x: string)
    ensures WriteStrings(xs + [x]) == WriteStrings(xs) + WriteString(x)
    decreases |xs|
  {
    hide WriteString;
    if xs == [] {
      assert [x][1..] == [] && xs + [x] == [x];
    } else {
      assert (xs + [x])[1..] == xs[1..] + [x];
      WriteStringsSnoc(xs[1..], x);
    }
  }

  lemma WritePairsNext(keys: seq<string>, i: nat, fields: map<string, string>)
    requires i < |keys| && forall k :: k in keys ==> k in fields
    ensures WriteStrings(Flatten(keys[..i + 1], fields))
         == WriteStrings(Flatten(keys[..i], fields)) + WriteString(keys[i]) + WriteString(fields[keys[i]])
  {
    hide WriteString;
    var k, flat := keys[i], Flatten(keys[..i], fields);
    assert keys[..i + 1][..i] == keys[..i];
    assert Flatten(keys[..i + 1], fields) == (flat + [k]) + [fields[k]];
    WriteStringsSnoc(flat, k);
    WriteStringsSnoc(flat + [k], fields[k]);
  }

  /** The fields of a message as one array: the keys are sorted first, so that
      the hash map's own order does not show. */
  method WritePairs(b: ByteBuffer, fields: map<string, string>, order: seq<string>)
    requires Enumerates(order, fields.Keys)
    requires forall k :: k in KeyOrder.Sort(order) ==> k in fields
    modifies b
    ensures b.data == old(b.data) + WriteStringArray(Flatten(KeyOrder.Sort(order), fields))
  {
    hide WriteString, WriteStrings, WriteArrayLen, Flatten, KeyOrder.Sort;
    var keys := KeyOrder.Sort(order);
    KeyOrder.SortEnumerates(order, fields.Keys);
    EnumerationLength(keys, fields.Keys);
    b.Append(WriteArrayLen((|fields| * 2) % TWO_32));
    ghost var before := b.data;
    WriteNoPairs(keys[..0], fields);
    for i := 0 to |keys|
      invariant b.data == before + WriteStrings(Flatten(keys[..i], fields))
    {
      b.WriteText(keys[i]);
      b.WriteText(fields[keys[i]]);
      WritePairsNext(keys, i, fields);
    }
    assert keys[..|keys|] == keys;
  }

  lemma WriteNoPairs(keys: seq<string>, fields: map<string, string>)
    requires keys == []
    ensures WriteStrings(Flatten(keys, fields)) == []
  {
  }

  method WriteVersioned(b: ByteBuffer, m: Message, order: seq<string>)
    requires Enumerates(order, m.otherFields.Keys)
    modifies b
    ensures b.data == old(b.data) + WriteFields(VersionedFields(m, order))
  {
    hide WriteString, WriteStringArray, WriteFields, KeyOrder.Sort;
    ghost var before := b.data;
    ghost var fs: seq<Field> := [];
    WriteNoFields();
    KeyOrder.SortEnumerates(order, m.otherFields.Keys);
    if m.version >= 1 {
      WritePairs(b, m.otherFields, order);
      ghost var f := TextsField(Flatten(KeyOrder.Sort(order), m.otherFields));
      WriteOneField(f);
      fs := [f];
    }
    if m.version >= 2 {
      b.WriteText(m.sourceTenantGuid.GetOr(""));
      WriteFieldsSnoc(fs, TextField(m.sourceTenantGuid.GetOr("")));
      fs := fs + [TextField(m.sourceTenantGuid.GetOr(""))];
      b.WriteTexts(m.destinationTenantGuids);
      WriteFieldsSnoc(fs, TextsField(m.destinationTenantGuids));
      fs := fs + [TextsField(m.destinationTenantGuids)];
    }
    if m.version >= 3 {
      b.WriteText(m.sourceClientInstanceId.GetOr(""));
      WriteFieldsSnoc(fs, TextField(m.sourceClientInstanceId.GetOr("")));
      fs := fs + [TextField(m.sourceClientInstanceId.GetOr(""))];
    }
    assert fs == VersionedFields(m, order);
  }

  /** The encoder computes `Encode`; `order` is how the hash map happened to
      list its keys. */
  method EncodeDxlMessage(m: Message, order: seq<string>) returns (bytes: Bytes)
    requires Enumerates(order, m.otherFields.Keys)
    ensures bytes == Encode(m, order)
  {
    hide WriteUint, WriteFields, EnvelopeFields, TypedFields, VersionedFields;
    var b := new ByteBuffer();
    b.Append(WriteUint(m.version));
    b.Append(WriteUint(m.messageType));
    WriteEnvelope(b, m);
    WriteTyped(b, m);
    WriteVersioned(b, m, order);
    bytes := b.data;
  }
}
