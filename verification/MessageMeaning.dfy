/** What the main loop makes of a single message, from the message's own fields:
    whom it believes, what it hands the engine and what record it emits. */
module MessageMeaning {
  import opened Prelude
  import opened Json
  import opened Text
  import opened Registry
  import opened Ocsf
  import opened MainLoop
  import Dxl = DxlMessage
  import Utf8

  // The two guards

  /** The JSON value a message carries, if its payload is JSON text. */
  function JsonOf(env: Env, m: Dxl.Message): Option<Value> {
    match Utf8.Decode(m.payload)
    case Some(raw) => env.parse(raw)
    case None => None
  }

  /** The envelope check lets a message through exactly if its topic is not the
      brokers', or is one of theirs and the sender can be a broker: it has an id
      that is no thumbprint, presents no client certificate, claims no GUID in a
      broker state but its own, and is known once any broker is. */
  lemma EnvelopeExactly(env: Env, brokers: map<string, Value>, topic: string, m: Dxl.Message)
    ensures EnvelopeSpoof(env, brokers, topic, m).None?
       <==> || !StartsWith(topic, "/mcafee/event/dxl/")
            || (&& KnownBrokerTopic(topic)
                && !AllWhitespace(m.sourceClientId)
                && !("dxl.certs" in m.otherFields && !AllWhitespace(m.otherFields["dxl.certs"]))
                && !IsHexThumbprint(m.sourceClientId)
                && (topic == "/mcafee/event/dxl/brokerregistry/brokerstate" && JsonOf(env, m).Some? ==>
                      forall g :: JsonOf(env, m).value.GetStr("guid") == Some(g) ==> g == m.sourceClientId)
                && (brokers != map[] ==> m.sourceClientId in brokers))
  {
    NamedTopics(topic);
    KnownTopicsExactly(topic);
    BlankExactly(m.sourceClientId);
    if "dxl.certs" in m.otherFields {
      BlankExactly(m.otherFields["dxl.certs"]);
    }
    hide KindOf, KnownBrokerTopic, StartsWith, IsHexThumbprint, Blank, AllWhitespace, Utf8.Decode;
  }

  /** The engine's own guard turns away less: it knows only the event. */
  lemma EngineGuardExactly(brokers: map<string, Value>, e: Event, now: int)
    ensures SpoofAlert(brokers, e, now).None?
       <==> || !StartsWith(e.topic, "/mcafee/event/dxl/")
            || (&& KnownBrokerTopic(e.topic)
                && !AllWhitespace(e.source)
                && (e.topic == "/mcafee/event/dxl/brokerregistry/brokerstate" ==>
                      && !IsHexThumbprint(e.source)
                      && forall g :: e.payload.GetStr("guid") == Some(g) ==> g == e.source)
                && (brokers != map[] ==> e.source in brokers))
  {
    NamedTopics(e.topic);
    KnownTopicsExactly(e.topic);
    BlankExactly(e.source);
    assert e.source == "" ==> AllWhitespace(e.source);
    hide KindOf, KnownBrokerTopic, StartsWith, IsHexThumbprint, Blank, AllWhitespace, PublisherOf;
  }

  /** A message reaches the engine as an event exactly if it is not on the reply
      topic and passes the envelope check. */
  lemma ForEngineExactly(env: Env, s: Sensor, topic: string, m: Dxl.Message)
    ensures DispatchOf(env, s, topic, m) == ForEngine
       <==> topic != env.replyTopic && EnvelopeSpoof(env, s.engine.brokers, topic, m).None?
  {
    hide EnvelopeSpoof;
  }

  /** A message the envelope check turns away is reported once, with its publisher,
      the certificate it presents or else its sender, and its topic. */
  lemma SpoofReportExactly(env: Env, s: Sensor, topic: string, raw: Bytes, at: int)
    requires Dxl.Parse(raw).Done?
    ensures var m := Dxl.Parse(raw).value;
            var publisher := if CertThumbprint(m).Some? then CertThumbprint(m).value else m.sourceClientId;
            SpoofReport(env, s, Publish(topic, raw), at)
            == if topic != env.replyTopic && EnvelopeSpoof(env, s.engine.brokers, topic, m).Some? then
                 [Alert(at, SpoofedBrokerEvent, [publisher, topic], if publisher == "" then None else Some(publisher))]
               else []
  {
    hide Dxl.Parse, EnvelopeSpoof, CertThumbprint;
  }

  // Publishers

  lemma {:induction false} LastOfBlank(a: seq<string>, b: seq<string>)
    requires forall i :: 0 <= i < |b| ==> AllWhitespace(b[i])
    ensures LastNonBlank(a + b) == LastNonBlank(a)
    decreases |b|
  {
    hide Trim, AllWhitespace;
    if b == [] {
      assert a + b == a;
    } else {
      assert (a + b)[..|a + b| - 1] == a + b[..|b| - 1];
      BlankExactly(b[|b| - 1]);
      LastOfBlank(a, b[..|b| - 1]);
    }
  }

  lemma {:induction false} BlankPieces(rest: string)
    requires forall i :: 0 <= i < |rest| ==> rest[i] == ';' || IsWhitespace(rest[i])
    ensures forall i :: 0 <= i < |Split(rest, ';')| ==> AllWhitespace(Split(rest, ';')[i])
  {
    hide IsWhitespace;
    if rest == [] {
    } else {
      BlankPieces(rest[1..]);
    }
  }

  /** The certificate a message presents: the last of the `;`-separated ones that is
      not blank, trimmed. */
  lemma CertExactly(m: Dxl.Message, front: seq<string>, certs: string, rest: string)
    requires "dxl.certs" in m.otherFields
    requires Split(m.otherFields["dxl.certs"], ';') == front + [certs] + Split(rest, ';')
    requires !AllWhitespace(certs)
    requires forall i :: 0 <= i < |rest| ==> rest[i] == ';' || IsWhitespace(rest[i])
    ensures CertThumbprint(m) == Some(Trim(certs))
  {
    BlankPieces(rest);
    hide Trim, Split, AllWhitespace, IsWhitespace;
    BlankExactly(certs);
    LastOfBlank(front + [certs], Split(rest, ';'));
    assert (front + [certs])[..|front|] == front;
  }

  /** Without the field, or with nothing but separators in it, there is none. */
  lemma NoCertExactly(m: Dxl.Message)
    requires "dxl.certs" in m.otherFields ==>
               forall i :: 0 <= i < |m.otherFields["dxl.certs"]| ==>
                 m.otherFields["dxl.certs"][i] == ';' || IsWhitespace(m.otherFields["dxl.certs"][i])
    ensures CertThumbprint(m) == None
  {
    if "dxl.certs" in m.otherFields {
      var certs := m.otherFields["dxl.certs"];
      BlankPieces(certs);
      hide Trim, Split, AllWhitespace, IsWhitespace;
      LastOfBlank([], Split(certs, ';'));
      assert [] + Split(certs, ';') == Split(certs, ';');
    }
  }

  /** The publisher of an event is the certificate it came with, trimmed, or else
      the client that sent it. */
  lemma PublisherExactly(e: Event)
    ensures PublisherOf(e)
         == if e.cert.Some? && !AllWhitespace(e.cert.value) then Trim(e.cert.value) else e.source
  {
    if e.cert.Some? {
      BlankExactly(e.cert.value);
    }
    hide Trim, AllWhitespace;
  }

  /** The event the engine is given: the topic and the sender as they are, and the
      payload as JSON if it is JSON, as text if it is other text, and as null if
      it is blank or no text. */
  lemma EventExactly(env: Env, topic: string, m: Dxl.Message)
    ensures var e, text := EventOf(env, topic, m), Utf8.Decode(m.payload);
            && e.topic == topic && e.source == m.sourceClientId && e.cert == CertThumbprint(m)
            && (text.None? || AllWhitespace(text.value) ==> e.payload == Null)
            && (text.Some? && !AllWhitespace(text.value) ==>
                  e.payload == if JsonOf(env, m).Some? then JsonOf(env, m).value else Str(text.value))
  {
    var text := Utf8.Decode(m.payload);
    if text.Some? {
      BlankExactly(text.value);
    }
    hide Utf8.Decode, CertThumbprint, Blank, AllWhitespace;
  }

  // Records

  /** Records are made of genuine messages on four topics whose payload is JSON, and
      of no others. */
  lemma RecordedExactly(env: Env, st: State, topic: string, m: Dxl.Message)
    ensures Normalize(env, st, topic, m).Some?
       <==> && EnvelopeSpoof(env, st.brokers, topic, m).None? && JsonOf(env, m).Some?
            && (|| topic == "/mcafee/event/dxl/clientregistry/connect"
                || topic == "/mcafee/event/dxl/clientregistry/disconnect"
                || topic == "/mcafee/event/dxl/svcregistry/register"
                || topic == "/mcafee/event/dxl/svcregistry/unregister")
  {
    NamedTopics(topic);
    hide EnvelopeSpoof, KindOf, Utf8.Decode;
  }

  /** The record of a connect or disconnect event: its numbers, and from the payload
      the client, the protocol and the TLS parameters. */
  lemma NetworkExactly(env: Env, st: State, topic: string, m: Dxl.Message)
    requires Normalize(env, st, topic, m).Some?
    requires || topic == "/mcafee/event/dxl/clientregistry/connect"
             || topic == "/mcafee/event/dxl/clientregistry/disconnect"
    ensures var r, v := Normalize(env, st, topic, m).value, JsonOf(env, m).value;
            && r.NetworkActivity?
            && (topic == "/mcafee/event/dxl/clientregistry/connect" ==> r.header == Header(4001, "Connect", 1, 400101))
            && (topic == "/mcafee/event/dxl/clientregistry/disconnect" ==>
                  r.header == Header(4001, "Disconnect", 1, 400102))
            && r.protocolName == v.GetStr("protocol")
            && var version, cipher, cert := v.GetStr("tlsVersion"), v.GetStr("cipher"), v.GetStr("certThumbprint");
               (r.tls.None? <==> version.None? && cipher.None? && cert.None?)
               && (r.tls.Some? ==>
                     && r.tls.value.version == (if version.Some? then version.value else "")
                     && r.tls.value.cipherSuites == (if cipher.Some? then [cipher.value] else [])
                     && r.tls.value.fingerprint == cert)
  {
    NamedTopics(topic);
    hide EnvelopeSpoof, KindOf, Utf8.Decode, Split, StartsWith;
  }

  /** A network record is made of the payload alone. */
  lemma NormalizedNetwork(env: Env, st: State, topic: string, m: Dxl.Message) returns (connect: bool)
    requires Normalize(env, st, topic, m).Some? && Normalize(env, st, topic, m).value.NetworkActivity?
    ensures JsonOf(env, m).Some? && Normalize(env, st, topic, m).value == NetworkRecord(JsonOf(env, m).value, connect)
  {
    hide EnvelopeSpoof, KindOf, Utf8.Decode, NetworkRecord;
    connect := KindOf(topic) == Connect;
  }

  lemma ClientParts(v: Value, connect: bool, client: string, rest: string)
    requires ':' !in client
    ensures var r, named := NetworkRecord(v, connect), v.GetStr("clientGuid");
            && (named == Some(client) ==> r.clientGuid == client && r.clientInstanceGuid == None)
            && (named == Some(client + ":" + rest) ==>
                  r.clientGuid == client && r.clientInstanceGuid == Some(Split(rest, ':')[0]))
  {
    SplitWithout(client, ':');
    SplitJoin(client, ':', rest);
    hide Split, StartsWith;
  }

  lemma ClientUnknown(v: Value, connect: bool)
    requires v.GetStr("clientGuid") == None
    ensures var r := NetworkRecord(v, connect);
            r.clientGuid == "unknown" && r.clientInstanceGuid == None
  {
    SplitWithout("unknown", ':');
    hide Split, StartsWith;
  }

  /** Whose connection it is: the client id up to its first colon, its instance from
      there to the next one, and `unknown` if the payload names nobody. */
  lemma NetworkClient(env: Env, st: State, topic: string, m: Dxl.Message, client: string, rest: string)
    requires Normalize(env, st, topic, m).Some? && Normalize(env, st, topic, m).value.NetworkActivity?
    requires ':' !in client
    ensures JsonOf(env, m).Some?
    ensures var r, named := Normalize(env, st, topic, m).value, JsonOf(env, m).value.GetStr("clientGuid");
            && (named == Some(client) ==> r.clientGuid == client && r.clientInstanceGuid == None)
            && (named == Some(client + ":" + rest) ==>
                  r.clientGuid == client && r.clientInstanceGuid == Some(Split(rest, ':')[0]))
            && (named == None ==> r.clientGuid == "unknown" && r.clientInstanceGuid == None)
  {
    hide Normalize, NetworkRecord, JsonOf, Split;
    var connect := NormalizedNetwork(env, st, topic, m);
    ClientParts(JsonOf(env, m).value, connect, client, rest);
    if JsonOf(env, m).value.GetStr("clientGuid") == None {
      ClientUnknown(JsonOf(env, m).value, connect);
    }
  }

  lemma AddressPart(v: Value, connect: bool, address: string)
    ensures var r, named := NetworkRecord(v, connect), v.GetStr("remoteAddress");
            && (named == Some("::ffff:" + address) ==> r.srcIp == Some(address))
            && (named == Some(address) && !StartsWith(address, "::ffff:") ==> r.srcIp == Some(address))
            && (named == None ==> r.srcIp == None)
  {
    hide Split;
    assert ("::ffff:" + address)[7..] == address;
  }

  /** Where it comes from: the remote address, an IPv4 one without its mapped prefix. */
  lemma NetworkAddress(env: Env, st: State, topic: string, m: Dxl.Message, address: string)
    requires Normalize(env, st, topic, m).Some? && Normalize(env, st, topic, m).value.NetworkActivity?
    ensures JsonOf(env, m).Some?
    ensures var r, named := Normalize(env, st, topic, m).value, JsonOf(env, m).value.GetStr("remoteAddress");
            && (named == Some("::ffff:" + address) ==> r.srcIp == Some(address))
            && (named == Some(address) && !StartsWith(address, "::ffff:") ==> r.srcIp == Some(address))
            && (named == None ==> r.srcIp == None)
  {
    hide Normalize, NetworkRecord, JsonOf, StartsWith;
    var connect := NormalizedNetwork(env, st, topic, m);
    AddressPart(JsonOf(env, m).value, connect, address);
  }

  /** The record of a register event, and of an unregister event of a service that
      is or is not still stored. */
  lemma ServiceRecordExactly(env: Env, st: State, topic: string, m: Dxl.Message)
    requires Normalize(env, st, topic, m).Some?
    requires topic == "/mcafee/event/dxl/svcregistry/register" || topic == "/mcafee/event/dxl/svcregistry/unregister"
    ensures var r, v := Normalize(env, st, topic, m).value, JsonOf(env, m).value;
            && r.ApiActivity? && r.actor == v.GetStr("clientGuid")
            && r.serviceUid == (if v.GetStr("serviceGuid").Some? then v.GetStr("serviceGuid").value else "unknown")
            && (topic == "/mcafee/event/dxl/svcregistry/register" ==>
                  && r.header == Header(6003, "Register Service", 1, 600301) && r.operation == "register"
                  && r.serviceName
                     == if v.GetStr("serviceType").Some? then v.GetStr("serviceType").value else "unknown")
            && (topic == "/mcafee/event/dxl/svcregistry/unregister" ==>
                  && r.header == Header(6003, "Unregister Service", 1, 600304) && r.operation == "unregister"
                  && r.serviceName
                     == if r.serviceUid in st.services then st.services[r.serviceUid].serviceType else "unknown")
  {
    NamedTopics(topic);
    hide EnvelopeSpoof, KindOf, Utf8.Decode;
  }
}
