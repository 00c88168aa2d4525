/** Printing records as CEF lines: the escaping passes, the line, and a reader
    that takes it apart again. */
module Cef {
  import opened Prelude
  import opened Text
  import opened Ocsf
  import KeyOrder

  // Escaping, as chains of replacements

  function Replace(s: string, c: char, with: string): string {
    if s == [] then [] else (if s[0] == c then with else [s[0]]) + Replace(s[1..], c, with)
  }

  function DropControls(s: string): string {
    if s == [] then [] else (if IsControl(s[0]) then [] else [s[0]]) + DropControls(s[1..])
  }

  /** The replacements both kinds of text go through; `special` is the one
      character that is escaped besides the backslash. */
  function EscapePasses(s: string, special: char): string {
    var escaped := Replace(Replace(s, '\\', "\\\\"), special, ['\\', special]);
    DropControls(Replace(Replace(escaped, '\n', "\\n"), '\r', "\\r"))
  }

  function EscapeHeader(s: string): string { EscapePasses(s, '|') }

  function EscapeExtension(s: string): string { EscapePasses(s, '=') }

  // Escaping, one character at a time

  function EscapeChar(c: char, special: char): string {
    if c == '\\' || c == special then ['\\', c]
    else if c == '\n' then "\\n"
    else if c == '\r' then "\\r"
    else if IsControl(c) then []
    else [c]
  }

  function Escape(s: string, special: char): string {
    if s == [] then [] else EscapeChar(s[0], special) + Escape(s[1..], special)
  }

  lemma {:induction false} ReplaceJoin(a: string, b: string, c: char, with: string)
    ensures Replace(a + b, c, with) == Replace(a, c, with) + Replace(b, c, with)
    decreases |a|
  {
    if a == [] {
      assert a + b == b;
    } else {
      assert (a + b)[1..] == a[1..] + b;
      ReplaceJoin(a[1..], b, c, with);
    }
  }

  lemma {:induction false} DropControlsJoin(a: string, b: string)
    ensures DropControls(a + b) == DropControls(a) + DropControls(b)
    decreases |a|
  {
    if a == [] {
      assert a + b == b;
    } else {
      assert (a + b)[1..] == a[1..] + b;
      DropControlsJoin(a[1..], b);
    }
  }

  predicate Special(c: char) { c == '|' || c == '=' }

  lemma PassesJoin(a: string, b: string, special: char)
    ensures EscapePasses(a + b, special) == EscapePasses(a, special) + EscapePasses(b, special)
  {
    hide Replace, DropControls;
    var a1, b1 := Replace(a, '\\', "\\\\"), Replace(b, '\\', "\\\\");
    ReplaceJoin(a, b, '\\', "\\\\");
    var a2, b2 := Replace(a1, special, ['\\', special]), Replace(b1, special, ['\\', special]);
    ReplaceJoin(a1, b1, special, ['\\', special]);
    var a3, b3 := Replace(a2, '\n', "\\n"), Replace(b2, '\n', "\\n");
    ReplaceJoin(a2, b2, '\n', "\\n");
    var a4, b4 := Replace(a3, '\r', "\\r"), Replace(b3, '\r', "\\r");
    ReplaceJoin(a3, b3, '\r', "\\r");
    DropControlsJoin(a4, b4);
  }

  lemma ReplaceOne(x: char, c: char, with: string)
    ensures Replace([x], c, with) == if x == c then with else [x]
  {
    assert [x][1..] == [];
  }

  lemma ReplaceTwo(x: char, y: char, c: char, with: string)
    requires c != x && c != y
    ensures Replace([x, y], c, with) == [x, y]
  {
    assert [x, y] == [x] + [y];
    ReplaceJoin([x], [y], c, with);
    ReplaceOne(x, c, with);
    ReplaceOne(y, c, with);
  }

  lemma DropControlsShort(x: char, y: char)
    ensures DropControls([x]) == if IsControl(x) then [] else [x]
    ensures !IsControl(x) && !IsControl(y) ==> DropControls([x, y]) == [x, y]
  {
    assert [x][1..] == [] && [x, y][1..] == [y] && [y][1..] == [];
  }

  lemma PassesOne(c: char, special: char)
    requires Special(special)
    ensures EscapePasses([c], special) == EscapeChar(c, special)
  {
    hide Replace, DropControls;
    ReplaceOne(c, '\\', "\\\\");
    if c == '\\' {
      ReplaceTwo('\\', '\\', special, ['\\', special]);
      ReplaceTwo('\\', '\\', '\n', "\\n");
      ReplaceTwo('\\', '\\', '\r', "\\r");
      DropControlsShort('\\', '\\');
      assert "\\\\" == ['\\', '\\'];
    } else {
      ReplaceOne(c, special, ['\\', special]);
      if c == special {
        ReplaceTwo('\\', c, '\n', "\\n");
        ReplaceTwo('\\', c, '\r', "\\r");
        DropControlsShort('\\', c);
      } else {
        ReplaceOne(c, '\n', "\\n");
        if c == '\n' {
          assert "\\n" == ['\\', 'n'];
          ReplaceTwo('\\', 'n', '\r', "\\r");
          DropControlsShort('\\', 'n');
        } else {
          ReplaceOne(c, '\r', "\\r");
          assert "\\r" == ['\\', 'r'];
          DropControlsShort('\\', 'r');
          DropControlsShort(c, c);
        }
      }
    }
  }

  /** The five passes amount to one map over the characters. */
  lemma {:induction false} PassesAreEscape(s: string, special: char)
    requires Special(special)
    ensures EscapePasses(s, special) == Escape(s, special)
  {
    hide EscapeChar;
    if s == [] {
    } else {
      hide EscapePasses;
      assert s == [s[0]] + s[1..];
      PassesJoin([s[0]], s[1..], special);
      PassesOne(s[0], special);
      PassesAreEscape(s[1..], special);
    }
  }

  // Undoing it

  /** What survives printing: control characters other than line ends do not. */
  function Clean(s: string): string {
    if s == [] then []
    else (if IsControl(s[0]) && s[0] != '\n' && s[0] != '\r' then [] else [s[0]]) + Clean(s[1..])
  }

  function UnescapeChar(c: char): char {
    if c == 'n' then '\n' else if c == 'r' then '\r' else c
  }

  function Unescape(e: string): string
    decreases |e|
  {
    if e == [] then []
    else if e[0] == '\\' && |e| >= 2 then [UnescapeChar(e[1])] + Unescape(e[2..])
    else [e[0]] + Unescape(e[1..])
  }

  lemma UnescapeOne(c: char, special: char, rest: string)
    requires Special(special)
    ensures Unescape(EscapeChar(c, special) + rest)
         == (if IsControl(c) && c != '\n' && c != '\r' then [] else [c]) + Unescape(rest)
  {
    var e := EscapeChar(c, special);
    if |e| == 2 {
      assert (e + rest)[2..] == rest;
    } else if |e| == 1 {
      assert (e + rest)[1..] == rest;
    } else {
      assert e + rest == rest;
    }
  }

  /** Unescaping inverts escaping, up to the control characters dropped. */
  lemma {:induction false} UnescapeEscape(s: string, special: char)
    requires Special(special)
    ensures Unescape(Escape(s, special)) == Clean(s)
  {
    hide EscapeChar;
    if s == [] {
    } else {
      UnescapeEscape(s[1..], special);
      UnescapeOne(s[0], special, Escape(s[1..], special));
    }
  }

  // The reader

  /** The text up to the first unescaped `c`, and what follows it. */
  function Cut(s: string, c: char): Option<(string, string)>
    decreases |s|
  {
    if s == [] then None
    else if s[0] == c then Some(([], s[1..]))
    else
      var n := if s[0] == '\\' && |s| >= 2 then 2 else 1;
      match Cut(s[n..], c)
      case None => None
      case Some((before, after)) => Some((s[..n] + before, after))
  }

  /** `e` has no unescaped `c` and no backslash left over. */
  predicate Inert(e: string, c: char)
    decreases |e|
  {
    e == []
    || (e[0] == '\\' && |e| >= 2 && Inert(e[2..], c))
    || (e[0] != '\\' && e[0] != c && Inert(e[1..], c))
  }

  lemma {:induction false} CutInert(e: string, c: char, rest: string)
    requires Inert(e, c) && c != '\\'
    ensures Cut(e + [c] + rest, c) == Some((e, rest))
    ensures Cut(e, c) == None
    decreases |e|
  {
    var s := e + [c] + rest;
    if e == [] {
      assert s[1..] == rest;
    } else {
      var n := if e[0] == '\\' then 2 else 1;
      CutInert(e[n..], c, rest);
      assert s[n..] == e[n..] + [c] + rest && s[..n] == e[..n];
      assert e[..n] + e[n..] == e;
    }
  }

  lemma {:induction false} InertJoin(a: string, b: string, c: char)
    requires Inert(a, c) && Inert(b, c)
    ensures Inert(a + b, c)
    decreases |a|
  {
    if a == [] {
      assert a + b == b;
    } else {
      var n := if a[0] == '\\' then 2 else 1;
      assert (a + b)[n..] == a[n..] + b;
      InertJoin(a[n..], b, c);
    }
  }

  lemma {:induction false} EscapeInert(s: string, special: char)
    requires Special(special)
    ensures Inert(Escape(s, special), special)
  {
    if s == [] {
    } else {
      EscapeInert(s[1..], special);
      InertChar(s[0], special);
      InertJoin(EscapeChar(s[0], special), Escape(s[1..], special), special);
    }
  }

  lemma InertChar(c: char, special: char)
    requires Special(special)
    ensures Inert(EscapeChar(c, special), special)
  {
    var e := EscapeChar(c, special);
    if |e| == 2 {
      assert e[2..] == [];
    } else if |e| == 1 {
      assert e[1..] == [];
    }
  }

  // The line

  function Digits(n: nat): string {
    (if n < 10 then [] else Digits(n / 10)) + [('0' as int + n % 10) as char]
  }

  function Decimal(n: int): string { if n < 0 then "-" + Digits(-n) else Digits(n) }

  /** The seven header fields; the version is the first. */
  function HeaderFields(h: Header): seq<string> {
    ["0", "OpenDXL", "opendxl-siem-sensor", "1.0", Decimal(h.classUid), h.name, Decimal(h.severityId)]
  }

  function HeaderText(fields: seq<string>): string {
    if fields == [] then [] else EscapeHeader(fields[0]) + ['|'] + HeaderText(fields[1..])
  }

  /** The extension keys the printer knows. */
  datatype Key =
    | App
    | Msg
    | Src
    | Suser
    | Number1
    | Number1Label
    | String1
    | String1Label
    | String2
    | String2Label
    | String3
    | String3Label
    | String4
    | String4Label

  function Name(k: Key): string {
    match k
    case App => "app"
    case Msg => "msg"
    case Src => "src"
    case Suser => "suser"
    case Number1 => "deviceCustomNumber1"
    case Number1Label => "deviceCustomNumber1Label"
    case String1 => "deviceCustomString1"
    case String1Label => "deviceCustomString1Label"
    case String2 => "deviceCustomString2"
    case String2Label => "deviceCustomString2Label"
    case String3 => "deviceCustomString3"
    case String3Label => "deviceCustomString3Label"
    case String4 => "deviceCustomString4"
    case String4Label => "deviceCustomString4Label"
  }

  /** The key a name belongs to, told by its length and one character. */
  function KeyNamed(s: string): Key {
    if |s| == 3 then (if s[0] == 'a' then App else if s[0] == 'm' then Msg else Src)
    else if |s| < 19 then Suser
    else if s[12] == 'N' then (if |s| == 19 then Number1 else Number1Label)
    else if s[18] == '1' then (if |s| == 19 then String1 else String1Label)
    else if s[18] == '2' then (if |s| == 19 then String2 else String2Label)
    else if s[18] == '3' then (if |s| == 19 then String3 else String3Label)
    else (if |s| == 19 then String4 else String4Label)
  }

  predicate PlainKey(k: string) { ' ' !in k && '=' !in k && '\\' !in k }

  lemma Number1Name()
    ensures KeyNamed(Name(Number1)) == Number1 && PlainKey(Name(Number1))
  {
  }

  lemma Number1LabelName()
    ensures KeyNamed(Name(Number1Label)) == Number1Label && PlainKey(Name(Number1Label))
  {
  }

  lemma String1Name()
    ensures KeyNamed(Name(String1)) == String1 && PlainKey(Name(String1))
  {
  }

  lemma String1LabelName()
    ensures KeyNamed(Name(String1Label)) == String1Label && PlainKey(Name(String1Label))
  {
  }

  lemma String2Name()
    ensures KeyNamed(Name(String2)) == String2 && PlainKey(Name(String2))
  {
  }

  lemma String2LabelName()
    ensures KeyNamed(Name(String2Label)) == String2Label && PlainKey(Name(String2Label))
  {
  }

  lemma String3Name()
    ensures KeyNamed(Name(String3)) == String3 && PlainKey(Name(String3))
  {
  }

  lemma String3LabelName()
    ensures KeyNamed(Name(String3Label)) == String3Label && PlainKey(Name(String3Label))
  {
  }

  lemma String4Name()
    ensures KeyNamed(Name(String4)) == String4 && PlainKey(Name(String4))
  {
  }

  lemma String4LabelName()
    ensures KeyNamed(Name(String4Label)) == String4Label && PlainKey(Name(String4Label))
  {
  }

  lemma ShortNames(k: Key)
    requires k in {App, Msg, Src, Suser}
    ensures KeyNamed(Name(k)) == k && PlainKey(Name(k))
  {
  }

  /** Different keys have different names, and none needs escaping. */
  lemma Names(k: Key)
    ensures KeyNamed(Name(k)) == k && PlainKey(Name(k))
  {
    hide Name, KeyNamed, PlainKey;
    match k
    case App | Msg | Src | Suser => ShortNames(k);
    case Number1 => Number1Name();
    case Number1Label => Number1LabelName();
    case String1 => String1Name();
    case String1Label => String1LabelName();
    case String2 => String2Name();
    case String2Label => String2LabelName();
    case String3 => String3Name();
    case String3Label => String3LabelName();
    case String4 => String4Name();
    case String4Label => String4LabelName();
  }

  lemma NamesDiffer()
    ensures forall j, k :: Name(j) == Name(k) ==> j == k
  {
    hide Name, KeyNamed, PlainKey;
    forall j, k | Name(j) == Name(k) ensures j == k {
      Names(j);
      Names(k);
    }
  }

  /** What the label of a custom field says. */
  datatype Caption = TypeUid | ClientGuid | ServiceUid | ServiceName | TlsVersion | Cipher | CertThumbprint

  function CaptionText(c: Caption): string {
    match c
    case TypeUid => "type_uid"
    case ClientGuid => "client_guid"
    case ServiceUid => "service_uid"
    case ServiceName => "service_name"
    case TlsVersion => "tls_version"
    case Cipher => "cipher"
    case CertThumbprint => "cert_thumbprint"
  }

  // The four custom strings of each record class

  function CustomString1(e: OcsfEvent): Option<string> {
    match e
    case NetworkActivity(_, clientGuid, _, _, _, _) => Some(clientGuid)
    case ApiActivity(_, _, uid, _, _) => Some(uid)
    case DetectionFinding(_, _, _) => None
  }

  function CustomString2(e: OcsfEvent): Option<string> {
    match e
    case NetworkActivity(_, _, _, _, _, Some(tls)) => if tls.version != "" then Some(tls.version) else None
    case ApiActivity(_, _, _, name, _) => Some(name)
    case _ => None
  }

  function CustomString3(e: OcsfEvent): Option<string> {
    match e
    case NetworkActivity(_, _, _, _, _, Some(tls)) =>
      if tls.cipherSuites != [] then Some(tls.cipherSuites[0]) else None
    case ApiActivity(_, _, _, _, actor) => actor
    case _ => None
  }

  function CustomString4(e: OcsfEvent): Option<string> {
    match e
    case NetworkActivity(_, _, _, _, _, Some(tls)) => tls.fingerprint
    case _ => None
  }

  /** What a record prints under a key, if anything: a custom string never comes
      without its label, nor a label without its string. */
  function FieldValue(e: OcsfEvent, k: Key): Option<string> {
    var network := e.NetworkActivity?;
    match k
    case Number1 => Some(Decimal(e.header.typeUid))
    case Number1Label => Some(CaptionText(TypeUid))
    case String1 => CustomString1(e)
    case String1Label => Labelled(CustomString1(e), if network then ClientGuid else ServiceUid)
    case String2 => CustomString2(e)
    case String2Label => Labelled(CustomString2(e), if network then TlsVersion else ServiceName)
    case String3 => CustomString3(e)
    case String3Label => Labelled(CustomString3(e), if network then Cipher else ClientGuid)
    case String4 => CustomString4(e)
    case String4Label => Labelled(CustomString4(e), CertThumbprint)
    case Src => if network then e.srcIp else None
    case App => if network then e.protocolName else None
    case Msg => if e.DetectionFinding? then Some(e.desc) else None
    case Suser => if e.DetectionFinding? then e.suser else None
  }

  function Labelled(value: Option<string>, c: Caption): Option<string> {
    if value.Some? then Some(CaptionText(c)) else None
  }

  /** The keys under which a record prints something. */
  function PrintedKeys(e: OcsfEvent): set<Key> { set k: Key | FieldValue(e, k).Some? }

  /** The extension fields of a record. */
  function Fields(e: OcsfEvent): map<string, string> {
    hide Name, FieldValue;
    NamesDiffer();
    map k | k in PrintedKeys(e) :: Name(k) := FieldValue(e, k).value
  }

  lemma FieldsAt(e: OcsfEvent)
    ensures forall k :: FieldValue(e, k).Some? ==> Name(k) in Fields(e) && Fields(e)[Name(k)] == FieldValue(e, k).value
    ensures forall k :: FieldValue(e, k).None? ==> Name(k) !in Fields(e)
    ensures forall s :: s in Fields(e) ==> exists k :: s == Name(k)
  {
    hide Name, FieldValue;
    NamesDiffer();
    assert forall k :: FieldValue(e, k).Some? <==> k in PrintedKeys(e);
    forall s | s in Fields(e) ensures exists k :: s == Name(k) {
      var k :| k in PrintedKeys(e) && Name(k) == s;
    }
  }

  function ExtensionText(keys: seq<string>, fields: map<string, string>): string
    requires forall k :: k in keys ==> k in fields
  {
    if keys == [] then []
    else keys[0] + ['='] + EscapeExtension(fields[keys[0]]) + [' '] + ExtensionText(keys[1..], fields)
  }

  ghost function Line(e: OcsfEvent): string {
    "CEF:" + HeaderText(HeaderFields(e.header))
    + TrimEnd(ExtensionText(KeyOrder.SortedKeys(Fields(e).Keys), Fields(e)))
  }

  // Reading a line

  datatype Record = Record(header: seq<string>, pairs: seq<(string, string)>)

  /** The next `n` header fields, unescaped, and what follows them. */
  function ReadHeader(s: string, n: nat): Option<(seq<string>, string)>
    decreases n
  {
    if n == 0 then Some(([], s))
    else
      match Cut(s, '|')
      case None => None
      case Some((field, rest)) =>
        match ReadHeader(rest, n - 1)
        case None => None
        case Some((fields, end)) => Some(([Unescape(field)] + fields, end))
  }

  /** Splits at the last space: a value and the key that follows it. */
  function LastSpace(s: string): (string, string) {
    if s == [] then ([], [])
    else
      var front, last := s[..|s| - 1], s[|s| - 1];
      if last == ' ' then (front, [])
      else
        var (value, key) := LastSpace(front);
        (value, key + [last])
  }

  lemma CutShorter(s: string, c: char)
    requires Cut(s, c).Some?
    ensures |Cut(s, c).value.1| < |s|
    decreases |s|
  {
    if s[0] == c {
    } else {
      CutShorter(s[if s[0] == '\\' && |s| >= 2 then 2 else 1..], c);
    }
  }

  /** The pairs of `s`, the first of which has the key `key`. */
  function ReadPairs(key: string, s: string): seq<(string, string)>
    decreases |s|
  {
    match Cut(s, '=')
    case None => [(key, Unescape(s))]
    case Some((before, after)) =>
      CutShorter(s, '=');
      var (value, next) := LastSpace(before);
      [(key, Unescape(value))] + ReadPairs(next, after)
  }

  /** Splits the header at unescaped `|` and the extension at unescaped `=`, as
      the ArcSight Common Event Format asks of a consumer. */
  function ReadCef(line: string): Option<Record> {
    if !("CEF:" <= line) then None
    else
      match ReadHeader(line[4..], 7)
      case None => None
      case Some((header, extension)) =>
        match Cut(extension, '=')
        case None => None
        case Some((key, rest)) => Some(Record(header, ReadPairs(key, rest)))
  }

  // Header

  function CleanAll(fields: seq<string>): seq<string> {
    if fields == [] then [] else [Clean(fields[0])] + CleanAll(fields[1..])
  }

  lemma {:induction false} HeaderRead(fields: seq<string>, rest: string)
    ensures ReadHeader(HeaderText(fields) + rest, |fields|) == Some((CleanAll(fields), rest))
    decreases |fields|
  {
    hide EscapePasses, Cut, Unescape, Clean;
    if fields == [] {
      assert HeaderText(fields) + rest == rest;
    } else {
      var f := EscapeHeader(fields[0]);
      FieldRead(fields[0], '|', HeaderText(fields[1..]) + rest);
      assert HeaderText(fields) + rest == f + ['|'] + (HeaderText(fields[1..]) + rest);
      HeaderRead(fields[1..], rest);
    }
  }

  lemma FieldRead(v: string, special: char, rest: string)
    requires Special(special)
    ensures Cut(EscapePasses(v, special) + [special] + rest, special) == Some((EscapePasses(v, special), rest))
    ensures Inert(EscapePasses(v, special), special)
    ensures Unescape(EscapePasses(v, special)) == Clean(v)
  {
    hide EscapePasses, Escape, Cut, Inert, Unescape, Clean;
    PassesAreEscape(v, special);
    EscapeInert(v, special);
    CutInert(Escape(v, special), special, rest);
    UnescapeEscape(v, special);
  }

  // Trailing whitespace

  /** Without the whitespace at the end that is not a line end. */
  function TrimSpaces(s: string): (r: string)
    ensures r <= s
  {
    if s != [] && IsWhitespace(s[|s| - 1]) && !IsControl(s[|s| - 1]) then TrimSpaces(s[..|s| - 1]) else s
  }

  lemma {:induction false} TrimEndJoin(a: string, b: string)
    requires TrimEnd(b) != []
    ensures TrimEnd(a + b) == a + TrimEnd(b)
    decreases |b|
  {
    assert (a + b)[..|a + b| - 1] == a + b[..|b| - 1];
    if !IsWhitespace(b[|b| - 1]) {
    } else {
      TrimEndJoin(a, b[..|b| - 1]);
    }
  }

  lemma {:induction false} TrimEndAfter(c: char, s: string)
    requires !IsWhitespace(c)
    ensures TrimEnd([c] + s) == [c] + TrimEnd(s)
    decreases |s|
  {
    if s == [] {
      assert [c] + s == [c];
    } else if IsWhitespace(s[|s| - 1]) {
      assert ([c] + s)[..|s|] == [c] + s[..|s| - 1];
      TrimEndAfter(c, s[..|s| - 1]);
    }
  }

  lemma {:induction false} EscapeJoin(a: string, b: string, special: char)
    ensures Escape(a + b, special) == Escape(a, special) + Escape(b, special)
    decreases |a|
  {
    hide EscapeChar;
    if a == [] {
      assert a + b == b;
    } else {
      assert (a + b)[1..] == a[1..] + b;
      EscapeJoin(a[1..], b, special);
    }
  }

  /** No control characters but line ends. */
  predicate IsClean(s: string) {
    forall i :: 0 <= i < |s| ==> !IsControl(s[i]) || s[i] == '\n' || s[i] == '\r'
  }

  lemma {:induction false} CleanIsClean(s: string)
    ensures IsClean(Clean(s))
    ensures IsClean(s) ==> Clean(s) == s
  {
    if s == [] {
    } else {
      CleanIsClean(s[1..]);
    }
  }

  lemma {:induction false} EscapeOfClean(s: string, special: char)
    requires Special(special)
    ensures Escape(Clean(s), special) == Escape(s, special)
  {
    if s == [] {
    } else {
      EscapeOfClean(s[1..], special);
      var c := s[0];
      if !IsControl(c) || c == '\n' || c == '\r' {
        assert Clean(s) == [c] + Clean(s[1..]) && Clean(s)[1..] == Clean(s[1..]);
      } else {
        assert Clean(s) == Clean(s[1..]) && Escape(s, special) == Escape(s[1..], special);
      }
    }
  }

  lemma EscapeLast(c: char)
    requires !IsControl(c) || c == '\n' || c == '\r'
    ensures var e := EscapeChar(c, '=');
            && e != []
            && (IsWhitespace(e[|e| - 1]) <==> IsWhitespace(c) && !IsControl(c))
            && (IsWhitespace(e[|e| - 1]) ==> e == [c])
            && Escape([c], '=') == e
  {
    assert [c][1..] == [];
  }

  lemma {:induction false} TrimEscaped(w: string)
    requires IsClean(w)
    ensures TrimEnd(Escape(w, '=')) == Escape(TrimSpaces(w), '=')
    decreases |w|
  {
    hide EscapeChar, IsWhitespace, IsControl;
    if w == [] {
    } else {
      var front, c := w[..|w| - 1], w[|w| - 1];
      assert w == front + [c];
      EscapeJoin(front, [c], '=');
      EscapeLast(c);
      var e := Escape(w, '=');
      if IsWhitespace(c) && !IsControl(c) {
        assert e[..|e| - 1] == Escape(front, '=');
        TrimEscaped(front);
      }
    }
  }

  /** The passes as a table: text is escaped character by character, and each as
      the printer's rules say. */
  lemma EscapedExactly(a: string, b: string, c: char, special: char)
    requires Special(special)
    ensures EscapePasses(a + b, special) == EscapePasses(a, special) + EscapePasses(b, special)
    ensures EscapePasses([c], special)
         == if c == '\\' || c == special then ['\\', c]
            else if c == '\n' then ['\\', 'n']
            else if c == '\r' then ['\\', 'r']
            else if c < '\U{20}' || '\U{7F}' <= c <= '\U{9F}' then []
            else [c]
  {
    hide EscapePasses;
    PassesAreEscape(a, special);
    PassesAreEscape(b, special);
    PassesAreEscape(a + b, special);
    PassesAreEscape([c], special);
    EscapeJoin(a, b, special);
    assert [c][1..] == [];
  }

  // Extension

  /** What follows the first key and its `=` in the trimmed extension. */
  function Tail(keys: seq<string>, fields: map<string, string>): string
    requires keys != [] && forall k :: k in keys ==> k in fields
    decreases |keys|
  {
    if |keys| == 1 then Escape(TrimSpaces(Clean(fields[keys[0]])), '=')
    else EscapeExtension(fields[keys[0]]) + [' '] + keys[1] + ['='] + Tail(keys[1..], fields)
  }

  lemma LastFieldTrimmed(v: string)
    ensures TrimEnd(['='] + EscapeExtension(v) + [' ']) == ['='] + Escape(TrimSpaces(Clean(v)), '=')
  {
    hide Escape, Clean, TrimSpaces, EscapePasses;
    var w := EscapeExtension(v);
    PassesAreEscape(v, '=');
    CleanIsClean(v);
    EscapeOfClean(v, '=');
    TrimEscaped(Clean(v));
    assert (['='] + w + [' '])[..|w| + 1] == ['='] + w;
    TrimEndAfter('=', w);
  }

  lemma LastPairTrimmed(k: string, v: string)
    ensures TrimEnd(k + ['='] + EscapeExtension(v) + [' ']) == k + ['='] + Escape(TrimSpaces(Clean(v)), '=')
  {
    LastFieldTrimmed(v);
    hide TrimEnd, EscapeExtension, Escape, TrimSpaces, Clean;
    var last := ['='] + EscapeExtension(v) + [' '];
    assert k + ['='] + EscapeExtension(v) + [' '] == k + last;
    TrimEndJoin(k, last);
    assert k + (['='] + Escape(TrimSpaces(Clean(v)), '=')) == k + ['='] + Escape(TrimSpaces(Clean(v)), '=');
  }

  lemma {:induction false} TrimmedExtension(keys: seq<string>, fields: map<string, string>)
    requires keys != [] && forall k :: k in keys ==> k in fields
    ensures TrimEnd(ExtensionText(keys, fields)) == keys[0] + ['='] + Tail(keys, fields)
    decreases |keys|
  {
    hide EscapeExtension, Escape, TrimSpaces, Clean, TrimEnd;
    var v := fields[keys[0]];
    var pair := keys[0] + ['='] + EscapeExtension(v) + [' '];
    assert ExtensionText(keys, fields) == pair + ExtensionText(keys[1..], fields);
    if |keys| == 1 {
      assert keys[1..] == [] && pair + [] == pair;
      LastPairTrimmed(keys[0], v);
    } else {
      TrimmedExtension(keys[1..], fields);
      TrimEndJoin(pair, ExtensionText(keys[1..], fields));
      TailUnfolds(keys, fields);
    }
  }

  lemma TailUnfolds(keys: seq<string>, fields: map<string, string>)
    requires |keys| > 1 && forall k :: k in keys ==> k in fields
    ensures keys[0] + ['='] + EscapeExtension(fields[keys[0]]) + [' ']
            + (keys[1..][0] + ['='] + Tail(keys[1..], fields))
         == keys[0] + ['='] + Tail(keys, fields)
  {
    hide EscapeExtension, Escape, TrimSpaces, Clean;
    var rest := Tail(keys[1..], fields);
    hide Tail;
    assert Tail(keys, fields) == EscapeExtension(fields[keys[0]]) + [' '] + keys[1] + ['='] + rest;
    Regroup(keys[0], EscapeExtension(fields[keys[0]]), keys[1], rest);
  }

  lemma Regroup(k: string, v: string, next: string, rest: string)
    ensures k + ['='] + v + [' '] + (next + ['='] + rest) == k + ['='] + (v + [' '] + next + ['='] + rest)
  {
  }

  /** The pairs a reader recovers: cleaned values, the last one without trailing
      whitespace. */
  function Recovered(keys: seq<string>, fields: map<string, string>): seq<(string, string)>
    requires forall k :: k in keys ==> k in fields
  {
    if keys == [] then []
    else if |keys| == 1 then [(keys[0], TrimSpaces(Clean(fields[keys[0]])))]
    else [(keys[0], Clean(fields[keys[0]]))] + Recovered(keys[1..], fields)
  }

  /** Position by position, what `Recovered` says. */
  lemma {:induction false} RecoveredAt(keys: seq<string>, fields: map<string, string>, i: nat)
    requires i < |keys| && forall k :: k in keys ==> k in fields
    ensures |Recovered(keys, fields)| == |keys|
    ensures var v := Clean(fields[keys[i]]);
            Recovered(keys, fields)[i] == (keys[i], if i == |keys| - 1 then TrimSpaces(v) else v)
    decreases |keys|
  {
    hide Clean, TrimSpaces;
    if |keys| <= 1 {
    } else {
      RecoveredAt(keys[1..], fields, if i > 0 then i - 1 else 0);
    }
  }

  lemma {:induction false} PlainInert(k: string)
    requires PlainKey(k)
    ensures Inert(k, '=')
  {
    if k == [] {
    } else {
      PlainInert(k[1..]);
    }
  }

  lemma {:induction false} LastSpaceFound(value: string, key: string)
    requires ' ' !in key
    ensures LastSpace(value + [' '] + key) == (value, key)
    decreases |key|
  {
    var s := value + [' '] + key;
    if key == [] {
      assert s[..|s| - 1] == value;
    } else {
      assert key == key[..|key| - 1] + [key[|key| - 1]] && s[|s| - 1] == key[|key| - 1];
      assert s[..|s| - 1] == value + [' '] + key[..|key| - 1];
      LastSpaceFound(value, key[..|key| - 1]);
    }
  }

  lemma {:induction false} PairsRead(keys: seq<string>, fields: map<string, string>)
    requires keys != [] && forall k :: k in keys ==> k in fields && PlainKey(k)
    ensures ReadPairs(keys[0], Tail(keys, fields)) == Recovered(keys, fields)
    decreases |keys|
  {
    hide Escape, EscapePasses, Cut, Inert, Unescape, Clean, TrimSpaces, LastSpace;
    var v := fields[keys[0]];
    if |keys| == 1 {
      var w := TrimSpaces(Clean(v));
      CleanIsClean(v);
      CleanIsClean(w);
      EscapeInert(w, '=');
      CutInert(Escape(w, '='), '=', []);
      UnescapeEscape(w, '=');
    } else {
      var e, next := EscapeExtension(v), keys[1];
      var before, after := e + [' '] + next, Tail(keys[1..], fields);
      FieldRead(v, '=', []);
      PlainInert(next);
      SpaceInert();
      InertJoin(e, [' '], '=');
      InertJoin(e + [' '], next, '=');
      CutInert(before, '=', after);
      LastSpaceFound(e, next);
      PairsRead(keys[1..], fields);
    }
  }

  lemma SpaceInert()
    ensures Inert([' '], '=')
  {
    assert [' '][1..] == [];
  }

  lemma FieldKeysPlain(e: OcsfEvent)
    ensures forall s :: s in Fields(e) ==> PlainKey(s)
  {
    hide Name, PlainKey, FieldValue, Fields;
    FieldsAt(e);
    forall s | s in Fields(e) ensures PlainKey(s) {
      var k :| s == Name(k);
      Names(k);
    }
  }

  /** Parse-back: from every printed line a reader recovers the seven header
      fields and every extension pair in key order, up to control characters and
      the trailing whitespace of the last value. */
  lemma ParseBack(e: OcsfEvent)
    ensures var keys := KeyOrder.SortedKeys(Fields(e).Keys);
            ReadCef(Line(e)) == Some(Record(CleanAll(HeaderFields(e.header)), Recovered(keys, Fields(e))))
  {
    hide HeaderText, ExtensionText, Tail, TrimEnd, ReadHeader, CleanAll, HeaderFields, Cut, Inert, PlainKey;
    hide ReadPairs, Recovered, Fields, KeyOrder.SortedKeys, Name;
    var fields, keys := Fields(e), KeyOrder.SortedKeys(Fields(e).Keys);
    assert keys != [] by {
      TypeUidPresent(e);
      assert Name(Number1) in keys;
    }
    FieldKeysPlain(e);
    TrimmedExtension(keys, fields);
    var header, tail := HeaderText(HeaderFields(e.header)), Tail(keys, fields);
    var extension := keys[0] + ['='] + tail;
    assert Line(e)[4..] == header + extension;
    SevenFields(e.header);
    HeaderRead(HeaderFields(e.header), extension);
    PlainInert(keys[0]);
    CutInert(keys[0], '=', tail);
    PairsRead(keys, fields);
  }

  predicate NotFound(pairs: seq<(string, string)>, name: string) {
    forall i :: 0 <= i < |pairs| ==> pairs[i].0 != name
  }

  /** `name` is found exactly once, with the cleaned value, trimmed in the last pair. */
  predicate FoundOnce(pairs: seq<(string, string)>, name: string, value: string) {
    exists i ::
      && 0 <= i < |pairs|
      && pairs[i] == (name, if i == |pairs| - 1 then TrimSpaces(Clean(value)) else Clean(value))
      && NotFound(pairs[..i], name) && NotFound(pairs[i + 1..], name)
  }

  lemma KeyFound(keys: seq<string>, fields: map<string, string>, name: string)
    requires Enumerates(keys, fields.Keys)
    ensures if name in fields then FoundOnce(Recovered(keys, fields), name, fields[name])
            else NotFound(Recovered(keys, fields), name)
  {
    hide Recovered, Clean, TrimSpaces;
    var pairs := Recovered(keys, fields);
    if keys == [] {
      NothingRecovered(fields);
      assert fields == map[];
    } else {
      RecoveredAt(keys, fields, 0);
      forall i | 0 <= i < |keys| ensures pairs[i].0 == keys[i] && keys[i] in fields {
        RecoveredAt(keys, fields, i);
        assert keys[i] in keys;
      }
      if name in fields {
        var i :| 0 <= i < |keys| && keys[i] == name;
        RecoveredAt(keys, fields, i);
      }
    }
  }

  lemma NothingRecovered(fields: map<string, string>)
    ensures Recovered([], fields) == []
  {
  }

  /** Field by field, from the record to what a reader of its line finds: a value
      the record has is found exactly once, under its own key, and a value it
      does not have is not found. */
  lemma ValueRecovered(e: OcsfEvent, k: Key)
    ensures ReadCef(Line(e)).Some?
    ensures match FieldValue(e, k)
            case Some(v) => FoundOnce(ReadCef(Line(e)).value.pairs, Name(k), v)
            case None => NotFound(ReadCef(Line(e)).value.pairs, Name(k))
  {
    hide Line, ReadCef, Recovered, Fields, FieldValue, Name, KeyOrder.SortedKeys, CleanAll, HeaderFields;
    hide FoundOnce, NotFound;
    ParseBack(e);
    FieldsAt(e);
    KeyFound(KeyOrder.SortedKeys(Fields(e).Keys), Fields(e), Name(k));
  }

  lemma {:induction false} DigitsClean(n: nat)
    ensures IsClean(Digits(n)) && Digits(n) != []
  {
    if n < 10 {
    } else {
      DigitsClean(n / 10);
    }
  }

  /** Numbers print without anything to drop, so they are recovered as printed. */
  lemma DecimalClean(n: int)
    ensures Clean(Decimal(n)) == Decimal(n)
  {
    hide Clean;
    DigitsClean(if n < 0 then -n else n);
    CleanIsClean(Decimal(n));
  }

  // Numbers

  /** A number in decimal, most significant digit first. */
  function ReadDigits(s: string): Option<nat> {
    if s == [] then Some(0)
    else
      var front, c := ReadDigits(s[..|s| - 1]), s[|s| - 1];
      if front.Some? && '0' <= c <= '9' then Some(front.value * 10 + (c as int - '0' as int)) else None
  }

  /** The same with a minus sign before it, if it is negative. */
  function ReadDecimal(s: string): Option<int> {
    if s == "" || s == "-" then None
    else if s[0] == '-' then
      (match ReadDigits(s[1..]) case Some(n) => Some(-(n as int)) case None => None)
    else ReadDigits(s)
  }

  lemma {:induction false} DigitsRead(n: nat)
    ensures Digits(n) != [] && ReadDigits(Digits(n)) == Some(n)
    ensures '1' <= Digits(n)[0] <= '9' || (n == 0 && Digits(n) == "0")
  {
    var last := [('0' as int + n % 10) as char];
    if n < 10 {
      assert Digits(n) == last && last[..0] == [];
    } else {
      DigitsRead(n / 10);
      assert Digits(n) == Digits(n / 10) + last;
      assert Digits(n)[..|Digits(n)| - 1] == Digits(n / 10);
    }
  }

  /** Printed numbers are read back, and have no leading zero. */
  lemma DecimalRead(n: int)
    ensures ReadDecimal(Decimal(n)) == Some(n)
    ensures n != 0 ==> '1' <= Decimal(n)[if n < 0 then 1 else 0] <= '9'
    ensures n >= 0 ==> '0' <= Decimal(n)[0] <= '9'
  {
    DigitsRead(if n < 0 then -n else n);
    hide Digits, ReadDigits;
    if n < 0 {
      assert ("-" + Digits(-n))[1..] == Digits(-n);
    }
  }

  // What a reader learns from a line

  lemma {:induction false} CleanAllAt(fields: seq<string>, i: nat)
    requires i < |fields|
    ensures |CleanAll(fields)| == |fields| && CleanAll(fields)[i] == Clean(fields[i])
    decreases |fields|
  {
    hide Clean;
    if |fields| == 1 {
      assert CleanAll(fields[1..]) == [];
    } else {
      CleanAllAt(fields[1..], if i > 0 then i - 1 else 0);
    }
  }

  lemma HeaderCleaned(h: Header)
    ensures var fields := CleanAll(HeaderFields(h));
            && |fields| == 7
            && fields[0] == "0" && fields[1] == "OpenDXL" && fields[2] == "opendxl-siem-sensor" && fields[3] == "1.0"
            && ReadDecimal(fields[4]) == Some(h.classUid) && fields[5] == Clean(h.name)
            && ReadDecimal(fields[6]) == Some(h.severityId)
  {
    var fields := HeaderFields(h);
    DecimalClean(h.classUid);
    DecimalClean(h.severityId);
    DecimalRead(h.classUid);
    DecimalRead(h.severityId);
    FixedFieldsClean();
    hide Clean, Decimal, ReadDecimal;
    forall i | 0 <= i < 7 ensures |CleanAll(fields)| == 7 && CleanAll(fields)[i] == Clean(fields[i]) {
      CleanAllAt(fields, i);
    }
  }

  lemma FixedFieldsClean()
    ensures Clean("0") == "0" && Clean("OpenDXL") == "OpenDXL" && Clean("opendxl-siem-sensor") == "opendxl-siem-sensor"
    ensures Clean("1.0") == "1.0"
  {
    hide Clean;
    CleanIsClean("0");
    CleanIsClean("OpenDXL");
    CleanIsClean("opendxl-siem-sensor");
    CleanIsClean("1.0");
  }

  lemma LinePrefix(e: OcsfEvent)
    ensures "CEF:" <= Line(e)
  {
    hide HeaderText, ExtensionText, TrimEnd, Fields, HeaderFields, KeyOrder.SortedKeys;
  }

  /** From any line: the format and the product, and the numbers of the record, which
      are those in the fifth and seventh header fields. */
  lemma HeaderLearned(e: OcsfEvent)
    ensures "CEF:" <= Line(e) && ReadCef(Line(e)).Some?
    ensures var header := ReadCef(Line(e)).value.header;
            && |header| == 7
            && header[0] == "0" && header[1] == "OpenDXL" && header[2] == "opendxl-siem-sensor" && header[3] == "1.0"
            && ReadDecimal(header[4]) == Some(e.header.classUid) && header[5] == Clean(e.header.name)
            && ReadDecimal(header[6]) == Some(e.header.severityId)
  {
    LinePrefix(e);
    hide Line, ReadCef, Recovered, Fields, CleanAll, HeaderFields, KeyOrder.SortedKeys, ReadDecimal, Clean;
    ParseBack(e);
    HeaderCleaned(e.header);
  }

  /** `key` is found once with the value, or nowhere if there is none. */
  predicate Finds(pairs: seq<(string, string)>, key: string, value: Option<string>) {
    match value
    case Some(v) => FoundOnce(pairs, key, v)
    case None => NotFound(pairs, key)
  }

  /** A custom string and its label are found together or not at all. */
  predicate FindsLabelled(
    pairs: seq<(string, string)>, key: string, labelKey: string, value: Option<string>, caption: string
  )
  {
    Finds(pairs, key, value) && Finds(pairs, labelKey, if value.Some? then Some(caption) else None)
  }

  lemma KeyFinds(e: OcsfEvent, k: Key, name: string, value: Option<string>)
    requires name == Name(k) && value == FieldValue(e, k)
    ensures ReadCef(Line(e)).Some? && Finds(ReadCef(Line(e)).value.pairs, name, value)
  {
    hide ReadCef, Line, FoundOnce, NotFound, Name, FieldValue;
    ValueRecovered(e, k);
  }

  /** From any line: the number of the event type, with its label. */
  lemma TypeLearned(e: OcsfEvent)
    ensures ReadCef(Line(e)).Some?
    ensures var pairs := ReadCef(Line(e)).value.pairs;
            && FindsLabelled(pairs, "deviceCustomNumber1", "deviceCustomNumber1Label",
                             Some(Decimal(e.header.typeUid)), "type_uid")
            && ReadDecimal(Decimal(e.header.typeUid)) == Some(e.header.typeUid)
  {
    hide ReadCef, Line, Finds, Decimal, ReadDecimal;
    DecimalRead(e.header.typeUid);
    KeyFinds(e, Number1, "deviceCustomNumber1", Some(Decimal(e.header.typeUid)));
    KeyFinds(e, Number1Label, "deviceCustomNumber1Label", Some("type_uid"));
  }

  /** From the line of a connection: who connected from where, by what protocol. */
  lemma NetworkLearned(e: OcsfEvent)
    requires e.NetworkActivity?
    ensures ReadCef(Line(e)).Some?
    ensures var pairs := ReadCef(Line(e)).value.pairs;
            && FindsLabelled(pairs, "deviceCustomString1", "deviceCustomString1Label", Some(e.clientGuid),
                             "client_guid")
            && Finds(pairs, "src", e.srcIp) && Finds(pairs, "app", e.protocolName)
            && Finds(pairs, "msg", None) && Finds(pairs, "suser", None)
  {
    hide ReadCef, Line, Finds, Decimal;
    KeyFinds(e, String1, "deviceCustomString1", Some(e.clientGuid));
    KeyFinds(e, String1Label, "deviceCustomString1Label", Some("client_guid"));
    KeyFinds(e, Src, "src", e.srcIp);
    KeyFinds(e, App, "app", e.protocolName);
    KeyFinds(e, Msg, "msg", None);
    KeyFinds(e, Suser, "suser", None);
  }

  lemma TlsVersionFound(e: OcsfEvent)
    requires e.NetworkActivity?
    ensures ReadCef(Line(e)).Some?
    ensures FindsLabelled(ReadCef(Line(e)).value.pairs, "deviceCustomString2", "deviceCustomString2Label",
                          FieldValue(e, String2), "tls_version")
  {
    hide ReadCef, Line, Finds, Decimal, FindsLabelled;
    LabelledFinds(e, String2, "deviceCustomString2", FieldValue(e, String2), String2Label, "deviceCustomString2Label",
                  "tls_version");
  }

  lemma TlsCipherFound(e: OcsfEvent)
    requires e.NetworkActivity?
    ensures ReadCef(Line(e)).Some?
    ensures FindsLabelled(ReadCef(Line(e)).value.pairs, "deviceCustomString3", "deviceCustomString3Label",
                          FieldValue(e, String3), "cipher")
  {
    hide ReadCef, Line, Finds, Decimal, FindsLabelled;
    LabelledFinds(e, String3, "deviceCustomString3", FieldValue(e, String3), String3Label, "deviceCustomString3Label",
                  "cipher");
  }

  lemma TlsCertFound(e: OcsfEvent)
    requires e.NetworkActivity?
    ensures ReadCef(Line(e)).Some?
    ensures FindsLabelled(ReadCef(Line(e)).value.pairs, "deviceCustomString4", "deviceCustomString4Label",
                          FieldValue(e, String4), "cert_thumbprint")
  {
    hide ReadCef, Line, Finds, Decimal, FindsLabelled;
    LabelledFinds(e, String4, "deviceCustomString4", FieldValue(e, String4), String4Label, "deviceCustomString4Label",
                  "cert_thumbprint");
  }

  lemma TlsValues(e: OcsfEvent)
    requires e.NetworkActivity?
    ensures FieldValue(e, String2)
         == if e.tls.Some? && e.tls.value.version != "" then Some(e.tls.value.version) else None
    ensures FieldValue(e, String3)
         == if e.tls.Some? && e.tls.value.cipherSuites != [] then Some(e.tls.value.cipherSuites[0]) else None
    ensures FieldValue(e, String4) == if e.tls.Some? then e.tls.value.fingerprint else None
  {
  }

  lemma LabelledFinds(e: OcsfEvent, k: Key, name: string, value: Option<string>,
                      labelKey: Key, labelName: string, caption: string)
    requires name == Name(k) && value == FieldValue(e, k)
    requires labelName == Name(labelKey)
    requires FieldValue(e, labelKey) == if value.Some? then Some(caption) else None
    ensures ReadCef(Line(e)).Some?
    ensures FindsLabelled(ReadCef(Line(e)).value.pairs, name, labelName, value, caption)
  {
    hide ReadCef, Line, Finds, FieldValue, Name;
    KeyFinds(e, k, name, value);
    KeyFinds(e, labelKey, labelName, if value.Some? then Some(caption) else None);
  }

  /** And its TLS parameters, as far as it has any. */
  lemma TlsLearned(e: OcsfEvent)
    requires e.NetworkActivity?
    ensures ReadCef(Line(e)).Some?
    ensures var pairs, tls := ReadCef(Line(e)).value.pairs, e.tls;
            var version := if tls.Some? && tls.value.version != "" then Some(tls.value.version) else None;
            var cipher := if tls.Some? && tls.value.cipherSuites != [] then Some(tls.value.cipherSuites[0]) else None;
            var cert := if tls.Some? then tls.value.fingerprint else None;
            && FindsLabelled(pairs, "deviceCustomString2", "deviceCustomString2Label", version, "tls_version")
            && FindsLabelled(pairs, "deviceCustomString3", "deviceCustomString3Label", cipher, "cipher")
            && FindsLabelled(pairs, "deviceCustomString4", "deviceCustomString4Label", cert, "cert_thumbprint")
  {
    hide ReadCef, Line, Finds, FieldValue, Name;
    TlsVersionFound(e);
    TlsCipherFound(e);
    TlsCertFound(e);
    TlsValues(e);
  }

  /** From the line of a service record: which service, of which type, for whom. */
  lemma ServiceLearned(e: OcsfEvent)
    requires e.ApiActivity?
    ensures ReadCef(Line(e)).Some?
    ensures var pairs := ReadCef(Line(e)).value.pairs;
            && FindsLabelled(pairs, "deviceCustomString1", "deviceCustomString1Label", Some(e.serviceUid),
                             "service_uid")
            && FindsLabelled(pairs, "deviceCustomString2", "deviceCustomString2Label", Some(e.serviceName),
                             "service_name")
            && FindsLabelled(pairs, "deviceCustomString3", "deviceCustomString3Label", e.actor, "client_guid")
  {
    hide ReadCef, Line, Finds, Decimal;
    LabelledFinds(e, String1, "deviceCustomString1", Some(e.serviceUid), String1Label, "deviceCustomString1Label",
                  "service_uid");
    LabelledFinds(e, String2, "deviceCustomString2", Some(e.serviceName), String2Label, "deviceCustomString2Label",
                  "service_name");
    LabelledFinds(e, String3, "deviceCustomString3", e.actor, String3Label, "deviceCustomString3Label", "client_guid");
  }

  /** From the line of a detection: its description and the user it is about. */
  lemma FindingLearned(e: OcsfEvent)
    requires e.DetectionFinding?
    ensures ReadCef(Line(e)).Some?
    ensures var pairs := ReadCef(Line(e)).value.pairs;
            Finds(pairs, "msg", Some(e.desc)) && Finds(pairs, "suser", e.suser)
  {
    hide ReadCef, Line, Finds, Decimal;
    KeyFinds(e, Msg, "msg", Some(e.desc));
    KeyFinds(e, Suser, "suser", e.suser);
  }

  lemma TypeUidPresent(e: OcsfEvent)
    ensures Name(Number1) in Fields(e)
  {
    hide Name, CaptionText, Decimal, Fields;
    FieldsAt(e);
    assert FieldValue(e, Number1).Some?;
  }

  lemma SevenFields(h: Header)
    ensures |HeaderFields(h)| == 7
  {
  }

  // Printing

  /** The map holds the record's values under the keys seen so far, and nothing else. */
  ghost predicate Holds(ext: map<string, string>, e: OcsfEvent, seen: set<Key>) {
    && (forall k :: k in seen ==>
          FieldValue(e, k).Some? && Name(k) in ext && ext[Name(k)] == FieldValue(e, k).value)
    && (forall s :: s in ext ==> exists k :: k in seen && s == Name(k))
  }

  /** One insertion into the ordered map of extension fields. */
  method Insert(ext: map<string, string>, k: Key, value: string, ghost e: OcsfEvent, ghost seen: set<Key>)
    returns (r: map<string, string>, ghost now: set<Key>)
    requires Holds(ext, e, seen) && FieldValue(e, k) == Some(value)
    ensures now == seen + {k} && Holds(r, e, now)
  {
    hide Name, FieldValue;
    r, now := ext[Name(k) := value], seen + {k};
    NamesDiffer();
  }

  predicate AllSeen(e: OcsfEvent, seen: set<Key>) { forall k :: FieldValue(e, k).Some? ==> k in seen }

  /** With every key that has a value seen, the map is complete. */
  lemma HoldsAll(ext: map<string, string>, e: OcsfEvent, seen: set<Key>)
    requires Holds(ext, e, seen) && AllSeen(e, seen)
    ensures ext == Fields(e)
  {
    hide Name, FieldValue, Fields;
    NamesDiffer();
    FieldsAt(e);
  }

  method InsertTls(ext: map<string, string>, tls: Tls, ghost e: OcsfEvent, ghost seen: set<Key>)
    returns (r: map<string, string>, ghost now: set<Key>)
    requires Holds(ext, e, seen) && e.NetworkActivity? && e.tls == Some(tls)
    ensures Holds(r, e, now) && seen <= now
    ensures forall k :: k in {String2, String2Label, String3, String3Label, String4, String4Label} ==>
              FieldValue(e, k).Some? ==> k in now
  {
    hide Name, CaptionText, Decimal, Holds;
    r, now := ext, seen;
    if tls.version != "" {
      r, now := Insert(r, String2, tls.version, e, now);
      r, now := Insert(r, String2Label, CaptionText(TlsVersion), e, now);
    }
    if tls.cipherSuites != [] {
      r, now := Insert(r, String3, tls.cipherSuites[0], e, now);
      r, now := Insert(r, String3Label, CaptionText(Cipher), e, now);
    }
    if tls.fingerprint.Some? {
      r, now := Insert(r, String4, tls.fingerprint.value, e, now);
      r, now := Insert(r, String4Label, CaptionText(CertThumbprint), e, now);
    }
  }

  method NetworkFields(e: OcsfEvent) returns (ext: map<string, string>, ghost seen: set<Key>)
    requires e.NetworkActivity?
    ensures Holds(ext, e, seen) && AllSeen(e, seen)
  {
    hide Name, CaptionText, Decimal, Holds;
    HoldsNothing(e);
    ext, seen := map[], {};
    ext, seen := Insert(ext, Number1, Decimal(e.header.typeUid), e, seen);
    ext, seen := Insert(ext, Number1Label, CaptionText(TypeUid), e, seen);
    ext, seen := Insert(ext, String1, e.clientGuid, e, seen);
    ext, seen := Insert(ext, String1Label, CaptionText(ClientGuid), e, seen);
    if e.srcIp.Some? {
      ext, seen := Insert(ext, Src, e.srcIp.value, e, seen);
    }
    if e.protocolName.Some? {
      ext, seen := Insert(ext, App, e.protocolName.value, e, seen);
    }
    if e.tls.Some? {
      ext, seen := InsertTls(ext, e.tls.value, e, seen);
    }
  }

  method ApiFields(e: OcsfEvent) returns (ext: map<string, string>, ghost seen: set<Key>)
    requires e.ApiActivity?
    ensures Holds(ext, e, seen) && AllSeen(e, seen)
  {
    hide Name, CaptionText, Decimal, Holds;
    HoldsNothing(e);
    ext, seen := map[], {};
    ext, seen := Insert(ext, Number1, Decimal(e.header.typeUid), e, seen);
    ext, seen := Insert(ext, Number1Label, CaptionText(TypeUid), e, seen);
    ext, seen := Insert(ext, String1, e.serviceUid, e, seen);
    ext, seen := Insert(ext, String1Label, CaptionText(ServiceUid), e, seen);
    ext, seen := Insert(ext, String2, e.serviceName, e, seen);
    ext, seen := Insert(ext, String2Label, CaptionText(ServiceName), e, seen);
    if e.actor.Some? {
      ext, seen := Insert(ext, String3, e.actor.value, e, seen);
      ext, seen := Insert(ext, String3Label, CaptionText(ClientGuid), e, seen);
    }
  }

  method FindingFields(e: OcsfEvent) returns (ext: map<string, string>, ghost seen: set<Key>)
    requires e.DetectionFinding?
    ensures Holds(ext, e, seen) && AllSeen(e, seen)
  {
    hide Name, CaptionText, Decimal, Holds;
    HoldsNothing(e);
    ext, seen := map[], {};
    ext, seen := Insert(ext, Number1, Decimal(e.header.typeUid), e, seen);
    ext, seen := Insert(ext, Number1Label, CaptionText(TypeUid), e, seen);
    ext, seen := Insert(ext, Msg, e.desc, e, seen);
    if e.suser.Some? {
      ext, seen := Insert(ext, Suser, e.suser.value, e, seen);
    }
  }

  /** Fills the ordered map of extension fields, key by key: no insertion
      overwrites another, and what is in the map is what the record has to say. */
  method ExtensionFields(e: OcsfEvent) returns (ext: map<string, string>)
    ensures forall k :: FieldValue(e, k).Some? ==> Name(k) in ext && ext[Name(k)] == FieldValue(e, k).value
    ensures forall k :: FieldValue(e, k).None? ==> Name(k) !in ext
    ensures forall s :: s in ext ==> exists k :: s == Name(k)
    ensures ext == Fields(e)
  {
    hide Name, FieldValue, Holds, Fields;
    ghost var seen;
    match e {
      case NetworkActivity(_, _, _, _, _, _) => ext, seen := NetworkFields(e);
      case ApiActivity(_, _, _, _, _) => ext, seen := ApiFields(e);
      case DetectionFinding(_, _, _) => ext, seen := FindingFields(e);
    }
    HoldsAll(ext, e, seen);
    FieldsAt(e);
  }

  lemma HoldsNothing(e: OcsfEvent)
    ensures Holds(map[], e, {})
  {
  }

  lemma {:induction false} ExtensionTextNext(keys: seq<string>, i: nat, fields: map<string, string>)
    requires i < |keys| && forall k :: k in keys ==> k in fields
    ensures ExtensionText(keys[..i + 1], fields)
         == ExtensionText(keys[..i], fields) + (keys[i] + ['='] + EscapeExtension(fields[keys[i]]) + [' '])
    decreases i
  {
    hide EscapeExtension;
    if i == 0 {
      assert keys[..1] == [keys[0]] && keys[..1][1..] == [];
    } else {
      assert keys[..i + 1][1..] == keys[1..][..i] && keys[..i][1..] == keys[1..][..i - 1];
      ExtensionTextNext(keys[1..], i - 1, fields);
    }
  }

  method PrintHeader(fields: seq<string>) returns (text: string)
    ensures text == HeaderText(fields)
  {
    hide EscapeHeader;
    text := "";
    for i := 0 to |fields|
      invariant text + HeaderText(fields[i..]) == HeaderText(fields)
    {
      assert fields[i..][1..] == fields[i + 1..];
      text := text + EscapeHeader(fields[i]) + ['|'];
    }
  }

  /** Walks the fields in key order. */
  method PrintExtension(ext: map<string, string>) returns (text: string)
    ensures text == ExtensionText(KeyOrder.SortedKeys(ext.Keys), ext)
  {
    hide EscapeExtension, KeyOrder.Sort, KeyOrder.SortedKeys;
    var todo, order := ext.Keys, [];
    while todo != {}
      invariant todo <= ext.Keys && Enumerates(order, ext.Keys - todo)
      decreases todo
    {
      var k :| k in todo;
      todo, order := todo - {k}, order + [k];
    }
    assert ext.Keys - todo == ext.Keys;
    var keys := KeyOrder.Sort(order);
    KeyOrder.SortIsSortedKeys(order, ext.Keys);
    text := "";
    for i := 0 to |keys|
      invariant text == ExtensionText(keys[..i], ext)
    {
      ExtensionTextNext(keys, i, ext);
      text := text + (keys[i] + ['='] + EscapeExtension(ext[keys[i]]) + [' ']);
    }
    assert keys[..|keys|] == keys;
  }

  /** `format_cef` */
  method FormatCef(e: OcsfEvent) returns (line: string)
    ensures line == Line(e)
  {
    hide HeaderText, HeaderFields, ExtensionText, TrimEnd, Fields;
    var header := PrintHeader(HeaderFields(e.header));
    var ext := ExtensionFields(e);
    var text := PrintExtension(ext);
    line := "CEF:" + header + TrimEnd(text);
  }
}
