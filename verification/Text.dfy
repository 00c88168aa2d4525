/** The string operations the sensor uses, on sequences of Unicode scalar values. */
module Text {

  /** Unicode's White_Space property, which `trim` goes by. */
  predicate IsWhitespace(c: char) {
    || '\U{9}' <= c <= '\U{D}' || c == ' ' || c == '\U{85}' || c == '\U{A0}' || c == '\U{1680}'
    || '\U{2000}' <= c <= '\U{200A}' || c == '\U{2028}' || c == '\U{2029}' || c == '\U{202F}'
    || c == '\U{205F}' || c == '\U{3000}'
  }

  /** Unicode's general category Cc. */
  predicate IsControl(c: char) { c < ' ' || '\U{7F}' <= c <= '\U{9F}' }

  function TrimStart(s: string): string {
    if s != [] && IsWhitespace(s[0]) then TrimStart(s[1..]) else s
  }

  function TrimEnd(s: string): (r: string)
    ensures r <= s
  {
    if s != [] && IsWhitespace(s[|s| - 1]) then TrimEnd(s[..|s| - 1]) else s
  }

  function Trim(s: string): string { TrimEnd(TrimStart(s)) }

  predicate Blank(s: string) { Trim(s) == "" }

  predicate StartsWith(s: string, prefix: string) { prefix <= s }

  predicate Contains(s: string, part: string) {
    part <= s || (s != [] && Contains(s[1..], part))
  }

  /** The pieces between occurrences of `c`; always at least one. */
  function Split(s: string, c: char): (r: seq<string>)
    ensures r != []
  {
    if s == [] then [[]]
    else if s[0] == c then [[]] + Split(s[1..], c)
    else
      var rest := Split(s[1..], c);
      [[s[0]] + rest[0]] + rest[1..]
  }

  function Before(s: string, c: char): string { Split(s, c)[0] }

  function Without(s: string, c: char): string {
    if s == [] then [] else (if s[0] == c then [] else [s[0]]) + Without(s[1..], c)
  }

  function DropLeading(s: string, c: char): string {
    if s != [] && s[0] == c then DropLeading(s[1..], c) else s
  }

  function DropTrailing(s: string, c: char): string {
    if s != [] && s[|s| - 1] == c then DropTrailing(s[..|s| - 1], c) else s
  }

  function LowerChar(c: char): char {
    if 'A' <= c <= 'Z' then c - 'A' + 'a' else c
  }

  function AsciiLower(s: string): string {
    if s == [] then [] else [LowerChar(s[0])] + AsciiLower(s[1..])
  }

  predicate IsHexDigit(c: char) { '0' <= c <= '9' || 'a' <= c <= 'f' || 'A' <= c <= 'F' }

  function StripCarriageReturn(s: string): string {
    if s != [] && s[|s| - 1] == '\r' then s[..|s| - 1] else s
  }

  function StripEach(lines: seq<string>): seq<string> {
    if lines == [] then [] else [StripCarriageReturn(lines[0])] + StripEach(lines[1..])
  }

  /** `lines`: what each newline ends, without a carriage return before it, and
      then what is left if anything is. */
  function Lines(s: string): seq<string> {
    var pieces := Split(s, '\n');
    var n := |pieces| - 1;
    StripEach(pieces[..n]) + if pieces[n] == "" then [] else [pieces[n]]
  }

  // Identities

  /** `normalize_thumbprint` */
  function NormalizeThumbprint(s: string): string { AsciiLower(Without(Trim(s), ':')) }

  /** `normalize_identity` */
  function NormalizeIdentity(s: string): string {
    AsciiLower(Without(DropTrailing(DropLeading(Before(Trim(s), ':'), '{'), '}'), ':'))
  }

  /** `is_hex_thumbprint` */
  predicate IsHexThumbprint(s: string) {
    var head := Before(Trim(s), ':');
    |head| == 40 && forall i :: 0 <= i < 40 ==> IsHexDigit(head[i])
  }

  // Blank text

  lemma {:induction false} TrimEndBlank(s: string)
    requires TrimEnd(s) == []
    ensures forall i :: 0 <= i < |s| ==> IsWhitespace(s[i])
  {
    if s == [] {
    } else {
      TrimEndBlank(s[..|s| - 1]);
    }
  }

  lemma {:induction false} BlankIsWhitespace(s: string)
    requires Blank(s)
    ensures forall i :: 0 <= i < |s| ==> IsWhitespace(s[i])
    decreases |s|
  {
    if s != [] && IsWhitespace(s[0]) {
      BlankIsWhitespace(s[1..]);
    } else {
      TrimEndBlank(s);
    }
  }

  lemma {:induction false} SplitWithout(s: string, c: char)
    requires c !in s
    ensures Split(s, c) == [s]
  {
    if s == [] {
    } else {
      SplitWithout(s[1..], c);
      assert [s[0]] + s[1..] == s;
    }
  }

  // An identity with an instance suffix is the identity itself

  lemma {:induction false} BeforeFirst(head: string, c: char, rest: string)
    requires c !in head
    ensures Before(head + [c] + rest, c) == head && Before(head, c) == head
    decreases |head|
  {
    var s := head + [c] + rest;
    if head == [] {
      assert s[0] == c;
    } else {
      assert s[1..] == head[1..] + [c] + rest;
      BeforeFirst(head[1..], c, rest);
      assert [head[0]] + head[1..] == head;
    }
  }

  lemma {:induction false} TrimEndStopsAt(head: string, c: char, rest: string)
    requires !IsWhitespace(c)
    ensures TrimEnd(head + [c] + rest) == head + [c] + TrimEnd(rest)
    decreases |rest|
  {
    var s := head + [c] + rest;
    if rest == [] {
    } else {
      assert s[..|s| - 1] == head + [c] + rest[..|rest| - 1];
      TrimEndStopsAt(head, c, rest[..|rest| - 1]);
    }
  }

  /** The same client under any instance has the same normalized identity and is
      a thumbprint or not alike. */
  lemma InstanceIgnored(id: string, instance: string)
    requires id != "" && Trim(id) == id && ':' !in id
    ensures NormalizeIdentity(id + ":" + instance) == NormalizeIdentity(id)
    ensures IsHexThumbprint(id + ":" + instance) == IsHexThumbprint(id)
  {
    NotBlankStart(id);
    TrimEndStopsAt(id, ':', instance);
    assert Trim(id + ":" + instance) == id + [':'] + TrimEnd(instance);
    BeforeFirst(id, ':', TrimEnd(instance));
  }

  lemma NotBlankStart(id: string)
    requires id != "" && Trim(id) == id
    ensures !IsWhitespace(id[0])
  {
    TrimStartShorter(id);
  }

  lemma {:induction false} TrimStartShorter(s: string)
    ensures |TrimStart(s)| <= |s|
    ensures s != [] && IsWhitespace(s[0]) ==> |TrimStart(s)| < |s|
  {
    if s == [] || !IsWhitespace(s[0]) {
    } else {
      TrimStartShorter(s[1..]);
    }
  }

  // What the operations mean, apart from how they are computed

  predicate AllWhitespace(s: string) { forall i :: 0 <= i < |s| ==> IsWhitespace(s[i]) }

  /** Of the ASCII characters, tab to carriage return and the space are whitespace,
      and the first 32 and the last are controls. */
  lemma AsciiClasses(c: char)
    requires c < '\U{80}'
    ensures IsWhitespace(c) <==> 9 <= c as int <= 13 || c == ' '
    ensures IsControl(c) <==> c as int < 32 || c as int == 127
  {
  }

  lemma {:induction false} TrimStartPadded(pad: string, s: string)
    requires AllWhitespace(pad)
    ensures TrimStart(pad + s) == TrimStart(s)
    decreases |pad|
  {
    if pad == [] {
      assert pad + s == s;
    } else {
      assert (pad + s)[1..] == pad[1..] + s;
      TrimStartPadded(pad[1..], s);
    }
  }

  lemma {:induction false} TrimEndPadded(s: string, pad: string)
    requires AllWhitespace(pad)
    ensures TrimEnd(s + pad) == TrimEnd(s)
    decreases |pad|
  {
    if pad == [] {
      assert s + pad == s;
    } else {
      assert (s + pad)[..|s + pad| - 1] == s + pad[..|pad| - 1];
      TrimEndPadded(s, pad[..|pad| - 1]);
    }
  }

  /** Trimming takes whitespace off both ends and nothing else. */
  lemma TrimExactly(front: string, s: string, back: string)
    requires AllWhitespace(front) && AllWhitespace(back)
    requires s != "" ==> !IsWhitespace(s[0]) && !IsWhitespace(s[|s| - 1])
    ensures Trim(front + s + back) == s
  {
    assert front + s + back == front + (s + back);
    TrimStartPadded(front, s + back);
    if s == "" {
      assert s + back == back + [];
      TrimStartPadded(back, []);
    } else {
      assert (s + back)[0] == s[0];
      TrimEndPadded(s, back);
    }
  }

  /** Blank text is whitespace throughout. */
  lemma BlankExactly(s: string)
    ensures Blank(s) <==> AllWhitespace(s)
  {
    if Blank(s) {
      BlankIsWhitespace(s);
    }
    if AllWhitespace(s) {
      TrimExactly(s, "", "");
      assert s + "" + "" == s;
    }
  }

  /** Splitting cuts at every separator: the pieces of `a`, then those of `b`. */
  lemma {:induction false} SplitJoin(a: string, c: char, b: string)
    ensures Split(a + [c] + b, c) == Split(a, c) + Split(b, c)
    decreases |a|
  {
    var s := a + [c] + b;
    if a == [] {
      assert s[1..] == b;
    } else {
      assert s[1..] == a[1..] + [c] + b;
      SplitJoin(a[1..], c, b);
      SplitNotEmpty(a, c);
    }
  }

  lemma SplitNotEmpty(a: string, c: char)
    requires a != []
    ensures var rest := Split(a[1..], c);
            Split(a, c) == if a[0] == c then [[]] + rest else [[a[0]] + rest[0]] + rest[1..]
  {
  }

  lemma {:induction false} ContainsInside(a: string, part: string, b: string)
    ensures Contains(a + part + b, part)
    decreases |a|
  {
    var s := a + part + b;
    if a == [] {
      assert s == part + b;
    } else {
      assert s[1..] == a[1..] + part + b;
      ContainsInside(a[1..], part, b);
    }
  }

  lemma {:induction false} ContainsWhere(s: string, part: string) returns (a: string, b: string)
    requires Contains(s, part)
    ensures s == a + part + b
  {
    if part <= s {
      a, b := "", s[|part|..];
    } else {
      var front, back := ContainsWhere(s[1..], part);
      a, b := [s[0]] + front, back;
    }
  }

  /** A text contains another exactly when it can be cut around it. */
  lemma ContainsExactly(s: string, part: string)
    ensures Contains(s, part) <==> exists a, b :: s == a + part + b
  {
    if Contains(s, part) {
      var a, b := ContainsWhere(s, part);
    }
    forall a, b | s == a + part + b ensures Contains(s, part) {
      ContainsInside(a, part, b);
    }
  }

  /** A text line by line: each newline ends a line, and a carriage return before
      it goes too; a last line without a newline is kept as it is. */
  lemma LinesExactly(line: string, rest: string)
    requires '\n' !in line
    ensures Lines(line + ['\n'] + rest)
         == [if line != "" && line[|line| - 1] == '\r' then line[..|line| - 1] else line] + Lines(rest)
    ensures Lines(line) == if line == "" then [] else [line]
  {
    SplitJoin(line, '\n', rest);
    SplitWithout(line, '\n');
    assert [line][..0] == [];
    var pieces := Split(rest, '\n');
    var n := |pieces| - 1;
    assert ([line] + pieces)[..n + 1] == [line] + pieces[..n];
    assert ([line] + pieces[..n])[1..] == pieces[..n];
  }

  /** Lower case, letter by letter: the 26 capitals of ASCII and nothing else. */
  lemma {:induction false} AsciiLowerAt(s: string, i: nat)
    requires i < |s|
    ensures |AsciiLower(s)| == |s|
    ensures AsciiLower(s)[i] == if 65 <= s[i] as int <= 90 then (s[i] as int + 32) as char else s[i]
    decreases |s|
  {
    if |s| == 1 {
      assert AsciiLower(s[1..]) == [];
    } else {
      AsciiLowerAt(s[1..], if i > 0 then i - 1 else 0);
    }
  }

  lemma {:induction false} WithoutJoin(a: string, b: string, c: char)
    ensures Without(a + b, c) == Without(a, c) + Without(b, c)
    decreases |a|
  {
    if a == [] {
      assert a + b == b;
    } else {
      assert (a + b)[1..] == a[1..] + b;
      WithoutJoin(a[1..], b, c);
    }
  }

  lemma {:induction false} WithoutNone(s: string, c: char)
    requires c !in s
    ensures Without(s, c) == s
  {
    if s == [] {
    } else {
      WithoutNone(s[1..], c);
      assert [s[0]] + s[1..] == s;
    }
  }

  lemma {:induction false} AsciiLowerJoin(a: string, b: string)
    ensures AsciiLower(a + b) == AsciiLower(a) + AsciiLower(b)
    decreases |a|
  {
    if a == [] {
      assert a + b == b;
    } else {
      assert (a + b)[1..] == a[1..] + b;
      AsciiLowerJoin(a[1..], b);
    }
  }

  predicate NoWhitespace(s: string) { forall i :: 0 <= i < |s| ==> !IsWhitespace(s[i]) }

  /** Thumbprints: padding does not matter, colons do not matter wherever they
      stand, and what is left is put in lower case. */
  lemma ThumbprintExactly(front: string, a: string, b: string, back: string)
    requires AllWhitespace(front) && AllWhitespace(back) && NoWhitespace(a) && NoWhitespace(b)
    ensures NormalizeThumbprint(front + (a + ":" + b) + back) == NormalizeThumbprint(a) + NormalizeThumbprint(b)
    ensures ':' !in a ==> NormalizeThumbprint(front + a + back) == AsciiLower(a)
  {
    TrimExactly(front, a + ":" + b, back) by {
      assert !IsWhitespace(':');
    }
    TrimExactly(front, a, back);
    TrimExactly("", a, "");
    TrimExactly("", b, "");
    assert "" + a + "" == a && "" + b + "" == b;
    WithoutJoin(a + ":", b, ':');
    WithoutJoin(a, ":", ':');
    assert Without(":", ':') == "" && Without(a, ':') + "" == Without(a, ':');
    AsciiLowerJoin(Without(a, ':'), Without(b, ':'));
    if ':' !in a {
      WithoutNone(a, ':');
    }
  }

  lemma {:induction false} DropLeadingBraces(n: nat, core: string)
    requires core != "" && core[0] != '{'
    ensures DropLeading(seq(n, _ => '{') + core, '{') == core
  {
    var s := seq(n, _ => '{') + core;
    if n == 0 {
      assert s == core;
    } else {
      assert s[1..] == seq(n - 1, _ => '{') + core;
      DropLeadingBraces(n - 1, core);
    }
  }

  lemma {:induction false} DropTrailingBraces(core: string, n: nat)
    requires core != "" && core[|core| - 1] != '}'
    ensures DropTrailing(core + seq(n, _ => '}'), '}') == core
  {
    var s := core + seq(n, _ => '}');
    if n == 0 {
      assert s == core;
    } else {
      assert s[..|s| - 1] == core + seq(n - 1, _ => '}');
      DropTrailingBraces(core, n - 1);
    }
  }

  predicate SolidEnds(s: string) { s != "" ==> !IsWhitespace(s[0]) && !IsWhitespace(s[|s| - 1]) }

  /** The head of a padded id, with or without an instance after a colon. */
  lemma HeadOf(front: string, head: string, instance: string, back: string)
    requires AllWhitespace(front) && AllWhitespace(back) && ':' !in head && SolidEnds(head)
    ensures Before(Trim(front + head + back), ':') == head
    ensures Before(Trim(front + (head + ":" + instance)), ':') == head
  {
    TrimExactly(front, head, back);
    BeforeFirst(head, ':', "");
    TrimStartPadded(front, head + ":" + instance);
    assert (head + ":" + instance)[0] == if head == "" then ':' else head[0];
    assert TrimStart(head + ":" + instance) == head + [':'] + instance;
    TrimEndStopsAt(head, ':', instance);
    BeforeFirst(head, ':', TrimEnd(instance));
  }

  function Braced(n: nat, core: string, m: nat): string { seq(n, _ => '{') + (core + seq(m, _ => '}')) }

  lemma BracesStripped(n: nat, core: string, m: nat)
    requires core != "" && core[0] != '{' && core[|core| - 1] != '}'
    ensures DropTrailing(DropLeading(Braced(n, core, m), '{'), '}') == core
  {
    hide DropLeading, DropTrailing;
    DropLeadingBraces(n, core + seq(m, _ => '}'));
    DropTrailingBraces(core, m);
  }

  lemma BracedHead(n: nat, core: string, m: nat)
    requires core != "" && ':' !in core && SolidEnds(core)
    ensures ':' !in Braced(n, core, m) && SolidEnds(Braced(n, core, m))
  {
    var id := Braced(n, core, m);
    assert id[0] == if n > 0 then '{' else core[0];
    assert id[|id| - 1] == if m > 0 then '}' else core[|core| - 1];
  }

  /** Identities: padding, enclosing braces and an instance after a colon do not
      matter, and what is left is put in lower case. */
  lemma IdentityExactly(front: string, n: nat, core: string, m: nat, instance: string, back: string)
    requires AllWhitespace(front) && AllWhitespace(back)
    requires core != "" && ':' !in core && SolidEnds(core) && core[0] != '{' && core[|core| - 1] != '}'
    ensures NormalizeIdentity(front + Braced(n, core, m) + back) == AsciiLower(core)
    ensures NormalizeIdentity(front + (Braced(n, core, m) + ":" + instance)) == AsciiLower(core)
  {
    hide Before, Trim, DropLeading, DropTrailing, Without, AsciiLower, Braced, SolidEnds;
    BracedHead(n, core, m);
    HeadOf(front, Braced(n, core, m), instance, back);
    BracesStripped(n, core, m);
    WithoutNone(core, ':');
  }

  /** No identity is left of blank text, or of an empty head. */
  lemma NoIdentity(front: string, instance: string)
    requires AllWhitespace(front)
    ensures NormalizeIdentity(front) == "" && NormalizeIdentity(front + ":" + instance) == ""
  {
    HeadOf(front, "", instance, "");
    assert front + "" + "" == front && front + ("" + ":" + instance) == front + ":" + instance;
  }

  /** A thumbprint is an id whose head is 40 hexadecimal digits. */
  lemma HexThumbprintExactly(front: string, head: string, instance: string, back: string)
    requires AllWhitespace(front) && AllWhitespace(back) && ':' !in head && SolidEnds(head)
    ensures IsHexThumbprint(front + head + back)
       <==> |head| == 40 && forall i :: 0 <= i < 40 ==> head[i] in "0123456789abcdefABCDEF"
    ensures IsHexThumbprint(front + (head + ":" + instance)) == IsHexThumbprint(front + head + back)
  {
    HeadOf(front, head, instance, back);
    hide Before, Trim;
    forall c: char ensures IsHexDigit(c) <==> c in "0123456789abcdefABCDEF" {
      HexDigits(c);
    }
    hide IsHexDigit;
  }

  lemma HexDigits(c: char)
    ensures IsHexDigit(c) <==> c in "0123456789abcdefABCDEF"
  {
    var digits := "0123456789abcdefABCDEF";
    if '0' <= c <= '9' {
      assert digits[c as int - '0' as int] == c;
    } else if 'a' <= c <= 'f' {
      assert digits[c as int - 'a' as int + 10] == c;
    } else if 'A' <= c <= 'F' {
      assert digits[c as int - 'A' as int + 16] == c;
    }
  }
}
