/** The parts of MessagePack the DXL codec uses: the int, str, bin and array
    format families. A reader looks at the whole input `s` from position `p`
    and either fails or says where the next value starts. */
module MsgPack {
  import opened Prelude
  import Utf8

  datatype ReadError =
    | UnexpectedEof
    | TypeMismatch
    | OutOfRange
    | InvalidUtf8
    | ErrorCodeOutOfRange
    | UnknownMessageType

  datatype Parsed<+T> = Fail(error: ReadError) | Done(value: T, next: nat) {
    predicate IsFailure() { Fail? }

    function PropagateFailure<U>(): Parsed<U>
      requires Fail?
    {
      Fail(error)
    }

    function Extract(): (T, nat)
      requires Done?
    {
      (value, next)
    }
  }

  const TWO_32 := 0x1_0000_0000

  /** `e` stands in `s` at position `p`. */
  predicate At(s: Bytes, p: nat, e: Bytes) {
    p + |e| <= |s| && s[p..p + |e|] == e
  }

  lemma AtSplit(s: Bytes, p: nat, e: Bytes, e1: Bytes, e2: Bytes)
    requires At(s, p, e) && e == e1 + e2
    ensures At(s, p, e1) && At(s, p + |e1|, e2)
  {
    assert s[p..p + |e1|] == s[p..p + |e|][..|e1|] == e1;
    assert s[p + |e1|..p + |e|] == s[p..p + |e|][|e1|..] == e2;
  }

  /** `t` is `s` up to position `n`, as far as `t` goes. */
  predicate Follows(t: Bytes, s: Bytes, n: nat) {
    n <= |s| && forall i :: 0 <= i < n && i < |t| ==> t[i] == s[i]
  }

  /** What a self-delimiting reader that ends at `r.next` answers on `t`. */
  function Cut<T>(r: Parsed<T>, t: Bytes): Parsed<T>
    requires r.Done?
  {
    if r.next <= |t| then r else Fail(UnexpectedEof)
  }

  // Big-endian numbers

  function BigEndian(s: Bytes): nat {
    if s == [] then 0 else BigEndian(s[..|s| - 1]) * 0x100 + s[|s| - 1]
  }

  /** The low `w` bytes of `n`, as `to_be_bytes` gives them after a cast. */
  function ToBigEndian(n: nat, w: nat): (s: Bytes)
    ensures |s| == w
  {
    if w == 0 then [] else ToBigEndian(n / 0x100, w - 1) + [n % 0x100]
  }

  function Pow256(w: nat): nat {
    if w == 0 then 1 else 0x100 * Pow256(w - 1)
  }

  lemma {:induction false} BigEndianBound(s: Bytes)
    ensures BigEndian(s) < Pow256(|s|)
  {
    if s == [] {
    } else {
      BigEndianBound(s[..|s| - 1]);
    }
  }

  lemma {:induction false} BigEndianRoundTrip(n: nat, w: nat)
    requires n < Pow256(w)
    ensures BigEndian(ToBigEndian(n, w)) == n
  {
    if w == 0 {
    } else {
      BigEndianRoundTrip(n / 0x100, w - 1);
      assert ToBigEndian(n, w)[..w - 1] == ToBigEndian(n / 0x100, w - 1);
    }
  }

  lemma Widths()
    ensures Pow256(1) == 0x100 && Pow256(2) == 0x1_0000
    ensures Pow256(4) == TWO_32 && Pow256(8) == TWO_32 * TWO_32
  {
    assert Pow256(3) == 0x100_0000 && Pow256(5) == 0x100 * Pow256(4);
    assert Pow256(6) == 0x1_0000 * Pow256(4) && Pow256(7) == 0x100 * Pow256(6);
  }

  function ReadUint(s: Bytes, p: nat, w: nat): (r: Parsed<nat>)
    ensures r.Done? ==> r.next == p + w <= |s|
  {
    if p + w <= |s| then Done(BigEndian(s[p..p + w]), p + w) else Fail(UnexpectedEof)
  }

  lemma ReadUintBound(s: Bytes, p: nat, w: nat)
    requires ReadUint(s, p, w).Done?
    ensures ReadUint(s, p, w).value < Pow256(w)
  {
    BigEndianBound(s[p..p + w]);
  }

  lemma ReadUintWritten(s: Bytes, p: nat, n: nat, w: nat)
    requires At(s, p, ToBigEndian(n, w)) && n < Pow256(w)
    ensures ReadUint(s, p, w) == Done(n, p + w)
  {
    BigEndianRoundTrip(n, w);
  }

  lemma ReadUintLocal(s: Bytes, t: Bytes, p: nat, w: nat)
    requires ReadUint(s, p, w).Done? && Follows(t, s, p + w)
    ensures ReadUint(t, p, w) == Cut(ReadUint(s, p, w), t)
  {
    if p + w <= |t| {
      assert t[p..p + w] == s[p..p + w];
    }
  }

  // int format family

  function Signed(n: nat, w: nat): int {
    if 2 * n < Pow256(w) then n else n - Pow256(w)
  }

  /** The number of bytes after an int marker and whether they are signed. */
  function IntWidth(marker: byte): Option<(nat, bool)> {
    match marker
    case 0xCC => Some((1, false))
    case 0xCD => Some((2, false))
    case 0xCE => Some((4, false))
    case 0xCF => Some((8, false))
    case 0xD0 => Some((1, true))
    case 0xD1 => Some((2, true))
    case 0xD2 => Some((4, true))
    case 0xD3 => Some((8, true))
    case _ => None
  }

  /** Any integer encoding, as the number it stands for. */
  function ReadNumber(s: Bytes, p: nat): (r: Parsed<int>)
    ensures r.Done? ==> p < r.next <= |s|
  {
    if p >= |s| then Fail(UnexpectedEof)
    else if s[p] < 0x80 then Done(s[p], p + 1)
    else if s[p] >= 0xE0 then Done(s[p] as int - 0x100, p + 1)
    else
      match IntWidth(s[p])
      case None => Fail(TypeMismatch)
      case Some((w, signed)) =>
        var (n, q) :- ReadUint(s, p + 1, w);
        Done(if signed then Signed(n, w) else n, q)
  }

  /** `read_int` at an integer type with bounds `lo` and `hi`. */
  function ReadInt(s: Bytes, p: nat, lo: int, hi: int): (r: Parsed<int>)
    ensures r.Done? ==> p < r.next <= |s| && lo <= r.value <= hi
  {
    var (n, q) :- ReadNumber(s, p);
    if lo <= n <= hi then Done(n, q) else Fail(OutOfRange)
  }

  function WriteUint(n: nat): Bytes
    requires n < TWO_32 * TWO_32
  {
    if n < 0x80 then [n]
    else if n < 0x100 then [0xCC] + ToBigEndian(n, 1)
    else if n < 0x1_0000 then [0xCD] + ToBigEndian(n, 2)
    else if n < TWO_32 then [0xCE] + ToBigEndian(n, 4)
    else [0xCF] + ToBigEndian(n, 8)
  }

  function WriteSint(n: i64): Bytes {
    if n >= 0 then WriteUint(n)
    else if n >= -0x20 then [n + 0x100]
    else if n >= -0x80 then [0xD0] + ToBigEndian(n + 0x100, 1)
    else if n >= -0x8000 then [0xD1] + ToBigEndian(n + 0x1_0000, 2)
    else if n >= -0x8000_0000 then [0xD2] + ToBigEndian(n + TWO_32, 4)
    else [0xD3] + ToBigEndian(n + TWO_32 * TWO_32, 8)
  }

  lemma BigEndianTwo(a: byte, b: byte)
    ensures ToBigEndian(b, 1) == [b] && ToBigEndian(a * 0x100 + b, 2) == [a, b]
  {
    assert (a * 0x100 + b) / 0x100 == a && (a * 0x100 + b) % 0x100 == b;
    assert ToBigEndian(a, 1) == ToBigEndian(a / 0x100, 0) + [a % 0x100];
  }

  lemma BigEndianFour(a: byte, b: byte, c: byte, d: byte)
    ensures ToBigEndian(((a * 0x100 + b) * 0x100 + c) * 0x100 + d, 4) == [a, b, c, d]
  {
    BigEndianTwo(a, b);
    hide ToBigEndian;
    BigEndianNext(a * 0x100 + b, c, 2);
    BigEndianNext((a * 0x100 + b) * 0x100 + c, d, 3);
  }

  lemma BigEndianNext(n: nat, last: byte, w: nat)
    ensures ToBigEndian(n * 0x100 + last, w + 1) == ToBigEndian(n, w) + [last]
  {
    assert (n * 0x100 + last) / 0x100 == n && (n * 0x100 + last) % 0x100 == last;
  }

  /** The integers of the reference vectors have the bytes those vectors show. */
  lemma GoldenIntegers()
    ensures WriteSint(-0x8000_0000) == [0xD2, 0x80, 0x00, 0x00, 0x00]
    ensures WriteSint(200) == [0xCC, 0xC8]
    ensures WriteSint(70000) == [0xCE, 0x00, 0x01, 0x11, 0x70]
    ensures WriteSint(-100) == [0xD0, 0x9C]
  {
    hide ToBigEndian;
    BigEndianFour(0x80, 0x00, 0x00, 0x00);
    BigEndianTwo(0, 0xC8);
    BigEndianFour(0x00, 0x01, 0x11, 0x70);
    BigEndianTwo(0, 0x9C);
  }

  /** Big-endian: the last byte counts once and each byte before it 256 times as
      much as the next. */
  lemma BigEndianExactly(s: Bytes)
    ensures |s| == 1 ==> BigEndian(s) == s[0]
    ensures |s| == 2 ==> BigEndian(s) == s[0] as int * 0x100 + s[1] as int
    ensures |s| == 4 ==>
              BigEndian(s) == ((s[0] as int * 0x100 + s[1] as int) * 0x100 + s[2] as int) * 0x100 + s[3] as int
    ensures |s| == 8 ==> BigEndian(s) == BigEndian(s[..4]) * 0x1_0000_0000 + BigEndian(s[4..])
  {
    BigEndianShort(s);
    if |s| == 8 {
      BigEndianJoin(s[..4], s[4..]);
      assert s == s[..4] + s[4..];
      Widths();
    }
  }

  lemma BigEndianShort(s: Bytes)
    ensures |s| == 1 ==> BigEndian(s) == s[0]
    ensures |s| == 2 ==> BigEndian(s) == s[0] as int * 0x100 + s[1] as int
    ensures |s| == 4 ==>
              BigEndian(s) == ((s[0] as int * 0x100 + s[1] as int) * 0x100 + s[2] as int) * 0x100 + s[3] as int
  {
    if |s| == 2 {
      assert s[..1][..0] == [];
    } else if |s| == 4 {
      assert s[..3][..2] == s[..2] && s[..2][..1] == s[..1] && s[..1][..0] == [];
      assert BigEndian(s[..1]) == s[0] && BigEndian(s[..2]) == BigEndian(s[..2][..1]) * 0x100 + s[1] as int;
      assert BigEndian(s[..3]) == BigEndian(s[..2]) * 0x100 + s[2] as int;
    }
  }

  lemma Distribute(x: nat, p: nat, y: nat)
    ensures (x * p + y) * 0x100 == x * (0x100 * p) + y * 0x100
  {
  }

  lemma BigEndianLast(s: Bytes)
    requires s != []
    ensures BigEndian(s) == BigEndian(s[..|s| - 1]) * 0x100 + s[|s| - 1] as int
  {
  }

  lemma {:induction false} BigEndianJoin(a: Bytes, b: Bytes)
    ensures BigEndian(a + b) == BigEndian(a) * Pow256(|b|) + BigEndian(b)
    decreases |b|
  {
    if b == [] {
      assert a + b == a;
    } else {
      var front := b[..|b| - 1];
      assert Pow256(|b|) == 0x100 * Pow256(|front|);
      BigEndianLast(a + b);
      BigEndianLast(b);
      hide BigEndian, Pow256;
      BigEndianJoin(a, front);
      Distribute(BigEndian(a), Pow256(|front|), BigEndian(front));
      assert (a + b)[..|a + b| - 1] == a + front;
    }
  }

  /** What stands behind an integer marker, by the table of the int format family:
      the number itself, or one, two, four or eight bytes, unsigned or in two's
      complement. */
  lemma IntegersExactly(s: Bytes, p: nat)
    ensures ReadNumber(s, p).Done? <==>
      && p < |s|
      && (s[p] < 0x80 || s[p] >= 0xE0
          || (s[p] in {0xCC, 0xD0} && p + 2 <= |s|) || (s[p] in {0xCD, 0xD1} && p + 3 <= |s|)
          || (s[p] in {0xCE, 0xD2} && p + 5 <= |s|) || (s[p] in {0xCF, 0xD3} && p + 9 <= |s|))
    ensures ReadNumber(s, p).Done? ==>
      var r, marker := ReadNumber(s, p).value, s[p];
      var w := ReadNumber(s, p).next - p - 1;
      if marker < 0x80 then w == 0 && r == marker
      else if marker >= 0xE0 then w == 0 && r == marker as int - 256
      else
        && w == (match marker
                 case 0xCC => 1 case 0xD0 => 1 case 0xCD => 2 case 0xD1 => 2
                 case 0xCE => 4 case 0xD2 => 4 case _ => 8)
        && var n := BigEndian(s[p + 1..p + 1 + w]);
           r == match marker
                case 0xD0 => (if n >= 0x80 then n - 0x100 else n)
                case 0xD1 => (if n >= 0x8000 then n - 0x1_0000 else n)
                case 0xD2 => (if n >= 0x8000_0000 then n - 0x1_0000_0000 else n)
                case 0xD3 => (if n >= 0x8000_0000_0000_0000 then n - 0x1_0000_0000_0000_0000 else n)
                case _ => n
  {
    Widths();
    hide BigEndian, Pow256;
  }

  lemma ReadNumberMarked(s: Bytes, p: nat, marker: byte, n: nat, w: nat)
    requires At(s, p, [marker] + ToBigEndian(n, w)) && n < Pow256(w)
    requires IntWidth(marker).Some? && IntWidth(marker).value.0 == w
    ensures ReadNumber(s, p)
         == Done(if IntWidth(marker).value.1 then Signed(n, w) else n, p + 1 + w)
  {
    AtSplit(s, p, [marker] + ToBigEndian(n, w), [marker], ToBigEndian(n, w));
    assert s[p] == s[p..p + 1][0];
    ReadUintWritten(s, p + 1, n, w);
  }

  lemma ReadNumberOfUint(s: Bytes, p: nat, n: nat)
    requires n < TWO_32 * TWO_32 && At(s, p, WriteUint(n))
    ensures ReadNumber(s, p) == Done(n, p + |WriteUint(n)|)
  {
    Widths();
    if n < 0x80 {
      assert s[p] == s[p..p + 1][0];
    } else if n < 0x100 {
      ReadNumberMarked(s, p, 0xCC, n, 1);
    } else if n < 0x1_0000 {
      ReadNumberMarked(s, p, 0xCD, n, 2);
    } else if n < TWO_32 {
      ReadNumberMarked(s, p, 0xCE, n, 4);
    } else {
      ReadNumberMarked(s, p, 0xCF, n, 8);
    }
  }

  lemma ReadNumberOfSint(s: Bytes, p: nat, n: i64)
    requires At(s, p, WriteSint(n))
    ensures ReadNumber(s, p) == Done(n, p + |WriteSint(n)|)
  {
    Widths();
    if n >= 0 {
      ReadNumberOfUint(s, p, n);
    } else if n >= -0x20 {
      assert s[p] == s[p..p + 1][0];
    } else if n >= -0x80 {
      ReadNumberMarked(s, p, 0xD0, n + 0x100, 1);
    } else if n >= -0x8000 {
      ReadNumberMarked(s, p, 0xD1, n + 0x1_0000, 2);
    } else if n >= -0x8000_0000 {
      ReadNumberMarked(s, p, 0xD2, n + TWO_32, 4);
    } else {
      ReadNumberMarked(s, p, 0xD3, n + TWO_32 * TWO_32, 8);
    }
  }

  lemma ReadNumberLocal(s: Bytes, t: Bytes, p: nat)
    requires ReadNumber(s, p).Done? && Follows(t, s, ReadNumber(s, p).next)
    ensures ReadNumber(t, p) == Cut(ReadNumber(s, p), t)
  {
    if p < |t| && 0x80 <= s[p] < 0xE0 {
      ReadUintLocal(s, t, p + 1, IntWidth(s[p]).value.0);
    }
  }

  lemma ReadIntLocal(s: Bytes, t: Bytes, p: nat, lo: int, hi: int)
    requires ReadInt(s, p, lo, hi).Done? && Follows(t, s, ReadInt(s, p, lo, hi).next)
    ensures ReadInt(t, p, lo, hi) == Cut(ReadInt(s, p, lo, hi), t)
  {
    ReadNumberLocal(s, t, p);
  }

  // str and bin format families

  /** The number of length bytes after a str or bin marker; a fixstr marker
      carries its length itself. */
  function LengthWidth(marker: byte): Option<nat> {
    match marker
    case 0xD9 => Some(1)
    case 0xDA => Some(2)
    case 0xDB => Some(4)
    case 0xC4 => Some(1)
    case 0xC5 => Some(2)
    case 0xC6 => Some(4)
    case _ => None
  }

  function ReadLength(s: Bytes, p: nat): (r: Parsed<nat>)
    ensures r.Done? ==> p < r.next <= |s|
  {
    if p >= |s| then Fail(UnexpectedEof)
    else if 0xA0 <= s[p] < 0xC0 then Done(s[p] as int - 0xA0, p + 1)
    else
      match LengthWidth(s[p])
      case None => Fail(TypeMismatch)
      case Some(w) => ReadUint(s, p + 1, w)
  }

  function ReadStrOrBin(s: Bytes, p: nat): (r: Parsed<Bytes>)
    ensures r.Done? ==> p < r.next <= |s|
  {
    var (len, q) :- ReadLength(s, p);
    if q + len <= |s| then Done(s[q..q + len], q + len) else Fail(UnexpectedEof)
  }

  /** `write_string` and `write_bytes`: a length of 2^32 or more loses its high
      bits to the cast, while all the bytes are still written. */
  function WriteBytes(b: Bytes): (e: Bytes)
    ensures e != []
  {
    LengthHeader(|b|) + b
  }

  function LengthHeader(len: nat): Bytes {
    if len < 32 then [0xA0 + len]
    else if len < 0x1_0000 then [0xDA] + ToBigEndian(len, 2)
    else [0xDB] + ToBigEndian(len, 4)
  }

  lemma ReadLengthOfHeader(s: Bytes, p: nat, len: nat)
    requires len < TWO_32 && At(s, p, LengthHeader(len))
    ensures ReadLength(s, p) == Done(len, p + |LengthHeader(len)|)
  {
    Widths();
    assert s[p] == s[p..p + |LengthHeader(len)|][0];
    if len < 32 {
    } else if len < 0x1_0000 {
      AtSplit(s, p, LengthHeader(len), [0xDA], ToBigEndian(len, 2));
      ReadUintWritten(s, p + 1, len, 2);
    } else {
      AtSplit(s, p, LengthHeader(len), [0xDB], ToBigEndian(len, 4));
      ReadUintWritten(s, p + 1, len, 4);
    }
  }

  lemma ReadBytesWritten(s: Bytes, p: nat, b: Bytes)
    requires |b| < TWO_32 && At(s, p, WriteBytes(b))
    ensures ReadStrOrBin(s, p) == Done(b, p + |WriteBytes(b)|)
  {
    hide LengthHeader, ReadLength;
    AtSplit(s, p, WriteBytes(b), LengthHeader(|b|), b);
    ReadLengthOfHeader(s, p, |b|);
  }

  /** The str and bin format families by their table: a length in the marker
      itself, or in one, two or four bytes behind it, and then that many bytes. */
  lemma ByteStringsExactly(s: Bytes, p: nat)
    ensures ReadStrOrBin(s, p).Done? ==>
      var w := (match s[p]
                case 0xD9 => 1 case 0xC4 => 1 case 0xDA => 2 case 0xC5 => 2 case 0xDB => 4 case 0xC6 => 4
                case _ => 0);
      && (s[p] in {0xD9, 0xDA, 0xDB, 0xC4, 0xC5, 0xC6} || 0xA0 <= s[p] <= 0xBF)
      && var q := p + 1 + w;
         var len := if w == 0 then s[p] as int - 0xA0 else BigEndian(s[p + 1..q]);
         q + len <= |s| && ReadStrOrBin(s, p) == Done(s[q..q + len], q + len)
    ensures p < |s| && s[p] in {0xD9, 0xDA, 0xDB, 0xC4, 0xC5, 0xC6} && ReadStrOrBin(s, p).Fail? ==>
              ReadStrOrBin(s, p) == Fail(UnexpectedEof)
    ensures p < |s| && 0xA0 <= s[p] <= 0xBF && ReadStrOrBin(s, p).Fail? ==>
              ReadStrOrBin(s, p) == Fail(UnexpectedEof) && p + 1 + (s[p] as int - 0xA0) > |s|
  {
    hide BigEndian;
  }

  /** The writer picks the shortest of three forms of the str format family. */
  lemma WrittenBytesExactly(b: Bytes)
    requires |b| < TWO_32
    ensures var n := |b|;
            WriteBytes(b)
            == (if n < 32 then [0xA0 + n]
                else if n < 65536 then [0xDA, n / 0x100, n % 0x100]
                else [0xDB, n / 0x100_0000, n / 0x1_0000 % 0x100, n / 0x100 % 0x100, n % 0x100]) + b
  {
    var n := |b|;
    if 32 <= n < 65536 {
      BigEndianTwo(n / 0x100, n % 0x100);
    } else if n >= 65536 {
      LowBytes(n);
    }
  }

  lemma DivideTwice(n: nat)
    ensures n / 0x1_0000 == n / 0x100 / 0x100
  {
  }

  lemma DivideThrice(n: nat)
    ensures n / 0x100_0000 == n / 0x100 / 0x100 / 0x100
  {
    DivideTwice(n);
    assert n / 0x100_0000 == n / 0x1_0000 / 0x100;
  }

  lemma LowBytes(n: u32)
    ensures ToBigEndian(n, 4) == [n / 0x100_0000, n / 0x1_0000 % 0x100, n / 0x100 % 0x100, n % 0x100]
  {
    var n1 := n / 0x100;
    var n2 := n1 / 0x100;
    var n3 := n2 / 0x100;
    assert n == n1 * 0x100 + n % 0x100 && n1 == n2 * 0x100 + n1 % 0x100 && n2 == n3 * 0x100 + n2 % 0x100;
    DivideTwice(n);
    DivideThrice(n);
    assert n3 < 0x100;
    BigEndianFour(n3, n2 % 0x100, n1 % 0x100, n % 0x100);
  }

  lemma ReadLengthBound(s: Bytes, p: nat)
    requires ReadLength(s, p).Done?
    ensures ReadLength(s, p).value < TWO_32
  {
    Widths();
    if !(0xA0 <= s[p] < 0xC0) {
      ReadUintBound(s, p + 1, LengthWidth(s[p]).value);
    }
  }

  lemma ReadBytesBound(s: Bytes, p: nat)
    requires ReadStrOrBin(s, p).Done?
    ensures |ReadStrOrBin(s, p).value| < TWO_32
  {
    ReadLengthBound(s, p);
  }

  lemma ReadBytesLocal(s: Bytes, t: Bytes, p: nat)
    requires ReadStrOrBin(s, p).Done? && Follows(t, s, ReadStrOrBin(s, p).next)
    ensures ReadStrOrBin(t, p) == Cut(ReadStrOrBin(s, p), t)
  {
    if p < |t| {
      if !(0xA0 <= s[p] < 0xC0) {
        ReadUintLocal(s, t, p + 1, LengthWidth(s[p]).value);
      }
      var r := ReadStrOrBin(s, p);
      if r.next <= |t| {
        assert t[p..r.next] == s[p..r.next];
        var q := ReadLength(s, p).next;
        assert t[q..r.next] == s[q..r.next];
      }
    }
  }

  // Strings

  function ReadString(s: Bytes, p: nat): (r: Parsed<string>)
    ensures r.Done? ==> p < r.next <= |s|
  {
    var (b, q) :- ReadStrOrBin(s, p);
    match Utf8.Decode(b)
    case None => Fail(InvalidUtf8)
    case Some(text) => Done(text, q)
  }

  function WriteString(text: string): (e: Bytes)
    ensures e != []
  {
    WriteBytes(Utf8.Encode(text))
  }

  predicate ShortString(text: string) { |Utf8.Encode(text)| < TWO_32 }

  lemma ReadStringWritten(s: Bytes, p: nat, text: string)
    requires ShortString(text) && At(s, p, WriteString(text))
    ensures ReadString(s, p) == Done(text, p + |WriteString(text)|)
  {
    ReadBytesWritten(s, p, Utf8.Encode(text));
    Utf8.DecodeEncode(text);
  }

  lemma ReadStringShort(s: Bytes, p: nat)
    requires ReadString(s, p).Done?
    ensures ShortString(ReadString(s, p).value)
  {
    ReadBytesBound(s, p);
    Utf8.EncodeDecode(ReadStrOrBin(s, p).value);
  }

  lemma ReadStringLocal(s: Bytes, t: Bytes, p: nat)
    requires ReadString(s, p).Done? && Follows(t, s, ReadString(s, p).next)
    ensures ReadString(t, p) == Cut(ReadString(s, p), t)
  {
    ReadBytesLocal(s, t, p);
  }

  // Arrays of strings

  function ArrayWidth(marker: byte): Option<nat> {
    match marker
    case 0xDC => Some(2)
    case 0xDD => Some(4)
    case _ => None
  }

  function ReadArrayLen(s: Bytes, p: nat): (r: Parsed<nat>)
    ensures r.Done? ==> p < r.next <= |s|
  {
    if p >= |s| then Fail(UnexpectedEof)
    else if 0x90 <= s[p] < 0xA0 then Done(s[p] as int - 0x90, p + 1)
    else
      match ArrayWidth(s[p])
      case None => Fail(TypeMismatch)
      case Some(w) => ReadUint(s, p + 1, w)
  }

  function WriteArrayLen(n: u32): (e: Bytes)
    ensures e != []
  {
    if n < 16 then [0x90 + n]
    else if n < 0x1_0000 then [0xDC] + ToBigEndian(n, 2)
    else [0xDD] + ToBigEndian(n, 4)
  }

  lemma ReadArrayLenWritten(s: Bytes, p: nat, n: u32)
    requires At(s, p, WriteArrayLen(n))
    ensures ReadArrayLen(s, p) == Done(n, p + |WriteArrayLen(n)|)
  {
    Widths();
    assert s[p] == s[p..p + |WriteArrayLen(n)|][0];
    if n < 16 {
    } else if n < 0x1_0000 {
      AtSplit(s, p, WriteArrayLen(n), [0xDC], ToBigEndian(n, 2));
      ReadUintWritten(s, p + 1, n, 2);
    } else {
      AtSplit(s, p, WriteArrayLen(n), [0xDD], ToBigEndian(n, 4));
      ReadUintWritten(s, p + 1, n, 4);
    }
  }

  /** The array format family by its table, read and written. */
  lemma ArrayHeadersExactly(s: Bytes, p: nat, n: u32)
    ensures ReadArrayLen(s, p).Done? ==>
      var w := if s[p] == 0xDC then 2 else if s[p] == 0xDD then 4 else 0;
      && (s[p] in {0xDC, 0xDD} || 0x90 <= s[p] <= 0x9F)
      && ReadArrayLen(s, p).next == p + 1 + w
      && ReadArrayLen(s, p).value == if w == 0 then s[p] as int - 0x90 else BigEndian(s[p + 1..p + 1 + w])
    ensures p < |s| && (s[p] in {0xDC, 0xDD} || 0x90 <= s[p] <= 0x9F) && ReadArrayLen(s, p).Fail? ==>
              ReadArrayLen(s, p) == Fail(UnexpectedEof)
    ensures WriteArrayLen(n)
         == if n < 16 then [0x90 + n]
            else if n < 65536 then [0xDC, n / 0x100, n % 0x100]
            else [0xDD, n / 0x100_0000, n / 0x1_0000 % 0x100, n / 0x100 % 0x100, n % 0x100]
  {
    hide BigEndian;
    if 16 <= n < 65536 {
      BigEndianTwo(n / 0x100, n % 0x100);
    } else if n >= 65536 {
      LowBytes(n);
    }
  }

  lemma ReadArrayLenBound(s: Bytes, p: nat)
    requires ReadArrayLen(s, p).Done?
    ensures ReadArrayLen(s, p).value < TWO_32
  {
    Widths();
    if !(0x90 <= s[p] < 0xA0) {
      ReadUintBound(s, p + 1, ArrayWidth(s[p]).value);
    }
  }

  lemma ReadArrayLenLocal(s: Bytes, t: Bytes, p: nat)
    requires ReadArrayLen(s, p).Done? && Follows(t, s, ReadArrayLen(s, p).next)
    ensures ReadArrayLen(t, p) == Cut(ReadArrayLen(s, p), t)
  {
    if p < |t| && !(0x90 <= s[p] < 0xA0) {
      ReadUintLocal(s, t, p + 1, ArrayWidth(s[p]).value);
    }
  }

  /** `n` strings, one after the other. */
  function ReadStrings(s: Bytes, p: nat, n: nat): (r: Parsed<seq<string>>)
    ensures r.Done? ==> p <= r.next && |r.value| == n && (p <= |s| ==> r.next <= |s|)
    decreases n
  {
    if n == 0 then Done([], p)
    else
      var (first, q) :- ReadString(s, p);
      var (rest, e) :- ReadStrings(s, q, n - 1);
      Done([first] + rest, e)
  }

  function WriteStrings(xs: seq<string>): Bytes {
    if xs == [] then [] else WriteString(xs[0]) + WriteStrings(xs[1..])
  }

  ghost predicate ShortStrings(xs: seq<string>) {
    forall x :: x in xs ==> ShortString(x)
  }

  lemma {:induction false} ReadStringsWritten(s: Bytes, p: nat, xs: seq<string>)
    requires ShortStrings(xs) && At(s, p, WriteStrings(xs))
    ensures ReadStrings(s, p, |xs|) == Done(xs, p + |WriteStrings(xs)|)
    decreases |xs|
  {
    hide At, ReadString, WriteString, ShortString;
    if xs == [] {
    } else {
      AtSplit(s, p, WriteStrings(xs), WriteString(xs[0]), WriteStrings(xs[1..]));
      ReadStringWritten(s, p, xs[0]);
      ReadStringsWritten(s, p + |WriteString(xs[0])|, xs[1..]);
      assert [xs[0]] + xs[1..] == xs;
    }
  }

  lemma {:induction false} ReadStringsShort(s: Bytes, p: nat, n: nat)
    requires ReadStrings(s, p, n).Done?
    ensures ShortStrings(ReadStrings(s, p, n).value)
    decreases n
  {
    hide ReadString, ShortString;
    if n == 0 {
    } else {
      ReadStringShort(s, p);
      ReadStringsShort(s, ReadString(s, p).next, n - 1);
    }
  }

  lemma {:induction false} ReadStringsLocal(s: Bytes, t: Bytes, p: nat, n: nat)
    requires p <= |s| && p <= |t|
    requires ReadStrings(s, p, n).Done? && Follows(t, s, ReadStrings(s, p, n).next)
    ensures ReadStrings(t, p, n) == Cut(ReadStrings(s, p, n), t)
    decreases n
  {
    hide ReadString;
    if n == 0 {
    } else {
      var q := ReadString(s, p).next;
      ReadStringLocal(s, t, p);
      if q <= |t| {
        ReadStringsLocal(s, t, q, n - 1);
      }
    }
  }

  /** `read_string_array` */
  function ReadStringArray(s: Bytes, p: nat): (r: Parsed<seq<string>>)
    ensures r.Done? ==> p < r.next <= |s|
  {
    var (n, q) :- ReadArrayLen(s, p);
    ReadStrings(s, q, n)
  }

  /** An array header with its element count cast to 32 bits, then the strings. */
  function WriteStringArray(xs: seq<string>): (e: Bytes)
    ensures e != []
  {
    WriteArrayLen(|xs| % TWO_32) + WriteStrings(xs)
  }

  ghost predicate ShortArray(xs: seq<string>) {
    |xs| < TWO_32 && ShortStrings(xs)
  }

  lemma ReadStringArrayWritten(s: Bytes, p: nat, xs: seq<string>)
    requires ShortArray(xs) && At(s, p, WriteStringArray(xs))
    ensures ReadStringArray(s, p) == Done(xs, p + |WriteStringArray(xs)|)
  {
    hide At, ReadStrings, WriteStrings;
    AtSplit(s, p, WriteStringArray(xs), WriteArrayLen(|xs|), WriteStrings(xs));
    ReadArrayLenWritten(s, p, |xs|);
    ReadStringsWritten(s, p + |WriteArrayLen(|xs|)|, xs);
  }

  lemma ReadStringArrayShort(s: Bytes, p: nat)
    requires ReadStringArray(s, p).Done?
    ensures ShortArray(ReadStringArray(s, p).value)
  {
    ReadArrayLenBound(s, p);
    var (n, q) := ReadArrayLen(s, p).Extract();
    ReadStringsShort(s, q, n);
  }

  lemma ReadStringArrayLocal(s: Bytes, t: Bytes, p: nat)
    requires ReadStringArray(s, p).Done? && Follows(t, s, ReadStringArray(s, p).next)
    ensures ReadStringArray(t, p) == Cut(ReadStringArray(s, p), t)
  {
    ReadArrayLenLocal(s, t, p);
    var (n, q) := ReadArrayLen(s, p).Extract();
    if q <= |t| {
      ReadStringsLocal(s, t, q, n);
    }
  }
}
