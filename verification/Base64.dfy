/**
 The standard base64 encoding of section 4 of RFC 4648, decoded strictly: padding is
 required, and the bits that padding leaves over are zero.
 */
module Base64 {
  import opened Wrappers

  type byte = b: int | 0 <= b < 256

  type sextet = v: int | 0 <= v < 64

  function Symbol(v: sextet): char {
    if v < 26 then 'A' + v as char
    else if v < 52 then 'a' + (v - 26) as char
    else if v < 62 then '0' + (v - 52) as char
    else if v == 62 then '+'
    else '/'
  }

  // The decoding table is the encoding table read backwards.
  function Value(c: char): Option<sextet> {
    Search(c, 0)
  }

  function Search(c: char, from: nat): Option<sextet>
    requires from <= 64
    decreases 64 - from
  {
    if from == 64 then None else if Symbol(from) == c then Some(from) else Search(c, from + 1)
  }

  lemma SymbolInjective(v: sextet, w: sextet)
    requires Symbol(v) == Symbol(w)
    ensures v == w
  {
  }

  lemma {:induction false} SearchFinds(v: sextet, from: nat)
    requires from <= v
    ensures Search(Symbol(v), from) == Some(v)
    decreases v - from
  {
    if from >= v {
    } else {
      if Symbol(from) == Symbol(v) {
        SymbolInjective(from, v);
      }
      SearchFinds(v, from + 1);
    }
  }

  lemma {:induction false} SearchSound(c: char, from: nat)
    requires from <= 64
    ensures Search(c, from).Some? ==> Symbol(Search(c, from).value) == c
    decreases 64 - from
  {
    if from >= 64 {
    } else {
      SearchSound(c, from + 1);
    }
  }

  lemma SymbolValue(v: sextet)
    ensures Value(Symbol(v)) == Some(v)
  {
    SearchFinds(v, 0);
  }

  lemma ValueSymbol(c: char)
    ensures Value(c).Some? ==> Symbol(Value(c).value) == c
  {
    SearchSound(c, 0);
  }

  lemma PaddingIsNoSymbol()
    ensures Value('=').None?
  {
    SearchSound('=', 0);
  }

  const UPPER := "ABCDEFGHIJKLMNOPQRSTUVWXYZ"
  const LOWER := "abcdefghijklmnopqrstuvwxyz"
  const DIGITS := "0123456789"

  // Table 1 of RFC 4648.
  const SYMBOLS := UPPER + LOWER + DIGITS + "+/"

  lemma SymbolTable(v: sextet)
    ensures |SYMBOLS| == 64 && Symbol(v) == SYMBOLS[v]
  {
    if v < 26 {
      Letters(v);
    } else if v < 52 {
      Letters(v - 26);
    } else if v < 62 {
      Numerals(v - 52);
    }
  }

  lemma Letters(k: nat)
    requires k < 26
    ensures 'A' + k as char == UPPER[k] && 'a' + k as char == LOWER[k]
  {
    if k < 13 {
    } else {
    }
  }

  lemma Numerals(k: nat)
    requires k < 10
    ensures '0' + k as char == DIGITS[k]
  {
  }

  /* ---------------- bytes and sextets ---------------- */

  // Quotients by 4, 16 and 64, each known by its bounds.
  function Div4(n: nat): (q: nat)
    ensures 4 * q <= n < 4 * q + 4
  {
    n / 4
  }

  function Div16(n: nat): (q: nat)
    ensures 16 * q <= n < 16 * q + 16
  {
    n / 16
  }

  function Div64(n: nat): (q: nat)
    ensures 64 * q <= n < 64 * q + 64
  {
    n / 64
  }

  function Mod4(n: nat): (r: nat)
    ensures r < 4
  {
    n - 4 * Div4(n)
  }

  function Mod16(n: nat): (r: nat)
    ensures r < 16
  {
    n - 16 * Div16(n)
  }

  // Three bytes as four sextets and back.
  function Sextet0(a: byte): sextet {
    Div4(a)
  }

  function Sextet1(a: byte, b: byte): sextet {
    Mod4(a) * 16 + Div16(b)
  }

  function Sextet2(b: byte, c: byte): sextet {
    Mod16(b) * 4 + Div64(c)
  }

  function Sextet3(c: byte): sextet {
    c - 64 * Div64(c)
  }

  function Byte0(w: sextet, x: sextet): byte {
    w * 4 + Div16(x)
  }

  function Byte1(x: sextet, y: sextet): byte {
    Mod16(x) * 16 + Div4(y)
  }

  function Byte2(y: sextet, z: sextet): byte {
    Mod4(y) * 64 + z
  }

  lemma By4(q: nat, r: nat)
    requires r < 4
    ensures Div4(q * 4 + r) == q && Mod4(q * 4 + r) == r
  {
  }

  lemma By16(q: nat, r: nat)
    requires r < 16
    ensures Div16(q * 16 + r) == q && Mod16(q * 16 + r) == r
  {
  }

  lemma FirstAgain(a: byte, b: byte)
    ensures Byte0(Sextet0(a), Sextet1(a, b)) == a && Mod16(Sextet1(a, 0)) == 0
  {
    By16(Mod4(a), Div16(b));
    By16(Mod4(a), 0);
  }

  lemma SecondAgain(a: byte, b: byte, c: byte)
    ensures Byte1(Sextet1(a, b), Sextet2(b, c)) == b && Mod4(Sextet2(b, 0)) == 0
  {
    Middle(Sextet1(a, b), Sextet2(b, c), Mod4(a), Div16(b), Mod16(b), Div64(c));
    By4(Mod16(b), 0);
  }

  lemma Middle(x: sextet, y: sextet, p: nat, q: nat, r: nat, t: nat)
    requires x == p * 16 + q && q < 16 && y == r * 4 + t && r < 16 && t < 4
    ensures Mod16(x) == q && Div4(y) == r && Byte1(x, y) == q * 16 + r
  {
    By16(p, q);
    By4(r, t);
  }

  lemma ThirdAgain(b: byte, c: byte)
    ensures Byte2(Sextet2(b, c), Sextet3(c)) == c
  {
    By4(Mod16(b), Div64(c));
  }

  lemma BytesAgain(a: byte, b: byte, c: byte)
    ensures Byte0(Sextet0(a), Sextet1(a, b)) == a
    ensures Byte1(Sextet1(a, b), Sextet2(b, c)) == b
    ensures Byte2(Sextet2(b, c), Sextet3(c)) == c
    ensures Mod16(Sextet1(a, 0)) == 0 && Mod4(Sextet2(b, 0)) == 0
  {
    FirstAgain(a, b);
    SecondAgain(a, b, c);
    ThirdAgain(b, c);
  }

  lemma By64(q: nat, r: nat)
    requires r < 64
    ensures Div64(q * 64 + r) == q
  {
  }

  lemma SextetsAgain(w: sextet, x: sextet, y: sextet, z: sextet)
    ensures Sextet0(Byte0(w, x)) == w
    ensures Sextet1(Byte0(w, x), Byte1(x, y)) == x
    ensures Sextet2(Byte1(x, y), Byte2(y, z)) == y
    ensures Sextet3(Byte2(y, z)) == z
    ensures Mod16(x) == 0 ==> Sextet1(Byte0(w, x), 0) == x
    ensures Mod4(y) == 0 ==> Sextet2(Byte1(x, y), 0) == y
  {
    By4(w, Div16(x));
    By16(Mod16(x), Div4(y));
    By64(Mod4(y), z);
  }

  // The 24 bits of three bytes, most significant first, in groups of six; a missing byte
  // counts as zero.
  lemma GroupBits(a: byte, b: byte, c: byte)
    ensures 0x4_0000 * Sextet0(a) + 0x1000 * Sextet1(a, b) + 64 * Sextet2(b, c) + Sextet3(c)
         == 0x1_0000 * a + 256 * b + c
  {
  }

  /* ---------------- groups over any alphabet ---------------- */

  datatype Alphabet = Alphabet(symbol: sextet -> char, value: char -> Option<sextet>)

  // Each half undoes the other, and the padding is not a symbol.
  ghost predicate Lawful(al: Alphabet) {
    && (forall v: sextet :: al.value(al.symbol(v)) == Some(v))
    && (forall c: char :: al.value(c).Some? ==> al.symbol(al.value(c).value) == c)
    && al.value('=').None?
  }

  function EncodeGroup(g: seq<byte>, al: Alphabet): string {
    if |g| == 1 then
      [al.symbol(Sextet0(g[0])), al.symbol(Sextet1(g[0], 0)), '=', '=']
    else if |g| == 2 then
      [al.symbol(Sextet0(g[0])), al.symbol(Sextet1(g[0], g[1])), al.symbol(Sextet2(g[1], 0)), '=']
    else if |g| == 3 then
      [al.symbol(Sextet0(g[0])), al.symbol(Sextet1(g[0], g[1])), al.symbol(Sextet2(g[1], g[2])), al.symbol(Sextet3(g[2]))]
    else
      ""
  }

  // Four characters, the last of the text or not.
  function DecodeGroup(s: string, last: bool, al: Alphabet): Option<seq<byte>> {
    if |s| != 4 then
      None
    else
      var w, x, y, z := al.value(s[0]), al.value(s[1]), al.value(s[2]), al.value(s[3]);
      if w.None? || x.None? then
        None
      else if y.Some? && z.Some? then
        Some([Byte0(w.value, x.value), Byte1(x.value, y.value), Byte2(y.value, z.value)])
      else if last && y.Some? && s[3] == '=' && Mod4(y.value) == 0 then
        Some([Byte0(w.value, x.value), Byte1(x.value, y.value)])
      else if last && s[2] == '=' && s[3] == '=' && Mod16(x.value) == 0 then
        Some([Byte0(w.value, x.value)])
      else
        None
  }

  // A group is whole, or shorter and the last.
  predicate IsGroup(g: seq<byte>, last: bool) {
    1 <= |g| <= 3 && (|g| < 3 ==> last)
  }

  lemma GroupOfSymbols(w: sextet, x: sextet, y: sextet, z: sextet, last: bool, al: Alphabet)
    requires Lawful(al)
    ensures DecodeGroup([al.symbol(w), al.symbol(x), al.symbol(y), al.symbol(z)], last, al)
         == Some([Byte0(w, x), Byte1(x, y), Byte2(y, z)])
    ensures Mod4(y) == 0 ==>
              DecodeGroup([al.symbol(w), al.symbol(x), al.symbol(y), '='], true, al) == Some([Byte0(w, x), Byte1(x, y)])
    ensures Mod16(x) == 0 ==> DecodeGroup([al.symbol(w), al.symbol(x), '=', '='], true, al) == Some([Byte0(w, x)])
  {
  }

  lemma OneByte(a: byte, al: Alphabet)
    requires Lawful(al)
    ensures DecodeGroup(EncodeGroup([a], al), true, al) == Some([a])
  {
    BytesAgain(a, 0, 0);
    var w, x := Sextet0(a), Sextet1(a, 0);
    GroupOfSymbols(w, x, w, w, true, al);
  }

  lemma TwoBytes(a: byte, b: byte, al: Alphabet)
    requires Lawful(al)
    ensures DecodeGroup(EncodeGroup([a, b], al), true, al) == Some([a, b])
  {
    BytesAgain(a, b, 0);
    GroupOfSymbols(Sextet0(a), Sextet1(a, b), Sextet2(b, 0), Sextet0(a), true, al);
  }

  lemma ThreeBytes(a: byte, b: byte, c: byte, last: bool, al: Alphabet)
    requires Lawful(al)
    ensures DecodeGroup(EncodeGroup([a, b, c], al), last, al) == Some([a, b, c])
  {
    BytesAgain(a, b, c);
    GroupOfSymbols(Sextet0(a), Sextet1(a, b), Sextet2(b, c), Sextet3(c), last, al);
  }

  lemma GroupRoundTrip(g: seq<byte>, last: bool, al: Alphabet)
    requires Lawful(al) && IsGroup(g, last)
    ensures |EncodeGroup(g, al)| == 4 && DecodeGroup(EncodeGroup(g, al), last, al) == Some(g)
  {
    if |g| == 1 {
      OneByte(g[0], al);
      assert g == [g[0]];
    } else if |g| == 2 {
      TwoBytes(g[0], g[1], al);
      assert g == [g[0], g[1]];
    } else {
      ThreeBytes(g[0], g[1], g[2], last, al);
      assert g == [g[0], g[1], g[2]];
    }
  }

  // A decoded group encodes to its own characters.
  lemma GroupCanonical(s: string, last: bool, al: Alphabet)
    requires Lawful(al) && DecodeGroup(s, last, al).Some?
    ensures var g := DecodeGroup(s, last, al).value; IsGroup(g, last) && EncodeGroup(g, al) == s
  {
    assert s == [s[0], s[1], s[2], s[3]];
    var w, x, y, z := al.value(s[0]).value, al.value(s[1]).value, al.value(s[2]), al.value(s[3]);
    if y.Some? && z.Some? {
      SextetsAgain(w, x, y.value, z.value);
    } else if y.Some? {
      SextetsAgain(w, x, y.value, y.value);
    } else {
      SextetsAgain(w, x, x, x);
    }
  }

  /* ---------------- any code by groups ---------------- */

  type GroupEncoder = seq<byte> -> string

  type GroupDecoder = (string, bool) -> Option<seq<byte>>

  function GroupSize(bytes: seq<byte>): nat {
    if |bytes| < 3 then |bytes| else 3
  }

  function EncodeBy(bytes: seq<byte>, e: GroupEncoder): string
    decreases |bytes|
  {
    if bytes == [] then ""
    else e(bytes[..GroupSize(bytes)]) + EncodeBy(bytes[GroupSize(bytes)..], e)
  }

  function DecodeBy(s: string, d: GroupDecoder): Option<seq<byte>>
    decreases |s|
  {
    if |s| == 0 then
      Some([])
    else if |s| < 4 then
      None
    else
      var group := d(s[..4], |s| == 4);
      var rest := DecodeBy(s[4..], d);
      if group.None? || rest.None? then None else Some(group.value + rest.value)
  }

  ghost predicate DecodesGroups(e: GroupEncoder, d: GroupDecoder) {
    forall g, last :: IsGroup(g, last) ==> |e(g)| == 4 && d(e(g), last) == Some(g)
  }

  ghost predicate EncodesGroups(e: GroupEncoder, d: GroupDecoder) {
    forall s, last :: d(s, last).Some? ==> IsGroup(d(s, last).value, last) && e(d(s, last).value) == s
  }

  lemma {:induction false} DecodeEncodeBy(bytes: seq<byte>, e: GroupEncoder, d: GroupDecoder)
    requires DecodesGroups(e, d)
    ensures DecodeBy(EncodeBy(bytes, e), d) == Some(bytes)
    decreases |bytes|
  {
    if bytes == [] {
    } else {
      var g, others := bytes[..GroupSize(bytes)], bytes[GroupSize(bytes)..];
      var s := EncodeBy(bytes, e);
      DecodeEncodeBy(others, e, d);
      assert IsGroup(g, others == []) && |e(g)| == 4;
      assert s[..4] == e(g) && s[4..] == EncodeBy(others, e);
      assert |s| == 4 <==> others == [];
      assert g + others == bytes;
    }
  }

  lemma {:induction false} EncodeByLength(bytes: seq<byte>, n: nat, e: GroupEncoder)
    requires |bytes| == 3 * n && forall g :: |g| == 3 ==> |e(g)| == 4
    ensures |EncodeBy(bytes, e)| == 4 * n
    decreases n
  {
    if n == 0 {
    } else {
      EncodeByLength(bytes[3..], n - 1, e);
    }
  }

  lemma {:induction false} EncodeDecodeBy(s: string, e: GroupEncoder, d: GroupDecoder)
    requires EncodesGroups(e, d) && DecodeBy(s, d).Some?
    ensures EncodeBy(DecodeBy(s, d).value, e) == s
    decreases |s|
  {
    if s == "" {
    } else {
      var g, others := d(s[..4], |s| == 4).value, DecodeBy(s[4..], d).value;
      EncodeDecodeBy(s[4..], e, d);
      var bytes := g + others;
      if |s| == 4 {
        assert s[4..] == "" && others == [] && bytes == g;
        assert bytes[..GroupSize(bytes)] == g && bytes[GroupSize(bytes)..] == [];
      } else {
        assert |g| == 3 && bytes[..3] == g && bytes[3..] == others;
      }
      assert s[..4] + s[4..] == s;
    }
  }

  /* ---------------- base64 ---------------- */

  const STANDARD := Alphabet(Symbol, Value)

  function StandardGroup(g: seq<byte>): string {
    EncodeGroup(g, STANDARD)
  }

  function StandardBytes(s: string, last: bool): Option<seq<byte>> {
    DecodeGroup(s, last, STANDARD)
  }

  function Encode(bytes: seq<byte>): string {
    EncodeBy(bytes, StandardGroup)
  }

  function Decode(s: string): Option<seq<byte>> {
    DecodeBy(s, StandardBytes)
  }

  lemma StandardIsLawful()
    ensures Lawful(STANDARD)
  {
    forall v: sextet ensures Value(Symbol(v)) == Some(v) {
      SymbolValue(v);
    }
    forall c: char ensures Value(c).Some? ==> Symbol(Value(c).value) == c {
      ValueSymbol(c);
    }
    PaddingIsNoSymbol();
  }

  lemma DecodeEncode(bytes: seq<byte>)
    ensures Decode(Encode(bytes)) == Some(bytes)
  {
    StandardIsLawful();
    forall g, last | IsGroup(g, last) ensures |StandardGroup(g)| == 4 && StandardBytes(StandardGroup(g), last) == Some(g) {
      GroupRoundTrip(g, last, STANDARD);
    }
    DecodeEncodeBy(bytes, StandardGroup, StandardBytes);
  }

  function ByteAt(bytes: seq<byte>, i: nat): byte {
    if i < |bytes| then bytes[i] else 0
  }

  // The 24 bits from byte `i` on, and six of them from a place on.
  function Bits(bytes: seq<byte>, i: nat): nat {
    0x1_0000 * ByteAt(bytes, i) + 256 * ByteAt(bytes, i + 1) + ByteAt(bytes, i + 2)
  }

  function Six(v: nat, place: nat): sextet
    requires place > 0
  {
    v / place % 64
  }

  // The four characters of a group that starts with byte `i` and holds what is left, with
  // padding in place of the characters that only missing bytes would give.
  predicate ShowsBits(s: string, bytes: seq<byte>, i: nat, symbol: sextet -> char) {
    var v := Bits(bytes, i);
    && |s| == 4
    && s[0] == symbol(Six(v, 0x4_0000)) && s[1] == symbol(Six(v, 0x1000))
    && s[2] == (if i + 1 < |bytes| then symbol(Six(v, 64)) else '=')
    && s[3] == (if i + 2 < |bytes| then symbol(Six(v, 1)) else '=')
  }

  lemma BySix(v: nat, w: sextet, x: sextet, y: sextet, z: sextet)
    requires v == 0x4_0000 * w + 0x1000 * x + 64 * y + z
    ensures Six(v, 0x4_0000) == w && Six(v, 0x1000) == x && Six(v, 64) == y && Six(v, 1) == z
  {
    assert v / 64 == 0x1000 * w + 64 * x + y;
    assert v / 0x1000 == 64 * w + x;
    assert v / 0x4_0000 == w;
  }

  lemma GroupShowsBits(g: seq<byte>, al: Alphabet)
    requires 1 <= |g| <= 3
    ensures ShowsBits(EncodeGroup(g, al), g, 0, al.symbol)
  {
    var a, b, c := ByteAt(g, 0), ByteAt(g, 1), ByteAt(g, 2);
    GroupBits(a, b, c);
    BySix(Bits(g, 0), Sextet0(a), Sextet1(a, b), Sextet2(b, c), Sextet3(c));
  }

  lemma AfterGroup(a: string, b: string, k: nat)
    requires |a| == 4 && k + 4 <= |b|
    ensures (a + b)[k + 4..k + 8] == b[k..k + 4]
  {
  }

  lemma ShownAfter(s: string, bytes: seq<byte>, k: nat, symbol: sextet -> char)
    requires |bytes| >= 3 && ShowsBits(s, bytes[3..], k, symbol)
    ensures ShowsBits(s, bytes, k + 3, symbol)
  {
    assert Bits(bytes[3..], k) == Bits(bytes, k + 3);
  }

  lemma ShownFirst(s: string, bytes: seq<byte>, symbol: sextet -> char)
    requires bytes != [] && ShowsBits(s, bytes[..GroupSize(bytes)], 0, symbol)
    ensures ShowsBits(s, bytes, 0, symbol)
  {
    assert Bits(bytes[..GroupSize(bytes)], 0) == Bits(bytes, 0);
  }

  ghost predicate ShowsGroups(e: GroupEncoder, symbol: sextet -> char) {
    forall g :: 1 <= |g| <= 3 ==> ShowsBits(e(g), g, 0, symbol)
  }

  lemma EncodeByStep(bytes: seq<byte>, e: GroupEncoder, symbol: sextet -> char)
    requires bytes != [] && ShowsGroups(e, symbol)
    ensures var first := e(bytes[..GroupSize(bytes)]);
            && |first| == 4 && EncodeBy(bytes, e) == first + EncodeBy(bytes[GroupSize(bytes)..], e)
            && ShowsBits(first, bytes, 0, symbol)
  {
    ShownFirst(e(bytes[..GroupSize(bytes)]), bytes, symbol);
  }

  lemma {:induction false} EncodeByExact(bytes: seq<byte>, e: GroupEncoder, symbol: sextet -> char, i: nat)
    requires 3 * i < |bytes| && ShowsGroups(e, symbol)
    ensures |EncodeBy(bytes, e)| >= 4 * i + 4
    ensures ShowsBits(EncodeBy(bytes, e)[4 * i..4 * i + 4], bytes, 3 * i, symbol)
    decreases i
  {
    if i == 0 {
      EncodeByStep(bytes, e, symbol);
      assert EncodeBy(bytes, e)[..4] == e(bytes[..GroupSize(bytes)]);
    } else {
      EncodeByExact(bytes[3..], e, symbol, i - 1);
      LaterGroup(bytes, e, symbol, 4 * (i - 1), 3 * (i - 1));
    }
  }

  lemma LaterGroup(bytes: seq<byte>, e: GroupEncoder, symbol: sextet -> char, k: nat, at: nat)
    requires |bytes| > 3 && ShowsGroups(e, symbol) && k + 4 <= |EncodeBy(bytes[3..], e)|
    requires ShowsBits(EncodeBy(bytes[3..], e)[k..k + 4], bytes[3..], at, symbol)
    ensures |EncodeBy(bytes, e)| >= k + 8 && ShowsBits(EncodeBy(bytes, e)[k + 4..k + 8], bytes, at + 3, symbol)
  {
    var rest := EncodeBy(bytes[3..], e);
    EncodeByStep(bytes, e, symbol);
    AfterGroup(e(bytes[..3]), rest, k);
    ShownAfter(rest[k..k + 4], bytes, at, symbol);
  }

  // Section 4 of RFC 4648: every three bytes become four symbols, most significant bits first.
  lemma EncodeExact(bytes: seq<byte>, i: nat)
    requires 3 * i < |bytes|
    ensures |Encode(bytes)| >= 4 * i + 4 && ShowsBits(Encode(bytes)[4 * i..4 * i + 4], bytes, 3 * i, Symbol)
  {
    forall g: seq<byte> | 1 <= |g| <= 3 ensures ShowsBits(StandardGroup(g), g, 0, Symbol) {
      GroupShowsBits(g, STANDARD);
    }
    EncodeByExact(bytes, StandardGroup, Symbol, i);
  }

  // Whole groups need no padding.
  lemma EncodeLength(bytes: seq<byte>, n: nat)
    requires |bytes| == 3 * n
    ensures |Encode(bytes)| == 4 * n
  {
    EncodeByLength(bytes, n, StandardGroup);
  }

  lemma EncodeDecode(s: string)
    requires Decode(s).Some?
    ensures Encode(Decode(s).value) == s
  {
    StandardIsLawful();
    forall t, last | StandardBytes(t, last).Some?
      ensures IsGroup(StandardBytes(t, last).value, last) && StandardGroup(StandardBytes(t, last).value) == t
    {
      GroupCanonical(t, last, STANDARD);
    }
    EncodeDecodeBy(s, StandardGroup, StandardBytes);
  }

  // Every character of an encoding is a symbol or padding.
  lemma {:induction false} EncodePlain(bytes: seq<byte>)
    ensures forall i :: 0 <= i < |Encode(bytes)| ==> Encode(bytes)[i] == '=' || Value(Encode(bytes)[i]).Some?
    decreases |bytes|
  {
    if bytes == [] {
    } else {
      var g := bytes[..GroupSize(bytes)];
      EncodePlain(bytes[GroupSize(bytes)..]);
      StandardIsLawful();
      GroupPlain(g, STANDARD);
      assert Encode(bytes) == StandardGroup(g) + Encode(bytes[GroupSize(bytes)..]);
    }
  }

  lemma GroupPlain(g: seq<byte>, al: Alphabet)
    requires Lawful(al)
    ensures forall i :: 0 <= i < |EncodeGroup(g, al)| ==> EncodeGroup(g, al)[i] == '=' || al.value(EncodeGroup(g, al)[i]).Some?
  {
  }
}
