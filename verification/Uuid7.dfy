/** Time-ordered identifiers (sdk/agent_transponder/events.py), version 7 of RFC 9562, section 5.7.
    Right shifts are written as quotients. */
module Uuid7 {

  type Byte = x: int | 0 <= x < 256
  type Nibble = x: int | 0 <= x < 16

  const MS_LIMIT: nat := 0x1_0000_0000_0000

  /** The sixteen bytes: 48 bits of milliseconds, version, 12 random bits, variant, 62 random bits. */
  function Encode(ms: nat, rand: seq<Byte>): (b: seq<Byte>)
    requires |rand| == 10
    ensures |b| == 16
  {
    BigEndian(ms, 6) + [0x70 + rand[0] % 16, rand[1], 0x80 + rand[2] % 64] + rand[3..]
  }

  /** The low `n` bytes of a number, most significant first. */
  function BigEndian(v: nat, n: nat): (r: seq<Byte>)
    ensures |r| == n
  {
    if n == 0 then [] else BigEndian(v / 256, n - 1) + [v % 256]
  }

  const DIGITS := "0123456789abcdef"

  function Digit(n: Nibble): char { DIGITS[n] }

  function Hex(b: seq<Byte>): (r: string)
    ensures |r| == 2 * |b|
  {
    if b == [] then "" else Hex(b[..|b| - 1]) + [Digit(b[|b| - 1] / 16), Digit(b[|b| - 1] % 16)]
  }

  /** The 8-4-4-4-12 form. */
  function Dashed(h: string): (r: string)
    requires |h| == 32
    ensures |r| == 36
  {
    h[..8] + "-" + h[8..12] + "-" + h[12..16] + "-" + h[16..20] + "-" + h[20..]
  }

  function Text(ms: nat, rand: seq<Byte>): string
    requires |rand| == 10
  {
    Dashed(Hex(Encode(ms, rand)))
  }

  /** The shifts of the clock value are its big-endian bytes. */
  lemma ShiftsAreBigEndian(ms: nat)
    ensures BigEndian(ms, 6)
            == [(ms / 0x100_0000_0000) % 256, (ms / 0x1_0000_0000) % 256, (ms / 0x100_0000) % 256,
                (ms / 0x1_0000) % 256, (ms / 0x100) % 256, ms % 256]
  {
    hide BigEndian;
    Shifted(ms, ms / 0x100, 6);
    Shifted(ms / 0x100, ms / 0x1_0000, 5);
    Shifted(ms / 0x1_0000, ms / 0x100_0000, 4);
    Shifted(ms / 0x100_0000, ms / 0x1_0000_0000, 3);
    Shifted(ms / 0x1_0000_0000, ms / 0x100_0000_0000, 2);
    Shifted(ms / 0x100_0000_0000, ms / 0x1_0000_0000_0000, 1);
    NoBytes(ms / 0x1_0000_0000_0000);
  }

  lemma Shifted(v: nat, w: nat, n: nat)
    requires n > 0 && w == v / 256
    ensures BigEndian(v, n) == BigEndian(w, n - 1) + [v % 256]
  {
  }

  lemma NoBytes(v: nat)
    ensures BigEndian(v, 0) == []
  {
  }

  /** Bitwise and, bit by bit. */
  function And(x: nat, y: nat): nat {
    if x == 0 || y == 0 then 0 else 2 * And(x / 2, y / 2) + if x % 2 == 1 && y % 2 == 1 then 1 else 0
  }

  /** Bitwise or, bit by bit. */
  function Or(x: nat, y: nat): nat {
    if x == 0 then y else if y == 0 then x
    else 2 * Or(x / 2, y / 2) + if x % 2 == 1 || y % 2 == 1 then 1 else 0
  }

  lemma AndTwoBits(x: nat, y: nat)
    requires y % 4 == 3
    ensures And(x, y) == 4 * And(x / 4, y / 4) + x % 4
  {
    assert x / 2 / 2 == x / 4 && y / 2 / 2 == y / 4;
  }

  lemma AndFourBits(x: nat, y: nat)
    requires y % 16 == 15
    ensures And(x, y) == 16 * And(x / 16, y / 16) + x % 16
  {
    hide And;
    AndTwoBits(x, y);
    AndTwoBits(x / 4, y / 4);
    assert x / 4 / 4 == x / 16 && y / 4 / 4 == y / 16;
  }

  lemma SplitRemainders(x: nat)
    ensures x % 0x40 == 4 * (x / 4 % 0x10) + x % 4
    ensures x % 0x100 == 0x10 * (x / 0x10 % 0x10) + x % 0x10
  {
    Rem64(x, x / 4 / 0x10, 4 * (x / 4 % 0x10) + x % 4);
    Rem256(x, x / 0x10 / 0x10, 0x10 * (x / 0x10 % 0x10) + x % 0x10);
  }

  lemma Rem64(x: nat, q: nat, r: nat)
    requires x == 0x40 * q + r && r < 0x40
    ensures x % 0x40 == r
  {
  }

  lemma Rem256(x: nat, q: nat, r: nat)
    requires x == 0x100 * q + r && r < 0x100
    ensures x % 0x100 == r
  {
  }

  /** Masking keeps the low bits. */
  lemma MaskKeepsLowBits(x: nat)
    ensures And(x, 0x0F) == x % 0x10 && And(x, 0x3F) == x % 0x40 && And(x, 0xFF) == x % 0x100
  {
    LowNibble(x);
    LowNibble(x / 4);
    LowNibble(x / 16);
    hide And;
    AndTwoBits(x, 0x3F);
    AndFourBits(x, 0xFF);
    SplitRemainders(x);
  }

  lemma LowNibble(x: nat)
    ensures And(x, 0x0F) == x % 0x10
  {
    assert And(x / 16, 0) == 0;
    hide And;
    AndFourBits(x, 0x0F);
  }

  lemma OrTwoBits(x: nat, y: nat)
    requires x % 4 == 0
    ensures Or(x, y) == 4 * Or(x / 4, y / 4) + y % 4
  {
    assert x / 2 / 2 == x / 4 && y / 2 / 2 == y / 4;
  }

  lemma OrFourBits(x: nat, y: nat)
    requires x % 16 == 0
    ensures Or(x, y) == 16 * Or(x / 16, y / 16) + y % 16
  {
    hide Or;
    OrTwoBits(x, y);
    OrTwoBits(x / 4, y / 4);
    assert x / 4 / 4 == x / 16 && y / 4 / 4 == y / 16;
  }

  /** Setting the version or the variant adds it above the low bits. */
  lemma MarkAddsHighBits(y: nat)
    ensures y < 0x10 ==> Or(0x70, y) == 0x70 + y
    ensures y < 0x40 ==> Or(0x80, y) == 0x80 + y
  {
    assert Or(0x07, 0) == 0x07 && Or(0x02, 0) == 0x02;
    hide Or;
    OrFourBits(0x70, y);
    OrFourBits(0x80, y);
    OrTwoBits(0x08, y / 16);
  }

  lemma MasksAreBytes(ms: nat, x: Byte, y: Byte)
    ensures And(ms / 0x100_0000_0000, 0xFF) == (ms / 0x100_0000_0000) % 256
    ensures And(ms / 0x1_0000_0000, 0xFF) == (ms / 0x1_0000_0000) % 256
    ensures And(ms / 0x100_0000, 0xFF) == (ms / 0x100_0000) % 256
    ensures And(ms / 0x1_0000, 0xFF) == (ms / 0x1_0000) % 256
    ensures And(ms / 0x100, 0xFF) == (ms / 0x100) % 256 && And(ms, 0xFF) == ms % 256
    ensures Or(0x70, And(x, 0x0F)) == 0x70 + x % 16 && Or(0x80, And(y, 0x3F)) == 0x80 + y % 64
  {
    hide And, Or;
    MaskKeepsLowBits(ms / 0x100_0000_0000);
    MaskKeepsLowBits(ms / 0x1_0000_0000);
    MaskKeepsLowBits(ms / 0x100_0000);
    MaskKeepsLowBits(ms / 0x1_0000);
    MaskKeepsLowBits(ms / 0x100);
    MaskKeepsLowBits(ms);
    MaskKeepsLowBits(x);
    MaskKeepsLowBits(y);
    MarkAddsHighBits(x % 16);
    MarkAddsHighBits(y % 64);
  }

  /** Fills the sixteen bytes in place. */
  method Fill(ms: nat, rand: seq<Byte>) returns (b: array<Byte>)
    requires |rand| == 10
    ensures b[..] == Encode(ms, rand)
  {
    b := new Byte[16];
    FillHead(ms, rand, b);
    hide BigEndian;
    ghost var head := b[..9];
    for i := 9 to 16
      invariant b[..9] == head
      invariant forall j :: 9 <= j < i ==> b[j] == rand[j - 6]
    {
      b[i] := rand[i - 6];
      assert b[..9] == head;
    }
    assert b[..] == b[..9] + b[9..] && b[9..] == rand[3..];
  }

  /** The time, and the bytes that hold version and variant. */
  method FillHead(ms: nat, rand: seq<Byte>, b: array<Byte>)
    requires |rand| == 10 && b.Length == 16
    modifies b
    ensures b[..9] == BigEndian(ms, 6) + [0x70 + rand[0] % 16, rand[1], 0x80 + rand[2] % 64]
  {
    MasksAreBytes(ms, rand[0], rand[2]);
    hide And, Or;
    b[0] := And(ms / 0x100_0000_0000, 0xFF);
    b[1] := And(ms / 0x1_0000_0000, 0xFF);
    b[2] := And(ms / 0x100_0000, 0xFF);
    b[3] := And(ms / 0x1_0000, 0xFF);
    b[4] := And(ms / 0x100, 0xFF);
    b[5] := And(ms, 0xFF);
    b[6] := Or(0x70, And(rand[0], 0x0F));
    b[7] := rand[1];
    b[8] := Or(0x80, And(rand[2], 0x3F));
    ShiftsAreBigEndian(ms);
  }

  /** Builds an identifier from the clock and ten random bytes. */
  method Uuid7(ms: nat, rand: seq<Byte>) returns (text: string)
    requires |rand| == 10
    ensures text == Text(ms, rand)
  {
    var b := Fill(ms, rand);
    hide Encode;
    var hex := "";
    for i := 0 to b.Length
      invariant hex == Hex(b[..i])
    {
      assert b[..i + 1][..i] == b[..i];
      hex := hex + [Digit(b[i] / 16), Digit(b[i] % 16)];
    }
    assert b[..b.Length] == b[..];
    text := hex[..8] + "-" + hex[8..12] + "-" + hex[12..16] + "-" + hex[16..20] + "-" + hex[20..];
  }

  // ---------------------------------------------------------------- order

  /** `k` is the first difference between two sequences of bytes, and `a` is the smaller there. */
  predicate BytesDiffer(a: seq<Byte>, b: seq<Byte>, k: nat) {
    k < |a| && k < |b| && a[..k] == b[..k] && a[k] < b[k]
  }

  predicate TextsDiffer(a: string, b: string, k: nat) {
    k < |a| && k < |b| && a[..k] == b[..k] && a[k] < b[k]
  }

  /** Lexicographic order of texts of the same length. */
  ghost predicate Before(a: string, b: string) { exists k: nat :: TextsDiffer(a, b, k) }

  function Pow256(n: nat): nat { if n == 0 then 1 else 256 * Pow256(n - 1) }

  lemma {:induction false} BigEndianOrder(u: nat, v: nat, n: nat) returns (k: nat)
    requires u < v < Pow256(n)
    ensures BytesDiffer(BigEndian(u, n), BigEndian(v, n), k)
  {
    var a, b := BigEndian(u / 256, n - 1), BigEndian(v / 256, n - 1);
    if u / 256 < v / 256 {
      k := BigEndianOrder(u / 256, v / 256, n - 1);
      assert BigEndian(u, n)[..k] == a[..k] && BigEndian(v, n)[..k] == b[..k];
    } else {
      k := n - 1;
      assert BigEndian(u, n)[..k] == a && BigEndian(v, n)[..k] == b;
    }
  }

  lemma {:induction false} HexPrefix(b: seq<Byte>, n: nat)
    requires n <= |b|
    ensures Hex(b)[..2 * n] == Hex(b[..n])
    ensures n < |b| ==> Hex(b)[2 * n] == Digit(b[n] / 16) && Hex(b)[2 * n + 1] == Digit(b[n] % 16)
  {
    if n < |b| {
      assert b[..|b| - 1][..n] == b[..n];
      HexPrefix(b[..|b| - 1], n);
    } else {
      assert b[..n] == b;
    }
  }

  lemma DigitOrder(m: Nibble, n: Nibble)
    requires m < n
    ensures Digit(m) < Digit(n)
  {
  }

  lemma HexOrder(a: seq<Byte>, b: seq<Byte>, k: nat) returns (d: nat)
    requires BytesDiffer(a, b, k)
    ensures TextsDiffer(Hex(a), Hex(b), d) && 2 * k <= d < 2 * k + 2
  {
    hide Hex;
    HexPrefix(a, k);
    HexPrefix(b, k);
    if a[k] / 16 < b[k] / 16 {
      d := 2 * k;
      DigitOrder(a[k] / 16, b[k] / 16);
    } else {
      d := 2 * k + 1;
      DigitOrder(a[k] % 16, b[k] % 16);
      assert Hex(a)[..d] == Hex(a)[..2 * k] + [Hex(a)[2 * k]];
      assert Hex(b)[..d] == Hex(b)[..2 * k] + [Hex(b)[2 * k]];
    }
  }

  lemma DashedOrder(g: string, h: string, k: nat)
    requires |g| == |h| == 32 && k < 12 && TextsDiffer(g, h, k)
    ensures Before(Dashed(g), Dashed(h))
  {
    var d := if k < 8 then k else k + 1;
    DashedHead(g);
    DashedHead(h);
    assert forall i :: 0 <= i < k ==> g[i] == g[..k][i] == h[..k][i] == h[i];
    assert Dashed(g)[..d] == Dashed(h)[..d];
    assert TextsDiffer(Dashed(g), Dashed(h), d);
  }

  lemma DashedHead(h: string)
    requires |h| == 32
    ensures forall i :: 0 <= i < 8 ==> Dashed(h)[i] == h[i]
    ensures Dashed(h)[8] == '-'
    ensures forall i :: 9 <= i < 13 ==> Dashed(h)[i] == h[i - 1]
  {
  }

  lemma EncodeHead(ms: nat, rand: seq<Byte>)
    requires |rand| == 10
    ensures Encode(ms, rand)[..6] == BigEndian(ms, 6)
  {
  }

  /** Later identifiers sort after earlier ones, whatever the random bytes. */
  lemma TextOrder(ms1: nat, rand1: seq<Byte>, ms2: nat, rand2: seq<Byte>)
    requires |rand1| == |rand2| == 10 && ms1 < ms2 < MS_LIMIT
    ensures Before(Text(ms1, rand1), Text(ms2, rand2))
  {
    assert Pow256(6) == MS_LIMIT;
    var k := BigEndianOrder(ms1, ms2, 6);
    EncodeHead(ms1, rand1);
    EncodeHead(ms2, rand2);
    var a, b := Encode(ms1, rand1), Encode(ms2, rand2);
    assert a[..k] == a[..6][..k] && b[..k] == b[..6][..k];
    var d := HexOrder(a, b, k);
    DashedOrder(Hex(a), Hex(b), d);
  }

  /** Exactly: for values that fit 48 bits, different milliseconds order the texts as themselves. */
  lemma TextOrderIff(ms1: nat, rand1: seq<Byte>, ms2: nat, rand2: seq<Byte>)
    requires |rand1| == |rand2| == 10 && ms1 < MS_LIMIT && ms2 < MS_LIMIT && ms1 != ms2
    ensures Before(Text(ms1, rand1), Text(ms2, rand2)) <==> ms1 < ms2
  {
    if ms1 < ms2 {
      TextOrder(ms1, rand1, ms2, rand2);
    } else {
      TextOrder(ms2, rand2, ms1, rand1);
      hide Text;
      NotBothBefore(Text(ms1, rand1), Text(ms2, rand2));
    }
  }

  lemma NotBothBefore(a: string, b: string)
    ensures Before(a, b) ==> !Before(b, a)
  {
    forall j: nat, k: nat | TextsDiffer(a, b, j)
      ensures !TextsDiffer(b, a, k)
    {
      DifferOneWay(a, b, j, k);
    }
  }

  lemma DifferOneWay(a: string, b: string, j: nat, k: nat)
    requires TextsDiffer(a, b, j)
    ensures !TextsDiffer(b, a, k)
  {
    assert k < j ==> a[..j][k] == b[..j][k];
  }

  // ---------------------------------------------------------------- decoding

  /** The value of a hexadecimal digit; other characters count as zero. */
  function DigitValue(c: char): (n: Nibble) {
    if '0' <= c <= '9' then (c - '0') as int else if 'a' <= c <= 'f' then (c - 'a') as int + 10 else 0
  }

  /** Reads hexadecimal text, two digits a byte. */
  function FromHex(h: string): nat {
    if |h| < 2 then 0
    else FromHex(h[..|h| - 2]) * 256 + DigitValue(h[|h| - 2]) * 16 + DigitValue(h[|h| - 1])
  }

  lemma DigitRoundTrip(n: Nibble)
    ensures DigitValue(Digit(n)) == n
  {
  }

  lemma ByteRoundTrip(b: Byte)
    ensures DigitValue(Digit(b / 16)) * 16 + DigitValue(Digit(b % 16)) == b
  {
    DigitRoundTrip(b / 16);
    DigitRoundTrip(b % 16);
  }

  /** The low bytes of a number read back as its remainder. */
  lemma {:induction false} HexRoundTrip(v: nat, n: nat)
    requires v < Pow256(n)
    ensures FromHex(Hex(BigEndian(v, n))) == v
  {
    if n > 0 {
      hide DigitValue, Digit;
      HexRoundTrip(v / 256, n - 1);
      ByteRoundTrip(v % 256);
      var b := BigEndian(v, n);
      assert b[..n - 1] == BigEndian(v / 256, n - 1);
      var h := Hex(b);
      assert h[..|h| - 2] == Hex(b[..n - 1]);
    }
  }

  /** The time in an identifier's text. */
  function Milliseconds(text: string): nat
    requires |text| == 36
  {
    FromHex(text[..8] + text[9..13])
  }

  /** The milliseconds can be recovered from the text. */
  lemma TimeRoundTrip(ms: nat, rand: seq<Byte>)
    requires |rand| == 10 && ms < MS_LIMIT
    ensures |Text(ms, rand)| == 36 && Milliseconds(Text(ms, rand)) == ms
  {
    assert Pow256(6) == MS_LIMIT;
    HexRoundTrip(ms, 6);
    EncodeHead(ms, rand);
    HexPrefix(Encode(ms, rand), 6);
    var h := Hex(Encode(ms, rand));
    hide Encode, Hex, FromHex;
    DashedHead(h);
    assert Dashed(h)[..8] + Dashed(h)[9..13] == h[..12];
  }

  /** Version 7 and the variant of RFC 9562 are where sections 4.1, 4.2 and 5.7 put them. */
  lemma VersionAndVariant(ms: nat, rand: seq<Byte>)
    requires |rand| == 10
    ensures var text := Text(ms, rand);
      && |text| == 36
      && text[8] == text[13] == text[18] == text[23] == '-'
      && text[14] == '7'
      && text[19] in "89ab"
  {
    var b := Encode(ms, rand);
    HexPrefix(b, 6);
    HexPrefix(b, 8);
    hide Hex, BigEndian;
    assert b[6] == 0x70 + rand[0] % 16 && b[8] == 0x80 + rand[2] % 64;
    assert b[6] / 16 == 7 && 8 <= b[8] / 16 < 12;
    assert Digit(7) == '7' && Digit(b[8] / 16) in "89ab";
    DashedTail(Hex(b));
  }

  lemma DashedTail(h: string)
    requires |h| == 32
    ensures var t := Dashed(h);
      t[8] == t[13] == t[18] == t[23] == '-' && t[14] == h[12] && t[19] == h[16]
  {
  }

  // ---------------------------------------------------------------- the random bits

  /** Behind the time the text holds, in order, version and 12 random bits, variant and 14 random
      bits, and 48 random bits. */
  lemma TextFields(ms: nat, rand: seq<Byte>)
    requires |rand| == 10
    ensures var text := Text(ms, rand);
      && |text| == 36
      && text[14..18] == Hex([0x70 + rand[0] % 16, rand[1]])
      && text[19..23] == Hex([0x80 + rand[2] % 64, rand[3]])
      && text[24..] == Hex(rand[4..])
  {
    var b := Encode(ms, rand);
    hide Encode, Hex;
    HexSlice(b, 6, 8);
    HexSlice(b, 8, 10);
    HexSlice(b, 10, 16);
    EncodeTail(ms, rand);
    var h := Hex(b);
    assert Dashed(h)[14..18] == h[12..16] && Dashed(h)[19..23] == h[16..20] && Dashed(h)[24..] == h[20..];
  }

  lemma EncodeTail(ms: nat, rand: seq<Byte>)
    requires |rand| == 10
    ensures var b := Encode(ms, rand);
      && b[6..8] == [0x70 + rand[0] % 16, rand[1]]
      && b[8..10] == [0x80 + rand[2] % 64, rand[3]] && b[10..16] == rand[4..]
  {
  }

  /** The digits of some of the bytes. */
  lemma {:induction false} HexSlice(b: seq<Byte>, i: nat, j: nat)
    requires i <= j <= |b|
    ensures Hex(b)[2 * i..2 * j] == Hex(b[i..j])
  {
    HexConcat(b[..i], b[i..j]);
    HexConcat(b[..j], b[j..]);
    hide Hex;
    assert b[..i] + b[i..j] == b[..j] && b[..j] + b[j..] == b;
    assert Hex(b)[..2 * j] == Hex(b[..j]) && Hex(b[..j])[2 * i..] == Hex(b[i..j]);
  }

  lemma {:induction false} HexConcat(a: seq<Byte>, b: seq<Byte>)
    ensures Hex(a + b) == Hex(a) + Hex(b)
  {
    if b == [] {
      assert a + b == a;
    } else {
      assert (a + b)[..|a + b| - 1] == a + b[..|b| - 1];
      HexConcat(a, b[..|b| - 1]);
    }
  }

  /** Two identifiers of one millisecond are equal exactly when their 74 random bits are. */
  lemma SameTextIff(ms: nat, r1: seq<Byte>, r2: seq<Byte>)
    requires |r1| == |r2| == 10
    ensures Text(ms, r1) == Text(ms, r2) <==>
      r1[0] % 16 == r2[0] % 16 && r1[1] == r2[1] && r1[2] % 64 == r2[2] % 64 && r1[3..] == r2[3..]
  {
    var same := r1[0] % 16 == r2[0] % 16 && r1[1] == r2[1] && r1[2] % 64 == r2[2] % 64 && r1[3..] == r2[3..];
    if same {
      assert Encode(ms, r1) == Encode(ms, r2);
    }
    hide Encode, Hex, Text;
    TextFields(ms, r1);
    TextFields(ms, r2);
    HexInjective([0x70 + r1[0] % 16, r1[1]], [0x70 + r2[0] % 16, r2[1]]);
    HexInjective([0x80 + r1[2] % 64, r1[3]], [0x80 + r2[2] % 64, r2[3]]);
    HexInjective(r1[4..], r2[4..]);
    if Text(ms, r1) == Text(ms, r2) {
      assert r1[3..] == [r1[3]] + r1[4..] && r2[3..] == [r2[3]] + r2[4..];
    }
  }

  lemma {:induction false} HexInjective(a: seq<Byte>, b: seq<Byte>)
    requires |a| == |b|
    ensures Hex(a) == Hex(b) <==> a == b
  {
    if a != [] && Hex(a) == Hex(b) {
      var n := |a| - 1;
      assert a == a[..n] + [a[n]] && b == b[..n] + [b[n]];
      HexConcat(a[..n], [a[n]]);
      HexConcat(b[..n], [b[n]]);
      hide Hex;
      assert Hex(a)[..2 * n] == Hex(a[..n]) && Hex(a)[2 * n..] == Hex([a[n]]);
      assert Hex(b)[..2 * n] == Hex(b[..n]) && Hex(b)[2 * n..] == Hex([b[n]]);
      HexInjective(a[..n], b[..n]);
      OneByte(a[n], b[n]);
    }
  }

  lemma OneByte(x: Byte, y: Byte)
    ensures Hex([x]) == Hex([y]) ==> x == y
  {
    assert [x][..0] == [] && [y][..0] == [];
    assert Hex([x]) == [Digit(x / 16), Digit(x % 16)] && Hex([y]) == [Digit(y / 16), Digit(y % 16)];
    ByteRoundTrip(x);
    ByteRoundTrip(y);
    if Hex([x]) == Hex([y]) {
      assert Hex([x])[0] == Hex([y])[0] && Hex([x])[1] == Hex([y])[1];
    }
  }
}
