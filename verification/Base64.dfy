/** The inlined base64 encoder used to ship files over SSH, against a decoder written
    from section 4 of RFC 4648 (strict: padding only where it belongs, and the unused
    bits zero, as section 3.5 allows a decoder to demand). */
module Base64 {
  import opened Wrappers

  type byte = x: int | 0 <= x < 256

  const UPPER: string := "ABCDEFGHIJKLMNOPQRSTUVWXYZ"
  const LOWER: string := "abcdefghijklmnopqrstuvwxyz"
  const NUMERALS: string := "0123456789"

  /** Table 1 of RFC 4648. */
  const TAB: string := UPPER + LOWER + NUMERALS + "+/"

  /** Everything below holds for any 64-character alphabet without '='. */
  predicate Alphabet(tab: string) {
    |tab| == 64 && '=' !in tab && forall i, j :: 0 <= i < j < 64 ==> tab[i] != tab[j]
  }

  // ---------------------------------------------------------------------------
  // The decoder
  // ---------------------------------------------------------------------------

  /** The value of a character: its index in the table. */
  function Value(tab: string, c: char): Option<nat> {
    if tab == "" then None
    else if tab[|tab| - 1] == c then Some(|tab| - 1)
    else Value(tab[..|tab| - 1], c)
  }

  /** Four 6-bit values as three bytes. */
  function Bytes3(a: nat, b: nat, c: nat, d: nat): seq<byte>
    requires a < 64 && b < 64 && c < 64 && d < 64
  {
    [a * 4 + b / 16, (b % 16) * 16 + c / 4, (c % 4) * 64 + d]
  }

  /** Four characters without padding. */
  function Quad(tab: string, q: string): Option<seq<byte>>
    requires |tab| == 64 && |q| == 4
  {
    ValueBound(tab, q[0]);
    ValueBound(tab, q[1]);
    ValueBound(tab, q[2]);
    ValueBound(tab, q[3]);
    var (a, b, c, d) := (Value(tab, q[0]), Value(tab, q[1]), Value(tab, q[2]), Value(tab, q[3]));
    if a.Some? && b.Some? && c.Some? && d.Some? then Some(Bytes3(a.value, b.value, c.value, d.value)) else None
  }

  /** The last four characters: "xx==" is one byte, "xxx=" two, each with zero spare
      bits; otherwise three. */
  function LastQuad(tab: string, q: string): Option<seq<byte>>
    requires |tab| == 64 && |q| == 4
  {
    if q[2] == '=' && q[3] == '=' then
      var r := Quad(tab, [q[0], q[1], tab[0], tab[0]]);
      if r.Some? && r.value[1] == 0 && r.value[2] == 0 then Some(r.value[..1]) else None
    else if q[3] == '=' then
      var r := Quad(tab, [q[0], q[1], q[2], tab[0]]);
      if r.Some? && r.value[2] == 0 then Some(r.value[..2]) else None
    else Quad(tab, q)
  }

  function Decode(tab: string, s: string): Option<seq<byte>>
    requires |tab| == 64
  {
    if s == "" then Some([])
    else if |s| < 4 then None
    else if |s| == 4 then LastQuad(tab, s)
    else
      var (first, rest) := (Quad(tab, s[..4]), Decode(tab, s[4..]));
      if first.Some? && rest.Some? then Some(first.value + rest.value) else None
  }

  // ---------------------------------------------------------------------------
  // The encoder
  // ---------------------------------------------------------------------------

  /** Three bytes as one 24-bit number. */
  function Group(x: nat, y: nat, z: nat): nat {
    x * 0x1_0000 + y * 0x100 + z
  }

  /** The 6-bit digits of a 24-bit group, most significant first. */
  function Digit(v: nat, k: nat): (d: nat)
    requires k < 4
    ensures d < 64
  {
    (if k == 0 then v / 0x4_0000 else if k == 1 then v / 0x1000 else if k == 2 then v / 64 else v) % 64
  }

  /** The four characters of a 24-bit group. */
  function Digits(tab: string, v: nat): string
    requires |tab| == 64
  {
    [tab[Digit(v, 0)], tab[Digit(v, 1)], tab[Digit(v, 2)], tab[Digit(v, 3)]]
  }

  /** What base64Encode produces, group by group. */
  function Encoding(tab: string, data: seq<byte>): string
    requires |tab| == 64
  {
    if |data| == 0 then ""
    else if |data| == 1 then Digits(tab, Group(data[0], 0, 0))[..2] + "=="
    else if |data| == 2 then Digits(tab, Group(data[0], data[1], 0))[..3] + "="
    else Digits(tab, Group(data[0], data[1], data[2])) + Encoding(tab, data[3..])
  }

  /** base64Encode: the whole groups in a loop, then the remainder. */
  method Base64Encode(data: seq<byte>) returns (out: string)
    ensures out == Encoding(TAB, data)
    ensures Decode(TAB, out) == Some(data)
  {
    TableIsAlphabet();
    out := EncodeWith(TAB, data);
    DecodeEncoding(TAB, data);
  }

  method EncodeWith(tab: string, data: seq<byte>) returns (out: string)
    requires |tab| == 64
    ensures out == Encoding(tab, data)
  {
    ghost var k: nat, i: nat;
    out, k := WholeGroups(tab, data);
    var rem := |data| % 3;
    Rem3(|data|, k, |data| - 3 * k);
    if rem == 1 {
      out := out + Digits(tab, Group(data[|data| - 1], 0, 0))[..2] + "==";
    } else if rem == 2 {
      out := out + Digits(tab, Group(data[|data| - 2], data[|data| - 1], 0))[..3] + "=";
    }
  }

  lemma Rem3(n: nat, k: nat, r: nat)
    requires r < 3 && n == 3 * k + r
    ensures n % 3 == r && n / 3 == k
  {
  }

  method WholeGroups(tab: string, data: seq<byte>) returns (out: string, ghost k: nat)
    requires |tab| == 64
    ensures 3 * k <= |data| < 3 * k + 3
    ensures out + Encoding(tab, data[3 * k..]) == Encoding(tab, data)
  {
    out, k := "", 0;
    var i := 0;
    ghost var rest := Encoding(tab, data);
    assert data[0..] == data;
    while i + 3 <= |data|
      invariant i == 3 * k <= |data|
      invariant out + rest == Encoding(tab, data) && rest == Encoding(tab, data[i..])
    {
      assert data[i..][3..] == data[i + 3..];
      var v := Group(data[i], data[i + 1], data[i + 2]);
      out, rest := out + Digits(tab, v), rest[4..];
      i := i + 3;
      k := k + 1;
    }
  }

  // ---------------------------------------------------------------------------
  // Characters and values
  // ---------------------------------------------------------------------------

  lemma {:induction false} ValueBound(tab: string, c: char)
    ensures Value(tab, c).Some? ==> Value(tab, c).value < |tab| && tab[Value(tab, c).value] == c
    ensures Value(tab, c).None? ==> c !in tab
  {
    if tab != "" {
      ValueBound(tab[..|tab| - 1], c);
      assert tab == tab[..|tab| - 1] + [tab[|tab| - 1]];
    }
  }

  lemma ValueAt(tab: string, k: nat)
    requires Alphabet(tab) && k < 64
    ensures Value(tab, tab[k]) == Some(k)
  {
    ValueBound(tab, tab[k]);
    assert tab[k] in tab;
  }

  lemma UpperAt(k: nat)
    requires k < 26
    ensures UPPER[k] == 'A' + k as char
  {
  }

  lemma LowerAt(k: nat)
    requires k < 26
    ensures LOWER[k] == 'a' + k as char
  {
  }

  lemma NumeralAt(k: nat)
    requires k < 10
    ensures NUMERALS[k] == '0' + k as char
  {
  }

  function TableChar(k: nat): char
    requires k < 64
  {
    if k < 26 then 'A' + k as char
    else if k < 52 then 'a' + (k - 26) as char
    else if k < 62 then '0' + (k - 52) as char
    else if k == 62 then '+' else '/'
  }

  lemma TableAt(k: nat)
    requires k < 64
    ensures TAB[k] == TableChar(k)
  {
    if k < 26 {
      UpperAt(k);
    } else if k < 52 {
      LowerAt(k - 26);
    } else if k < 62 {
      NumeralAt(k - 52);
    }
  }

  lemma TableIsAlphabet()
    ensures Alphabet(TAB)
  {
    forall k | 0 <= k < 64 ensures TAB[k] == TableChar(k) {
      TableAt(k);
    }
  }

  // ---------------------------------------------------------------------------
  // Bytes and values
  // ---------------------------------------------------------------------------

  lemma By4(a: nat, q: nat, r: nat)
    requires r < 4 && a == q * 4 + r
    ensures a / 4 == q && a % 4 == r
  {
  }

  lemma By16(a: nat, q: nat, r: nat)
    requires r < 16 && a == q * 16 + r
    ensures a / 16 == q && a % 16 == r
  {
  }

  lemma By64(a: nat, q: nat, r: nat)
    requires r < 64 && a == q * 64 + r
    ensures a / 64 == q && a % 64 == r
  {
  }

  /** The digits of three bytes, as the shifts and masks of the source compute them. */
  lemma GroupDigits(x: nat, y: nat, z: nat)
    requires x < 256 && y < 256 && z < 256
    ensures Digit(Group(x, y, z), 0) == x / 4
    ensures Digit(Group(x, y, z), 1) == (x % 4) * 16 + y / 16
    ensures Digit(Group(x, y, z), 2) == (y % 16) * 4 + z / 64
    ensures Digit(Group(x, y, z), 3) == z % 64
  {
    assert Group(x, y, z) / 0x4_0000 == x / 4 by {
      var r := (x % 4) * 0x1_0000 + y * 0x100 + z;
      assert Group(x, y, z) == (x / 4) * 0x4_0000 + r && r < 0x4_0000;
    }
    assert Group(x, y, z) / 0x1000 == x * 16 + y / 16 by {
      var r := (y % 16) * 0x100 + z;
      assert Group(x, y, z) == (x * 16 + y / 16) * 0x1000 + r && r < 0x1000;
    }
    By64(Group(x, y, z), x * 1024 + y * 4 + z / 64, z % 64);
    By64(x * 16 + y / 16, x / 4, (x % 4) * 16 + y / 16);
    By64(x * 1024 + y * 4 + z / 64, x * 16 + y / 16, (y % 16) * 4 + z / 64);
  }

  lemma Recombine(x: byte, y: byte, z: byte)
    ensures Bytes3(x / 4, (x % 4) * 16 + y / 16, (y % 16) * 4 + z / 64, z % 64) == [x, y, z]
  {
    By16((x % 4) * 16 + y / 16, x % 4, y / 16);
    By4((y % 16) * 4 + z / 64, y % 16, z / 64);
  }

  lemma Resplit(a: nat, b: nat, c: nat, d: nat)
    requires a < 64 && b < 64 && c < 64 && d < 64
    ensures var r := Bytes3(a, b, c, d); var v := Group(r[0], r[1], r[2]);
            Digit(v, 0) == a && Digit(v, 1) == b && Digit(v, 2) == c && Digit(v, 3) == d
  {
    var r := Bytes3(a, b, c, d);
    GroupDigits(r[0], r[1], r[2]);
    By4(r[0], a, b / 16);
    By16(r[1], b % 16, c / 4);
    By64(r[2], c % 4, d);
  }

  /** One group there and back. */
  lemma QuadOfDigits(tab: string, x: byte, y: byte, z: byte)
    requires Alphabet(tab)
    ensures Quad(tab, Digits(tab, Group(x, y, z))) == Some([x, y, z])
    ensures y == 0 && z == 0 ==> Digits(tab, Group(x, y, z))[2] == tab[0]
    ensures z == 0 ==> Digits(tab, Group(x, y, z))[3] == tab[0]
    ensures forall c :: c in Digits(tab, Group(x, y, z)) ==> c in tab
  {
    var v := Group(x, y, z);
    ValueAt(tab, Digit(v, 0));
    ValueAt(tab, Digit(v, 1));
    ValueAt(tab, Digit(v, 2));
    ValueAt(tab, Digit(v, 3));
    GroupDigits(x, y, z);
    Recombine(x, y, z);
  }

  /** One group back and there. */
  lemma DigitsOfQuad(tab: string, q: string)
    requires Alphabet(tab) && |q| == 4 && Quad(tab, q).Some?
    ensures |Quad(tab, q).value| == 3
    ensures var b := Quad(tab, q).value; Digits(tab, Group(b[0], b[1], b[2])) == q
  {
    ValueBound(tab, q[0]);
    ValueBound(tab, q[1]);
    ValueBound(tab, q[2]);
    ValueBound(tab, q[3]);
    Resplit(Value(tab, q[0]).value, Value(tab, q[1]).value, Value(tab, q[2]).value, Value(tab, q[3]).value);
  }

  // ---------------------------------------------------------------------------
  // Round trips
  // ---------------------------------------------------------------------------

  lemma DecodeOne(tab: string, x: byte)
    requires Alphabet(tab)
    ensures |Encoding(tab, [x])| == 4 && LastQuad(tab, Encoding(tab, [x])) == Some([x])
  {
    var t, e := Digits(tab, Group(x, 0, 0)), Encoding(tab, [x]);
    QuadOfDigits(tab, x, 0, 0);
    assert e == t[..2] + "==";
    var zero: byte := 0;
    PaddedOne(tab, t, e, [x, zero, zero]);
    assert [x, zero, zero][..1] == [x];
  }

  lemma PaddedOne(tab: string, t: string, e: string, b: seq<byte>)
    requires |tab| == 64 && |t| == 4 && |b| == 3 && Quad(tab, t) == Some(b)
    requires t[2] == t[3] == tab[0] && e == t[..2] + "==" && b[1] == b[2] == 0
    ensures LastQuad(tab, e) == Some(b[..1])
  {
    assert [e[0], e[1], tab[0], tab[0]] == t;
  }

  lemma PaddedTwo(tab: string, t: string, e: string, b: seq<byte>)
    requires |tab| == 64 && |t| == 4 && |b| == 3 && Quad(tab, t) == Some(b)
    requires t[2] != '=' && t[3] == tab[0] && e == t[..3] + "=" && b[2] == 0
    ensures LastQuad(tab, e) == Some(b[..2])
  {
    assert [e[0], e[1], e[2], tab[0]] == t;
  }

  lemma DecodeTwo(tab: string, x: byte, y: byte)
    requires Alphabet(tab)
    ensures |Encoding(tab, [x, y])| == 4 && LastQuad(tab, Encoding(tab, [x, y])) == Some([x, y])
  {
    var t, e := Digits(tab, Group(x, y, 0)), Encoding(tab, [x, y]);
    QuadOfDigits(tab, x, y, 0);
    assert e == t[..3] + "=";
    assert t[2] in t;
    var zero: byte := 0;
    PaddedTwo(tab, t, e, [x, y, zero]);
    assert [x, y, zero][..2] == [x, y];
  }

  lemma DecodeThree(tab: string, data: seq<byte>)
    requires Alphabet(tab) && |data| == 3
    ensures |Encoding(tab, data)| == 4 && LastQuad(tab, Encoding(tab, data)) == Some(data)
  {
    var t := Digits(tab, Group(data[0], data[1], data[2]));
    QuadOfDigits(tab, data[0], data[1], data[2]);
    assert t[3] in t;
    assert data[3..] == [];
    assert Encoding(tab, data[3..]) == "";
    assert Encoding(tab, data) == t + "" == t;
    assert data == [data[0], data[1], data[2]];
  }

  /** Section 4 of RFC 4648 decodes what the encoder writes, for every byte string. */
  lemma {:induction false} DecodeEncoding(tab: string, data: seq<byte>)
    requires Alphabet(tab)
    ensures Decode(tab, Encoding(tab, data)) == Some(data)
    decreases |data|
  {
    if |data| == 1 {
      DecodeOne(tab, data[0]);
      assert data == [data[0]];
    } else if |data| == 2 {
      DecodeTwo(tab, data[0], data[1]);
      assert data == [data[0], data[1]];
    } else if |data| == 3 {
      DecodeThree(tab, data);
    } else if data != [] {
      var t, rest := Digits(tab, Group(data[0], data[1], data[2])), Encoding(tab, data[3..]);
      QuadOfDigits(tab, data[0], data[1], data[2]);
      DecodeEncoding(tab, data[3..]);
      assert (t + rest)[..4] == t && (t + rest)[4..] == rest;
      assert data == [data[0], data[1], data[2]] + data[3..];
      assert rest != "" by {
        assert Decode(tab, "") == Some([]) && data[3..] != [];
      }
    }
  }

  lemma EncodeShort(tab: string, q: string)
    requires Alphabet(tab) && |q| == 4 && LastQuad(tab, q).Some?
    ensures Encoding(tab, LastQuad(tab, q).value) == q
    ensures LastQuad(tab, q).value != []
  {
    if q[2] == '=' && q[3] == '=' {
      DigitsOfQuad(tab, [q[0], q[1], tab[0], tab[0]]);
      assert q == [q[0], q[1]] + "==";
    } else if q[3] == '=' {
      DigitsOfQuad(tab, [q[0], q[1], q[2], tab[0]]);
      assert q == [q[0], q[1], q[2]] + "=";
    } else {
      DigitsOfQuad(tab, q);
      assert LastQuad(tab, q).value[3..] == [];
    }
  }

  /** And the other way: every text the strict decoder accepts is the encoding of what
      it decodes to, so encoding and decoding are inverse bijections. */
  lemma {:induction false} EncodingDecode(tab: string, s: string)
    requires Alphabet(tab) && Decode(tab, s).Some?
    ensures Encoding(tab, Decode(tab, s).value) == s
    decreases |s|
  {
    if |s| == 4 {
      EncodeShort(tab, s);
    } else if s != "" {
      DigitsOfQuad(tab, s[..4]);
      EncodingDecode(tab, s[4..]);
      var first, rest := Quad(tab, s[..4]).value, Decode(tab, s[4..]).value;
      assert (first + rest)[3..] == rest;
      assert s == s[..4] + s[4..];
    }
  }

  /** `e` is `groups` groups of alphabet characters of which the last `pad`
      characters are '=' instead. */
  predicate Shape(tab: string, e: string, groups: nat, pad: nat) {
    && |e| == 4 * groups
    && pad <= 2 && pad <= |e|
    && (forall c :: c in e[..|e| - pad] ==> c in tab)
    && (forall k :: |e| - pad <= k < |e| ==> e[k] == '=')
  }

  lemma ShapeMore(tab: string, t: string, e: string, groups: nat, pad: nat)
    requires Shape(tab, e, groups, pad) && |t| == 4 && forall c :: c in t ==> c in tab
    ensures Shape(tab, t + e, groups + 1, pad)
  {
    assert (t + e)[..|t + e| - pad] == t + e[..|e| - pad];
  }

  /** 3k+r bytes become k whole groups, and one more with 3-r times '=' when r > 0. */
  lemma {:induction false} EncodingShapeBy(tab: string, data: seq<byte>, k: nat, r: nat)
    requires Alphabet(tab) && r < 3 && |data| == 3 * k + r
    ensures Shape(tab, Encoding(tab, data), k + if r == 0 then 0 else 1, if r == 0 then 0 else 3 - r)
    decreases k
  {
    if k > 0 {
      EncodingShapeBy(tab, data[3..], k - 1, r);
      QuadOfDigits(tab, data[0], data[1], data[2]);
      ShapeMore(tab, Digits(tab, Group(data[0], data[1], data[2])), Encoding(tab, data[3..]),
                k - 1 + if r == 0 then 0 else 1, if r == 0 then 0 else 3 - r);
    } else if r == 1 {
      QuadOfDigits(tab, data[0], 0, 0);
      var t := Digits(tab, Group(data[0], 0, 0));
      assert Encoding(tab, data)[..2] == t[..2];
    } else if r == 2 {
      QuadOfDigits(tab, data[0], data[1], 0);
      var t := Digits(tab, Group(data[0], data[1], 0));
      assert Encoding(tab, data)[..3] == t[..3];
    }
  }

  /** The length is 4*ceil(n/3); '=' occurs only at the very end, and how often is
      fixed by n mod 3; everything before is from the alphabet. */
  lemma EncodingShape(tab: string, data: seq<byte>)
    requires Alphabet(tab)
    ensures Shape(tab, Encoding(tab, data), (|data| + 2) / 3, (3 - |data| % 3) % 3)
  {
    var k, r := |data| / 3, |data| % 3;
    EncodingShapeBy(tab, data, k, r);
    PadCount(k, r);
  }

  lemma PadCount(k: nat, r: nat)
    requires r < 3
    ensures (3 * k + r + 2) / 3 == k + if r == 0 then 0 else 1
    ensures (3 - r) % 3 == if r == 0 then 0 else 3 - r
  {
  }
}
