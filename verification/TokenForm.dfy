/**
 What a token looks like, byte by byte and symbol by symbol: which bits an exclusive or
 sets, what each block of a chained encryption is made from, which bytes pad, which letter
 stands for which six bits, and where the bits of the id are.
 */
module TokenForm {
  import opened Wrappers
  import opened AppToken
  import opened Quotients

  /** Bit `i` of a number. */
  predicate Bit(n: nat, i: nat)
    requires Power(2, i) > 0
  {
    n / Power(2, i) % 2 == 1
  }

  lemma {:induction false} PowerPositive(base: nat, i: nat)
    requires base > 0
    ensures Power(base, i) > 0
  {
    if i > 0 {
      PowerPositive(base, i - 1);
    }
  }

  /** Bit `i + 1` is bit `i` of the half. */
  lemma BitHalf(n: nat, i: nat)
    ensures Power(2, i) > 0 && Power(2, i + 1) > 0 && Bit(n, i + 1) == Bit(n / 2, i)
  {
    PowerPositive(2, i);
    DivTwice(n, 2, Power(2, i));
  }

  lemma {:induction false} XorBitsBit(a: nat, b: nat, bits: nat, i: nat)
    requires i < bits
    ensures Power(2, i) > 0 && (Bit(XorBits(a, b, bits), i) <==> Bit(a, i) != Bit(b, i))
    decreases bits
  {
    hide Bit, Power;
    PowerPositive(2, i);
    XorParts(a, b, bits);
    var x := XorBits(a, b, bits);
    if i > 0 {
      XorBitsBit(a / 2, b / 2, bits - 1, i - 1);
      BitHalf(x, i - 1);
      BitHalf(a, i - 1);
      BitHalf(b, i - 1);
    } else {
      LowestBit(a);
      LowestBit(b);
      LowestBit(x);
    }
  }

  lemma XorParts(a: nat, b: nat, bits: nat)
    requires bits > 0
    ensures var x := XorBits(a, b, bits);
            x / 2 == XorBits(a / 2, b / 2, bits - 1) && (x % 2 == 1 <==> a % 2 != b % 2)
  {
    LowBit((a % 2 + b % 2) % 2, XorBits(a / 2, b / 2, bits - 1));
  }

  lemma LowestBit(n: nat)
    ensures Power(2, 0) > 0 && (Bit(n, 0) <==> n % 2 == 1)
  {
  }

  /** A bit of an exclusive or is set exactly when the bits differ. */
  lemma XorBit(a: byte, b: byte, i: nat)
    requires i < 8
    ensures Power(2, i) > 0 && (Bit(Xor(a, b) as nat, i) <==> Bit(a as nat, i) != Bit(b as nat, i))
  {
    XorBitsBit(a as nat, b as nat, 8, i);
  }

  // ---------- blocks ----------

  function BlockAt(data: seq<byte>, i: nat): Block
    requires BLOCK_SIZE * i + BLOCK_SIZE <= |data|
  {
    data[BLOCK_SIZE * i..BLOCK_SIZE * i + BLOCK_SIZE]
  }

  /** Each block is the cipher's output for the data block mixed with the block before it, the
      first one with the vector. */
  lemma {:induction false} CbcBlock(c: Cipher, iv: Block, data: seq<byte>, i: nat)
    requires |data| % BLOCK_SIZE == 0 && BLOCK_SIZE * i + BLOCK_SIZE <= |data|
    ensures var r := CbcEncrypt(c, iv, data);
            BlockAt(r, i) == c.encrypt(XorBlock(BlockAt(data, i), if i == 0 then iv else BlockAt(r, i - 1)))
    decreases i
  {
    hide XorBlock;
    var x: Block := data[..BLOCK_SIZE];
    var y: Block := c.encrypt(XorBlock(x, iv));
    var more := data[BLOCK_SIZE..];
    var r, rest := CbcEncrypt(c, iv, data), CbcEncrypt(c, y, more);
    assert r == y + rest;
    BlocksBehind(y, rest, i);
    BlocksBehind(x, more, i);
    assert data == x + more;
    if i > 0 {
      CbcBlock(c, y, more, i - 1);
      BlocksBehind(y, rest, i - 1);
    }
  }

  lemma BlocksBehind(y: Block, rest: seq<byte>, i: nat)
    requires BLOCK_SIZE * i + BLOCK_SIZE <= BLOCK_SIZE + |rest|
    ensures BlockAt(y + rest, i) == if i == 0 then y else BlockAt(rest, i - 1)
  {
  }

  lemma XorBlockAt(a: Block, b: Block, i: nat, bit: nat)
    requires i < BLOCK_SIZE && bit < 8
    ensures Power(2, bit) > 0
    ensures Bit(XorBlock(a, b)[i] as nat, bit) <==> Bit(a[i] as nat, bit) != Bit(b[i] as nat, bit)
  {
    XorBit(a[i], b[i], bit);
  }

  /** Between one and sixteen bytes are added, up to the next block, and each of them says how
      many there are. */
  lemma PadBytes(data: seq<byte>)
    ensures var n := |Pad(data)| - |data|;
            && 1 <= n <= BLOCK_SIZE && |Pad(data)| % BLOCK_SIZE == 0 && Pad(data)[..|data|] == data
            && forall i :: |data| <= i < |Pad(data)| ==> Pad(data)[i] as nat == n
  {
  }

  // ---------- base64 ----------

  const UPPER := "ABCDEFGHIJKLMNOPQRSTUVWXYZ"
  const LOWER := "abcdefghijklmnopqrstuvwxyz"
  const DIGITS := "0123456789"

  /** The standard alphabet. */
  const ALPHABET := UPPER + LOWER + DIGITS + "+/"

  lemma UpperIs(v: nat)
    requires v < 26
    ensures UPPER[v] == 'A' + v as char && LOWER[v] == 'a' + v as char
  {
    if v < 9 {
    } else if v < 18 {
    } else {
    }
  }

  lemma DigitIs(v: nat)
    requires v < 10
    ensures DIGITS[v] == '0' + v as char
  {
  }

  lemma SymbolIs(v: nat)
    requires v < 64
    ensures |ALPHABET| == 64 && Symbol(v) == ALPHABET[v]
  {
    if v < 26 {
      UpperIs(v);
    } else if v < 52 {
      UpperIs(v - 26);
    } else if v < 62 {
      DigitIs(v - 52);
    }
  }

  /** Three bytes as one number, with zeros for those that are missing. */
  function Triple(data: seq<byte>): nat {
    65536 * (if |data| > 0 then data[0] as nat else 0)
    + 256 * (if |data| > 1 then data[1] as nat else 0)
    + if |data| > 2 then data[2] as nat else 0
  }

  /** Six of the 24 bits, from the top. */
  function Six(n: nat, j: nat): nat
    requires j < 4
  {
    if j == 0 then n / 262144 % 64 else if j == 1 then n / 4096 % 64 else if j == 2 then n / 64 % 64 else n % 64
  }

  lemma TripleSixes(a: byte, b: byte, c: byte)
    ensures var n := 65536 * (a as nat) + 256 * (b as nat) + c as nat;
            && Six(n, 0) == a as nat / 4 && Six(n, 1) == a as nat % 4 * 16 + b as nat / 16
            && Six(n, 2) == b as nat % 16 * 4 + c as nat / 64 && Six(n, 3) == c as nat % 64
  {
    var x, y, z := a as nat, b as nat, c as nat;
    SixesOf(x / 4, x % 4, y / 16, y % 16, z / 64, z % 64);
    Remainder(x, 4);
    Remainder(y, 16);
    Remainder(z, 64);
  }

  lemma SixesOf(p: nat, q: nat, r: nat, t: nat, u: nat, v: nat)
    requires p < 64 && q < 4 && r < 16 && t < 16 && u < 4 && v < 64
    ensures var n := 262144 * p + 65536 * q + 4096 * r + 256 * t + 64 * u + v;
            Six(n, 0) == p && Six(n, 1) == 16 * q + r && Six(n, 2) == 4 * t + u && Six(n, 3) == v
  {
    var n := 262144 * p + 65536 * q + 4096 * r + 256 * t + 64 * u + v;
    Quotient(n, 262144, p, 65536 * q + 4096 * r + 256 * t + 64 * u + v);
    Quotient(p, 64, 0, p);
    Quotient(n, 4096, 64 * p + 16 * q + r, 256 * t + 64 * u + v);
    Quotient(64 * p + 16 * q + r, 64, p, 16 * q + r);
    Quotient(n, 64, 4096 * p + 1024 * q + 64 * r + 4 * t + u, v);
    Quotient(4096 * p + 1024 * q + 64 * r + 4 * t + u, 64, 64 * p + 16 * q + r, 4 * t + u);
  }

  /** The four symbols of a group: as many letters as there are bits for, then padding. */
  lemma GroupSymbols(data: seq<byte>, j: nat)
    requires data != [] && j < 4
    ensures |Encode(data)| >= 4
    ensures Encode(data)[j] == if j <= |data| then Symbol(Six(Triple(data), j)) else '='
  {
    hide Symbol, Six;
    TripleSixes(data[0], if |data| > 1 then data[1] else 0, if |data| > 2 then data[2] else 0);
  }

  /** Symbol `j` of group `g` stands for six bits of bytes `3g` to `3g+2`. */
  lemma {:induction false} EncodedSymbol(data: seq<byte>, g: nat, j: nat)
    requires 3 * g < |data| && j < 4
    ensures |Encode(data)| == 4 * ((|data| + 2) / 3) && 4 * g + j < |Encode(data)|
    ensures Encode(data)[4 * g + j]
         == if 3 * g + j <= |data| then Symbol(Six(Triple(data[3 * g..]), j)) else '='
    decreases g
  {
    hide Symbol, Six;
    EncodedLength(data);
    if g == 0 {
      assert data[0..] == data;
      GroupSymbols(data, j);
    } else {
      var rest := data[3..];
      EncodedSymbol(rest, g - 1, j);
      assert rest[3 * (g - 1)..] == data[3 * g..];
      assert Encode(data)[4 * g + j] == Encode(rest)[4 * (g - 1) + j];
    }
  }

  lemma {:induction false} EncodedLength(data: seq<byte>)
    ensures |Encode(data)| == 4 * ((|data| + 2) / 3)
    decreases |data|
  {
    hide Symbol;
    if |data| >= 3 {
      EncodedLength(data[3..]);
    }
  }

  // ---------- the id in a token ----------

  /** Byte `i` of a varint has bits `7i` to `7i+6` of the number, and its top bit says whether
      more follow. */
  lemma {:induction false} GroupByte(u: nat, i: nat)
    requires i < |Groups(u)|
    ensures Power(128, i) > 0 && Power(128, i + 1) > 0
    ensures Groups(u)[i] as nat == u / Power(128, i) % 128 + (if u >= Power(128, i + 1) then 128 else 0)
    decreases i
  {
    PowerPositive(128, i);
    PowerPositive(128, i + 1);
    if i == 0 {
      assert Power(128, 1) == 128 * Power(128, 0);
    } else {
      assert u >= 128;
      GroupByte(u / 128, i - 1);
      PowerPositive(128, i - 1);
      DivTwice(u, 128, Power(128, i - 1));
      AtLeast(u, Power(128, i));
      assert Groups(u)[i] == Groups(u / 128)[i - 1];
    }
  }

  lemma AtLeast(u: nat, p: nat)
    ensures u >= 128 * p <==> u / 128 >= p
  {
  }

  /** The sixteen bytes a token encrypts: the varint of the id in eight bytes, zeros behind it,
      and eight bytes of padding. */
  ghost predicate Plain(x: Block, u: nat) {
    && (forall i :: 0 <= i < 8 ==>
          Power(128, i) > 0 && x[i] as nat == u / Power(128, i) % 128 + (if u >= Power(128, i + 1) then 128 else 0))
    && (forall i :: 8 <= i < 16 ==> x[i] == 8)
  }

  /** A token, in full: the base64 text of one block, which is the cipher's output for those
      bytes mixed with the first sixteen bytes of the key.  Ids are numbered 0, -1, 1, -2, 2
      and so on. */
  lemma TokenIs(c: Cipher, key: seq<byte>, id: int) returns (x: Block)
    requires KeyOk(key) && -0x80_0000_0000_0000 <= id < 0x80_0000_0000_0000
    ensures Plain(x, if id < 0 then -2 * id - 1 else 2 * id)
    ensures Issued(c, key, id) == Success(Encode(c.encrypt(XorBlock(x, key[..BLOCK_SIZE]))))
  {
    hide Groups, Encode, XorBlock, CbcEncrypt, Plain;
    var u := ZigZag(id);
    GroupsFit(u, 8);
    EightGroups();
    var g := Groups(u);
    var data := g + Zeros(8 - |g|);
    PadBytes(data);
    x := Pad(data);
    var iv: Block := key[..BLOCK_SIZE];
    PlainIs(u, x);
    CbcBlock(c, iv, x, 0);
    var r := CbcEncrypt(c, iv, x);
    assert BlockAt(x, 0) == x && BlockAt(r, 0) == r;
  }

  lemma PlainIs(u: nat, x: Block)
    requires |Groups(u)| <= 8 && x == Pad(Groups(u) + Zeros(8 - |Groups(u)|))
    ensures Plain(x, u)
  {
    hide Groups, Pad;
    var g := Groups(u);
    PadBytes(g + Zeros(8 - |g|));
    forall i: nat | i < 8
      ensures Power(128, i) > 0
      ensures x[i] as nat == u / Power(128, i) % 128 + (if u >= Power(128, i + 1) then 128 else 0)
    {
      PowerPositive(128, i);
      assert x[i] == (g + Zeros(8 - |g|))[i] by {
        assert x[..8] == g + Zeros(8 - |g|);
      }
      if i < |g| {
        GroupByte(u, i);
      } else {
        GroupsFit(u, |g|);
        SmallBefore(u, |g|, i);
      }
    }
  }

  /** A number below a power has no digits from there on. */
  lemma {:induction false} SmallBefore(u: nat, n: nat, i: nat)
    requires u < Power(128, n) && n <= i
    ensures Power(128, i) > 0 && u < Power(128, i) && u < Power(128, i + 1) && u / Power(128, i) == 0
    decreases i
  {
    PowerPositive(128, i);
    if i > n {
      SmallBefore(u, n, i - 1);
    }
    Quotient(u, Power(128, i), 0, u);
  }
}
