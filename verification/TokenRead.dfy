/**
 Which tokens are accepted, and as which id: what base64 texts decode and to which bits, what
 each block decrypts to, and when a varint is complete and fits 64 bits.
 */
module TokenRead {
  import opened Wrappers
  import opened AppToken
  import opened TokenForm
  import opened Quotients

  // ---------- base64 ----------

  lemma LetterIs(c: char)
    ensures SymbolValue(c).Some? <==> c in ALPHABET
    ensures SymbolValue(c).Some? ==> |ALPHABET| == 64 && ALPHABET[SymbolValue(c).value] == c
  {
    hide Symbol, SymbolValue;
    SymbolIs(0);
    if c in ALPHABET {
      var v :| 0 <= v < |ALPHABET| && ALPHABET[v] == c;
      SymbolIs(v);
      SymbolRoundTrip(v);
    }
    if SymbolValue(c).Some? {
      ValueSymbol(c);
      SymbolIs(SymbolValue(c).value);
    }
  }

  lemma ValueSymbol(c: char)
    requires SymbolValue(c).Some?
    ensures Symbol(SymbolValue(c).value) == c
  {
  }

  /** Padding: an equals sign at the very end, or the last but one before another. */
  predicate PadAt(s: string, i: nat)
    requires i < |s|
  {
    s[i] == '=' && (i + 1 == |s| || (i + 2 == |s| && s[i + 1] == '='))
  }

  /** Groups of four letters, the last one with up to two signs of padding. */
  ghost predicate WellFormed(s: string) {
    |s| % 4 == 0 && forall i :: 0 <= i < |s| ==> s[i] in ALPHABET || PadAt(s, i)
  }

  lemma FormedRest(s: string)
    requires |s| > 4
    ensures WellFormed(s) <==> (forall i :: 0 <= i < 4 ==> s[i] in ALPHABET) && WellFormed(s[4..])
  {
    hide ALPHABET;
    NoPadLetter();
    if |s| % 4 == 0 {
      assert |s| >= 8;
      assert forall i: nat :: i < |s[4..]| ==> s[4..][i] == s[i + 4] && PadAt(s[4..], i) == PadAt(s, i + 4);
      assert forall i :: 4 <= i < |s| ==> s[i] == s[4..][i - 4];
    }
  }

  lemma NoPadLetter()
    ensures '=' !in ALPHABET
  {
    LetterIs('=');
  }

  /** A text decodes exactly when it is well formed. */
  lemma {:induction false} DecodesIff(s: string)
    ensures Decode(s).Success? <==> WellFormed(s)
    ensures Decode(s).Failure? ==> Decode(s).error == CorruptBase64
    decreases |s|
  {
    hide SymbolValue, ALPHABET;
    NoPadLetter();
    if |s| > 4 {
      DecodesIff(s[4..]);
      FormedRest(s);
      GroupLetters(s);
    } else if |s| == 4 {
      GroupLetters(s);
    }
  }

  lemma GroupLetters(s: string)
    requires |s| >= 4
    ensures forall i :: 0 <= i < 4 ==> (SymbolValue(s[i]).Some? <==> s[i] in ALPHABET)
  {
    hide SymbolValue, ALPHABET;
    forall i | 0 <= i < 4 ensures SymbolValue(s[i]).Some? <==> s[i] in ALPHABET {
      LetterIs(s[i]);
    }
  }

  /** The six bits of a letter, none for padding. */
  function Bits(c: char): nat { if SymbolValue(c).Some? then SymbolValue(c).value else 0 }

  /** Four letters as one number. */
  function Quad(s: string): nat
    requires |s| >= 4
  {
    262144 * Bits(s[0]) + 4096 * Bits(s[1]) + 64 * Bits(s[2]) + Bits(s[3])
  }

  function ByteOf(n: nat, j: nat): nat {
    if j == 0 then n / 65536 % 256 else if j == 1 then n / 256 % 256 else n % 256
  }

  lemma QuadBytes(p: nat, q: nat, r: nat, t: nat)
    requires p < 64 && q < 64 && r < 64 && t < 64
    ensures var n := 262144 * p + 4096 * q + 64 * r + t;
            && ByteOf(n, 0) == p * 4 + q / 16 && ByteOf(n, 1) == q % 16 * 16 + r / 4
            && ByteOf(n, 2) == r % 4 * 64 + t
  {
    QuadOf(p, q / 16, q % 16, r / 4, r % 4, t);
    Remainder(q, 16);
    Remainder(r, 4);
  }

  lemma QuadOf(p: nat, q: nat, q': nat, r: nat, r': nat, t: nat)
    requires p < 64 && q < 4 && q' < 16 && r < 16 && r' < 4 && t < 64
    ensures var n := 262144 * p + 65536 * q + 4096 * q' + 256 * r + 64 * r' + t;
            ByteOf(n, 0) == 4 * p + q && ByteOf(n, 1) == 16 * q' + r && ByteOf(n, 2) == 64 * r' + t
  {
    var n := 262144 * p + 65536 * q + 4096 * q' + 256 * r + 64 * r' + t;
    Quotient(n, 65536, 4 * p + q, 4096 * q' + 256 * r + 64 * r' + t);
    Quotient(4 * p + q, 256, 0, 4 * p + q);
    Quotient(n, 256, 1024 * p + 256 * q + 16 * q' + r, 64 * r' + t);
    Quotient(1024 * p + 256 * q + 16 * q' + r, 256, 4 * p + q, 16 * q' + r);
  }

  /** How many bytes the last group lacks. */
  function Lacking(s: string): nat {
    if |s| < 4 || s[|s| - 1] != '=' then 0 else if s[|s| - 2] != '=' then 1 else 2
  }

  lemma FirstGroup(s: string, j: nat)
    requires |s| >= 4 && Decode(s).Success? && j < 3 && j < |Decode(s).value|
    ensures Decode(s).value[j] as nat == ByteOf(Quad(s), j)
  {
    hide SymbolValue, ByteOf;
    QuadBytes(Bits(s[0]), Bits(s[1]), Bits(s[2]), Bits(s[3]));
    PadBits();
  }

  lemma PadBits()
    ensures Bits('=') == 0 && SymbolValue('=').None?
  {
  }

  /** Byte `3g+j` is made of the bits of the letters `4g` to `4g+3`. */
  lemma {:induction false} DecodedByte(s: string, g: nat, j: nat)
    requires Decode(s).Success? && j < 3 && 3 * g + j < |Decode(s).value|
    ensures 4 * g + 4 <= |s|
    ensures Decode(s).value[3 * g + j] as nat == ByteOf(Quad(s[4 * g..]), j)
    decreases g
  {
    hide SymbolValue, ByteOf;
    DecodedRest(s);
    if g == 0 {
      assert s[0..] == s;
      FirstGroup(s, j);
    } else {
      var rest := s[4..];
      DecodedByte(rest, g - 1, j);
      assert rest[4 * (g - 1)..] == s[4 * g..];
    }
  }

  lemma DecodedRest(s: string)
    requires Decode(s).Success? && s != ""
    ensures |s| >= 4 && Decode(s[4..]).Success?
    ensures |Decode(s).value| > 3 ==> |s| > 4
    ensures |s| > 4 ==> |Decode(s).value| >= 3 && Decode(s).value[3..] == Decode(s[4..]).value
    ensures |s| == 4 ==> |Decode(s).value| == 3 - Lacking(s)
  {
    hide SymbolValue;
    PadBits();
  }

  lemma {:induction false} DecodedLength(s: string)
    requires Decode(s).Success?
    ensures |Decode(s).value| == 3 * (|s| / 4) - Lacking(s)
    decreases |s|
  {
    hide Decode, WellFormed;
    if s == "" {
      EmptyRoundTrip();
    } else {
      DecodedRest(s);
      if |s| > 4 {
        DecodesIff(s);
        DecodedLength(s[4..]);
        FormedLong(s);
        assert |s[4..]| / 4 == |s| / 4 - 1;
      }
    }
  }

  lemma FormedLong(s: string)
    requires WellFormed(s) && |s| > 4
    ensures |s| >= 8 && Lacking(s[4..]) == Lacking(s)
  {
    hide ALPHABET, PadAt;
  }

  /** Line breaks do not matter, wherever they are. */
  lemma {:induction false} BreaksIgnored(a: string, b: string)
    ensures Unbroken(a + "\n" + b) == Unbroken(a + "\r" + b) == Unbroken(a + b)
    ensures NoBreaks(a) ==> Unbroken(a) == a
    decreases |a|
  {
    if a == "" {
      assert (a + "\n" + b)[1..] == b && (a + "\r" + b)[1..] == b && a + b == b;
    } else {
      var t := a[1..];
      assert (a + "\n" + b)[1..] == t + "\n" + b && (a + "\r" + b)[1..] == t + "\r" + b && (a + b)[1..] == t + b;
      BreaksIgnored(t, b);
    }
  }

  // ---------- blocks ----------

  /** Each block is the cipher's inverse of the data block, mixed with the data block before it,
      the first one with the vector. */
  lemma {:induction false} CbcPlainBlock(c: Cipher, iv: Block, data: seq<byte>, i: nat)
    requires |data| % BLOCK_SIZE == 0 && BLOCK_SIZE * i + BLOCK_SIZE <= |data|
    ensures BlockAt(CbcDecrypt(c, iv, data), i)
         == XorBlock(c.decrypt(BlockAt(data, i)), if i == 0 then iv else BlockAt(data, i - 1))
    decreases i
  {
    hide XorBlock;
    var y: Block := data[..BLOCK_SIZE];
    var x: Block := XorBlock(c.decrypt(y), iv);
    var more := data[BLOCK_SIZE..];
    var rest := CbcDecrypt(c, y, more);
    assert CbcDecrypt(c, iv, data) == x + rest && data == y + more;
    BlocksBehind(x, rest, i);
    BlocksBehind(y, more, i);
    if i > 0 {
      CbcPlainBlock(c, y, more, i - 1);
      BlocksBehind(y, more, i - 1);
    }
  }

  // ---------- varints ----------

  /** Every number is the code of one id. */
  lemma ZigZagBoth(x: int, u: nat)
    ensures UnZigZag(ZigZag(x)) == x && ZigZag(UnZigZag(u)) == u
  {
  }

  /** The bits of each byte are where they were put. */
  lemma {:induction false} ValueGroup(g: seq<byte>, i: nat)
    requires i < |g|
    ensures Power(128, i) > 0 && Value(g) / Power(128, i) % 128 == g[i] as nat % 128
    decreases i
  {
    PowerPositive(128, i);
    var v := Value(g[1..]);
    Quotient(Value(g), 128, v, g[0] as nat % 128);
    if i > 0 {
      ValueGroup(g[1..], i - 1);
      PowerPositive(128, i - 1);
      DivTwice(Value(g), 128, Power(128, i - 1));
    }
  }

  lemma {:induction false} ValueBound(g: seq<byte>)
    ensures Value(g) < Power(128, |g|)
    decreases |g|
  {
    if g != [] {
      ValueBound(g[1..]);
    }
  }

  const WORD: nat := 0x1_0000_0000_0000_0000

  lemma NineGroups()
    ensures Power(128, 9) == 0x8000_0000_0000_0000 && 2 * Power(128, 9) == WORD
  {
    EightGroups();
    assert Power(128, 9) == 128 * Power(128, 8);
  }

  lemma {:induction false} PowerMore(n: nat, m: nat)
    requires n <= m
    ensures Power(128, n) <= Power(128, m)
    decreases m
  {
    if n < m {
      PowerMore(n, m - 1);
    }
  }

  /** A number of ten bytes fits a word exactly when the last one is at most one. */
  lemma TenGroups(g: seq<byte>)
    requires |g| == 10 && g[9] < 128
    ensures Value(g) < WORD <==> g[9] <= 1
  {
    hide Power, Value;
    NineGroups();
    assert g == g[..9] + [g[9]];
    ValueSnoc(g[..9], g[9]);
    ValueBound(g[..9]);
    if g[9] > 1 {
      Larger(Power(128, 9), 1, g[9] as nat);
    }
  }

  /** When a number is read: its last byte is there, there are at most ten, and it fits 64
      bits. */
  lemma UvarintIff(buf: seq<byte>)
    ensures var n: int := End(buf);
            if 0 < n <= 10 && Value(buf[..n]) < WORD then Uvarint(buf) == (Value(buf[..n]), n)
            else Uvarint(buf) == (0, -n)
  {
    hide Value, End, Power;
    var n := End(buf);
    if n == 10 {
      TenGroups(buf[..10]);
    } else if 0 < n < 10 {
      ValueBound(buf[..n]);
      PowerMore(n, 9);
      NineGroups();
    }
  }

  // ---------- tokens ----------

  /** The bytes of a token before padding and contents are looked at. */
  function PlainText(c: Cipher, key: seq<byte>, token: string): seq<byte>
    requires Decode(Unbroken(token)).Success? && KeyOk(key) && |Decode(Unbroken(token)).value| % BLOCK_SIZE == 0
  {
    CbcDecrypt(c, key[..BLOCK_SIZE], Decode(Unbroken(token)).value)
  }

  /** A token is accepted as an id. */
  ghost predicate Accepts(p: seq<byte>, id: int) {
    p != [] && var k := p[|p| - 1] as nat;
    k <= |p| && var n := End(p[..|p| - k]);
    0 < n <= 10 && Value(p[..n]) < WORD && ZigZag(id) == Value(p[..n])
  }

  /** Every token: without its line breaks it must be base64 of whole blocks, at least one; the
      last byte says how many to drop, which must be there; and what is left must begin with a
      number of at most 64 bits, which is the code of the id. */
  lemma TokenAccepted(c: Cipher, key: seq<byte>, token: string, id: int)
    requires KeyOk(key)
    ensures ParseToken(c, key, token) == Success(id) <==>
            && WellFormed(Unbroken(token))
            && Decode(Unbroken(token)).Success?
            && |Decode(Unbroken(token)).value| % BLOCK_SIZE == 0
            && Accepts(PlainText(c, key, token), id)
  {
    hide Decode, CbcDecrypt, Unbroken, WellFormed, End, Value, Uvarint;
    var t := Unbroken(token);
    DecodesIff(t);
    if Decode(t).Success? && |Decode(t).value| % BLOCK_SIZE == 0 {
      var p := PlainText(c, key, token);
      if p != [] && p[|p| - 1] as nat <= |p| {
        Unpadded(p, id);
      }
    }
  }

  lemma Unpadded(p: seq<byte>, id: int)
    requires p != [] && p[|p| - 1] as nat <= |p|
    ensures var (u, n) := Uvarint(p[..|p| - p[|p| - 1] as nat]);
            n >= 1 && UnZigZag(u) == id <==> Accepts(p, id)
  {
    hide End, Value, Uvarint;
    var q := p[..|p| - p[|p| - 1] as nat];
    UvarintIff(q);
    assert q[..End(q)] == p[..End(q)];
    ZigZagBoth(id, Value(p[..End(q)]));
  }

  /** Keys have 128, 192 or 256 bits: with any other, no token is made or accepted. */
  lemma KeyRefused(c: Cipher, key: seq<byte>, id: int, token: string)
    requires -0x80_0000_0000_0000 <= id < 0x80_0000_0000_0000
    ensures Issued(c, key, id) == Failure(KeySize) <==> 8 * |key| !in {128, 192, 256}
    ensures 8 * |key| !in {128, 192, 256} ==> ParseToken(c, key, token) == Failure(InvalidToken)
  {
    hide Groups, Decode, Unbroken, CbcEncrypt, Encode;
    GroupsFit(ZigZag(id), 8);
    EightGroups();
    DecodesIff(Unbroken(token));
  }

  /** The tokens that make the program panic: base64 of a broken block, or a last byte that asks
      for more to be dropped than there is. */
  lemma TokenPanics(c: Cipher, key: seq<byte>, token: string)
    requires KeyOk(key)
    ensures ParseToken(c, key, token) == Failure(Panic) <==>
            && Decode(Unbroken(token)).Success?
            && (|Decode(Unbroken(token)).value| % BLOCK_SIZE != 0
                || var p := PlainText(c, key, token); p != [] && p[|p| - 1] as nat > |p|)
  {
    hide Decode, CbcDecrypt, Unbroken, Uvarint;
    DecodesIff(Unbroken(token));
  }
}
