/**
 Application tokens: an id is written as a zig-zag varint into an 8-byte buffer, padded,
 encrypted in CBC mode and printed in base64; `parseToken` undoes all of it.  Nothing is
 assumed of the block cipher but that decryption inverts encryption.
 */
module AppToken {
  import opened Wrappers

  const BLOCK_SIZE: nat := 16

  type Block = b: seq<byte> | |b| == BLOCK_SIZE witness seq(BLOCK_SIZE, _ => 0)

  datatype Cipher = Cipher(encrypt: Block -> Block, decrypt: Block -> Block)

  ghost predicate Invertible(c: Cipher) {
    forall b: Block :: c.decrypt(c.encrypt(b)) == b
  }

  datatype Error = KeySize | CorruptBase64 | EmptyData | Panic | InvalidToken

  // ---------- exclusive or ----------

  function XorBits(a: nat, b: nat, bits: nat): nat {
    if bits == 0 then 0 else (a % 2 + b % 2) % 2 + 2 * XorBits(a / 2, b / 2, bits - 1)
  }

  lemma LowBit(low: nat, high: nat)
    requires low < 2
    ensures (low + 2 * high) / 2 == high && (low + 2 * high) % 2 == low
  {
  }

  lemma BitTwice(a: nat, b: nat)
    requires a < 2 && b < 2
    ensures ((a + b) % 2 + b) % 2 == a
  {
  }

  lemma {:induction false} XorBitsTwice(a: nat, b: nat, bits: nat)
    requires a < Power(2, bits)
    ensures XorBits(XorBits(a, b, bits), b, bits) == a
  {
    if bits > 0 {
      var low, high := (a % 2 + b % 2) % 2, XorBits(a / 2, b / 2, bits - 1);
      assert XorBits(low + 2 * high, b, bits) == a by {
        LowBit(low, high);
        BitTwice(a % 2, b % 2);
        assert a / 2 < Power(2, bits - 1);
        XorBitsTwice(a / 2, b / 2, bits - 1);
      }
    }
  }

  lemma {:induction false} XorBitsBound(a: nat, b: nat, bits: nat)
    ensures XorBits(a, b, bits) < Power(2, bits)
  {
    if bits > 0 {
      XorBitsBound(a / 2, b / 2, bits - 1);
    }
  }

  function Power(base: nat, n: nat): nat { if n == 0 then 1 else base * Power(base, n - 1) }

  lemma EightBits()
    ensures Power(2, 8) == 256
  {
    assert Power(2, 4) == 16;
    assert Power(2, 6) == 64;
  }

  function Xor(a: byte, b: byte): byte {
    XorBitsBound(a as nat, b as nat, 8);
    EightBits();
    XorBits(a as nat, b as nat, 8) as byte
  }

  lemma XorTwice(a: byte, b: byte)
    ensures Xor(Xor(a, b), b) == a
  {
    EightBits();
    XorBitsTwice(a as nat, b as nat, 8);
  }

  function XorBlock(a: Block, b: Block): Block {
    seq(BLOCK_SIZE, i requires 0 <= i < BLOCK_SIZE => Xor(a[i], b[i]))
  }

  lemma XorBlockTwice(a: Block, b: Block)
    ensures XorBlock(XorBlock(a, b), b) == a
  {
    forall i | 0 <= i < BLOCK_SIZE ensures XorBlock(XorBlock(a, b), b)[i] == a[i] {
      XorTwice(a[i], b[i]);
    }
  }

  // ---------- cipher block chaining ----------

  function CbcEncrypt(c: Cipher, iv: Block, data: seq<byte>): (r: seq<byte>)
    requires |data| % BLOCK_SIZE == 0
    ensures |r| == |data|
    decreases |data|
  {
    if data == [] then []
    else
      var x: Block := data[..BLOCK_SIZE];
      var y := c.encrypt(XorBlock(x, iv));
      y + CbcEncrypt(c, y, data[BLOCK_SIZE..])
  }

  function CbcDecrypt(c: Cipher, iv: Block, data: seq<byte>): (r: seq<byte>)
    requires |data| % BLOCK_SIZE == 0
    ensures |r| == |data|
    decreases |data|
  {
    if data == [] then []
    else
      var y: Block := data[..BLOCK_SIZE];
      XorBlock(c.decrypt(y), iv) + CbcDecrypt(c, y, data[BLOCK_SIZE..])
  }

  lemma {:induction false} CbcRoundTrip(c: Cipher, iv: Block, data: seq<byte>)
    requires Invertible(c) && |data| % BLOCK_SIZE == 0
    ensures CbcDecrypt(c, iv, CbcEncrypt(c, iv, data)) == data
    decreases |data|
  {
    if data != [] {
      assert |data| >= BLOCK_SIZE;
      var x: Block := data[..BLOCK_SIZE];
      var y: Block := c.encrypt(XorBlock(x, iv));
      var rest := CbcEncrypt(c, y, data[BLOCK_SIZE..]);
      assert (y + rest)[..BLOCK_SIZE] == y && (y + rest)[BLOCK_SIZE..] == rest;
      XorBlockTwice(x, iv);
      CbcRoundTrip(c, y, data[BLOCK_SIZE..]);
      assert data == x + data[BLOCK_SIZE..];
    }
  }

  // ---------- padding ----------

  /** `PKCS5Padding`: always at least one byte, each holding the number of them. */
  function Pad(data: seq<byte>): (r: seq<byte>)
    ensures |r| % BLOCK_SIZE == 0 && |r| > |data| && data <= r
  {
    var n := BLOCK_SIZE - |data| % BLOCK_SIZE;
    data + seq(n, _ => n as byte)
  }

  /** `PKCS5UnPadding`: a count beyond the data is an index out of range. */
  function Unpad(data: seq<byte>): Result<seq<byte>, Error> {
    if |data| == 0 then Failure(EmptyData)
    else
      var n := data[|data| - 1] as nat;
      if n > |data| then Failure(Panic) else Success(data[..|data| - n])
  }

  lemma PadRoundTrip(data: seq<byte>)
    ensures Unpad(Pad(data)) == Success(data)
  {
    var n := BLOCK_SIZE - |data| % BLOCK_SIZE;
    assert Pad(data)[|data| + n - 1] == n as byte;
  }

  // ---------- base64 ----------

  function Symbol(v: nat): char
    requires v < 64
  {
    if v < 26 then 'A' + v as char
    else if v < 52 then 'a' + (v - 26) as char
    else if v < 62 then '0' + (v - 52) as char
    else if v == 62 then '+'
    else '/'
  }

  function SymbolValue(c: char): (v: Option<nat>)
    ensures v.Some? ==> v.value < 64
  {
    if 'A' <= c <= 'Z' then Some((c - 'A') as nat)
    else if 'a' <= c <= 'z' then Some((c - 'a') as nat + 26)
    else if '0' <= c <= '9' then Some((c - '0') as nat + 52)
    else if c == '+' then Some(62)
    else if c == '/' then Some(63)
    else None
  }

  lemma SymbolRoundTrip(v: nat)
    requires v < 64
    ensures SymbolValue(Symbol(v)) == Some(v) && Symbol(v) != '=' && Symbol(v) != '\n' && Symbol(v) != '\r'
  {
  }

  /** `base64.StdEncoding.EncodeToString`: three bytes become four symbols. */
  function Encode(data: seq<byte>): string
    decreases |data|
  {
    if |data| == 0 then ""
    else
      var a := data[0] as nat;
      if |data| == 1 then [Symbol(a / 4), Symbol(a % 4 * 16), '=', '=']
      else
        var b := data[1] as nat;
        if |data| == 2 then [Symbol(a / 4), Symbol(a % 4 * 16 + b / 16), Symbol(b % 16 * 4), '=']
        else
          var c := data[2] as nat;
          [Symbol(a / 4), Symbol(a % 4 * 16 + b / 16), Symbol(b % 16 * 4 + c / 64), Symbol(c % 64)] + Encode(data[3..])
  }

  /** `base64.StdEncoding.DecodeString` ignores line breaks. */
  function Unbroken(s: string): string {
    if s == "" then "" else (if s[0] == '\n' || s[0] == '\r' then "" else [s[0]]) + Unbroken(s[1..])
  }

  /** Padding may only end the last group of four. */
  function Decode(s: string): Result<seq<byte>, Error>
    decreases |s|
  {
    if s == "" then Success([])
    else if |s| < 4 then Failure(CorruptBase64)
    else
      var a, b, c, d := SymbolValue(s[0]), SymbolValue(s[1]), SymbolValue(s[2]), SymbolValue(s[3]);
      if a.None? || b.None? then Failure(CorruptBase64)
      else
        var first := (a.value * 4 + b.value / 16) as byte;
        if s[2] == '=' then
          if s[3] == '=' && |s| == 4 then Success([first]) else Failure(CorruptBase64)
        else if c.None? then Failure(CorruptBase64)
        else
          var second := (b.value % 16 * 16 + c.value / 4) as byte;
          if s[3] == '=' then
            if |s| == 4 then Success([first, second]) else Failure(CorruptBase64)
          else if d.None? then Failure(CorruptBase64)
          else
            var more := Decode(s[4..]);
            if more.Failure? then more
            else Success([first, second, (c.value % 4 * 64 + d.value) as byte] + more.value)
  }

  function DecodeString(s: string): Result<seq<byte>, Error> { Decode(Unbroken(s)) }

  /** One full group. */
  lemma GroupRoundTrip(x: byte, y: byte, z: byte, more: string)
    ensures var a, b, c := x as nat, y as nat, z as nat;
            var g := [Symbol(a / 4), Symbol(a % 4 * 16 + b / 16), Symbol(b % 16 * 4 + c / 64), Symbol(c % 64)];
            Decode(g + more) == var r := Decode(more); if r.Failure? then r else Success([x, y, z] + r.value)
  {
    hide Symbol, SymbolValue;
    var a, b, c := x as nat, y as nat, z as nat;
    var p, q, r, t := a / 4, a % 4 * 16 + b / 16, b % 16 * 4 + c / 64, c % 64;
    SymbolRoundTrip(p);
    SymbolRoundTrip(q);
    SymbolRoundTrip(r);
    SymbolRoundTrip(t);
    var g := [Symbol(p), Symbol(q), Symbol(r), Symbol(t)];
    assert (g + more)[4..] == more;
    assert p * 4 + q / 16 == a;
    assert q % 16 * 16 + r / 4 == b;
    assert r % 4 * 64 + t == c;
  }

  lemma OneRoundTrip(x: byte)
    ensures Decode(Encode([x])) == Success([x])
  {
    hide Symbol, SymbolValue;
    var a := x as nat;
    var p, q := a / 4, a % 4 * 16;
    SymbolRoundTrip(p);
    SymbolRoundTrip(q);
    assert Encode([x]) == [Symbol(p), Symbol(q), '=', '='];
    assert p * 4 + q / 16 == a;
  }

  lemma TwoRoundTrip(x: byte, y: byte)
    ensures Decode(Encode([x, y])) == Success([x, y])
  {
    hide Symbol, SymbolValue;
    var a, b := x as nat, y as nat;
    var p, q, r := a / 4, a % 4 * 16 + b / 16, b % 16 * 4;
    SymbolRoundTrip(p);
    SymbolRoundTrip(q);
    SymbolRoundTrip(r);
    assert Encode([x, y]) == [Symbol(p), Symbol(q), Symbol(r), '='];
    assert p * 4 + q / 16 == a;
    assert q % 16 * 16 + r / 4 == b;
  }

  lemma {:induction false} Base64RoundTrip(data: seq<byte>)
    ensures Decode(Encode(data)) == Success(data)
    decreases |data|
  {
    hide Symbol, Decode;
    if |data| == 0 {
      EmptyRoundTrip();
    } else if |data| == 1 {
      OneRoundTrip(data[0]);
      assert data == [data[0]];
    } else if |data| == 2 {
      TwoRoundTrip(data[0], data[1]);
      assert data == [data[0], data[1]];
    } else {
      GroupRoundTrip(data[0], data[1], data[2], Encode(data[3..]));
      Base64RoundTrip(data[3..]);
      assert data == [data[0], data[1], data[2]] + data[3..];
    }
  }

  lemma EmptyRoundTrip()
    ensures Decode("") == Success([]) && Encode([]) == ""
  {
  }

  ghost predicate NoBreaks(s: string) { forall i :: 0 <= i < |s| ==> s[i] != '\n' && s[i] != '\r' }

  lemma {:induction false} UnbrokenSame(s: string)
    requires NoBreaks(s)
    ensures Unbroken(s) == s
    decreases |s|
  {
    if s != "" {
      UnbrokenSame(s[1..]);
    }
  }

  lemma {:induction false} EncodeUnbroken(data: seq<byte>)
    ensures NoBreaks(Encode(data))
    decreases |data|
  {
    hide SymbolValue;
    if |data| >= 3 {
      EncodeUnbroken(data[3..]);
    }
  }

  // ---------- encryption and decryption ----------

  predicate KeyOk(key: seq<byte>) { |key| in {16, 24, 32} }

  /** `AesEncrypt`. */
  function AesEncrypt(c: Cipher, key: seq<byte>, data: seq<byte>): Result<string, Error> {
    if !KeyOk(key) then Failure(KeySize)
    else Success(Encode(CbcEncrypt(c, key[..BLOCK_SIZE], Pad(data))))
  }

  /** `AesDecrypt`: data that is not whole blocks makes the block mode panic. */
  function AesDecrypt(c: Cipher, key: seq<byte>, text: string): Result<seq<byte>, Error> {
    var bytes := DecodeString(text);
    if bytes.Failure? then bytes
    else if !KeyOk(key) then Failure(KeySize)
    else if |bytes.value| % BLOCK_SIZE != 0 then Failure(Panic)
    else Unpad(CbcDecrypt(c, key[..BLOCK_SIZE], bytes.value))
  }

  /** Decrypting an encrypted byte string gives it back, for every length. */
  lemma AesRoundTrip(c: Cipher, key: seq<byte>, data: seq<byte>)
    requires Invertible(c) && KeyOk(key)
    ensures AesDecrypt(c, key, AesEncrypt(c, key, data).value) == Success(data)
  {
    hide Invertible, CbcEncrypt, CbcDecrypt, Encode, Decode, Unbroken, Pad, Unpad;
    var iv: Block := key[..BLOCK_SIZE];
    var crypted := CbcEncrypt(c, iv, Pad(data));
    EncodeUnbroken(crypted);
    UnbrokenSame(Encode(crypted));
    Base64RoundTrip(crypted);
    CbcRoundTrip(c, iv, Pad(data));
    PadRoundTrip(data);
  }

  // ---------- varints ----------

  function ZigZag(x: int): nat { if x < 0 then -2 * x - 1 else 2 * x }

  function UnZigZag(u: nat): int {
    var half: int := u / 2;
    if u % 2 == 0 then half else -half - 1
  }

  /** An unsigned number in groups of seven bits, the lowest first; the top bit of a byte
      says that more follow. */
  function Groups(u: nat): (g: seq<byte>)
    ensures |g| > 0
  {
    if u < 128 then [u as byte] else [(u % 128 + 128) as byte] + Groups(u / 128)
  }

  function Value(g: seq<byte>): nat {
    if g == [] then 0 else g[0] as nat % 128 + 128 * Value(g[1..])
  }

  /** The length of the first number in a buffer, or 0 if none ends there. */
  function End(buf: seq<byte>): (n: nat)
    ensures n <= |buf| && (n > 0 ==> buf[n - 1] < 128)
    ensures forall i :: 0 <= i < |buf| && (i < n - 1 || n == 0) ==> buf[i] >= 128
  {
    if buf == [] then 0
    else if buf[0] < 128 then 1
    else
      var n := End(buf[1..]);
      if n == 0 then 0 else n + 1
  }

  /** `binary.Uvarint`: the number and how many bytes it took, none if the buffer is too
      short, a negative count on overflow. */
  function Uvarint(buf: seq<byte>): (nat, int) {
    var n: int := End(buf);
    if n == 0 then (0, 0)
    else if n > 10 || (n == 10 && buf[9] > 1) then (0, -n)
    else (Value(buf[..n]), n)
  }

  lemma {:induction false} GroupsEnd(u: nat, rest: seq<byte>)
    ensures End(Groups(u) + rest) == |Groups(u)|
  {
    if u >= 128 {
      GroupsEnd(u / 128, rest);
      assert (Groups(u) + rest)[1..] == Groups(u / 128) + rest;
    }
  }

  lemma {:induction false} GroupsValue(u: nat)
    ensures Value(Groups(u)) == u
  {
    if u < 128 {
      assert Groups(u)[1..] == [];
    } else {
      GroupsValue(u / 128);
      assert Groups(u)[1..] == Groups(u / 128);
    }
  }

  lemma {:induction false} GroupsFit(u: nat, n: nat)
    requires n > 0
    ensures |Groups(u)| <= n <==> u < Power(128, n)
    decreases n
  {
    if n == 1 {
      assert Power(128, 1) == 128 * Power(128, 0);
      assert u >= 128 ==> |Groups(u)| >= 1 + |Groups(u / 128)|;
    } else if u >= 128 {
      GroupsFit(u / 128, n - 1);
      assert u < 128 * Power(128, n - 1) <==> u / 128 < Power(128, n - 1);
    } else {
      PowerGrows(n);
    }
  }

  lemma {:induction false} PowerGrows(n: nat)
    requires n > 0
    ensures Power(128, n) >= 128
  {
    if n > 1 {
      PowerGrows(n - 1);
    }
  }

  lemma EightGroups()
    ensures Power(128, 8) == 0x100_0000_0000_0000
  {
    assert Power(128, 2) == 16384;
    assert Power(128, 4) == 16384 * 16384;
    assert Power(128, 6) == 16384 * 16384 * 16384;
  }

  lemma GroupsFirst(u: nat)
    ensures Groups(u) == if u < 128 then [u as byte] else [(u % 128 + 128) as byte] + Groups(u / 128)
  {
  }

  /** Storing the next byte of a number whose first `i` bytes are in place. */
  lemma Stored(was: seq<byte>, now: seq<byte>, i: nat, b: byte, all: seq<byte>, rest: seq<byte>)
    requires i < |was| && now == was[i := b] && all == was[..i] + ([b] + rest)
    ensures now[..i + 1] == was[..i] + [b] && all == now[..i + 1] + rest && now[i + 1..] == was[i + 1..]
  {
  }

  /** `binary.PutVarint`; false where it would index past the buffer and panic. */
  method PutVarint(buf: array<byte>, x: int) returns (ok: bool)
    modifies buf
    ensures ok <==> |Groups(ZigZag(x))| <= buf.Length
    ensures ok ==> buf[..] == Groups(ZigZag(x)) + old(buf[..])[|Groups(ZigZag(x))|..]
  {
    hide Groups;
    var u, i := ZigZag(x), 0;
    ghost var all, was := Groups(u), buf[..];
    while u >= 128
      invariant i <= buf.Length && all == buf[..i] + Groups(u) && buf[i..] == was[i..]
    {
      if i == buf.Length {
        return false;
      }
      GroupsFirst(u);
      ghost var before := buf[..];
      buf[i] := (u % 128 + 128) as byte;
      Stored(before, buf[..], i, buf[i], all, Groups(u / 128));
      assert before[i..] == was[i..];
      u, i := u / 128, i + 1;
    }
    if i == buf.Length {
      return false;
    }
    GroupsFirst(u);
    ghost var before := buf[..];
    buf[i] := u as byte;
    Stored(before, buf[..], i, buf[i], all, []);
    return true;
  }

  /** The loop of `binary.Uvarint`. */
  method ReadUvarint(buf: seq<byte>) returns (x: nat, n: int)
    ensures (x, n) == Uvarint(buf)
  {
    hide Value, End;
    x := 0;
    EndFrom(buf, 0);
    for i := 0 to |buf|
      invariant x == Value(buf[..i])
      invariant forall j :: 0 <= j < i ==> buf[j] >= 128
    {
      var b := buf[i];
      ValueSnoc(buf[..i], b);
      assert buf[..i + 1] == buf[..i] + [b];
      if b < 128 {
        EndFrom(buf, i + 1);
        if i > 9 || (i == 9 && b > 1) {
          return 0, -(i + 1);
        }
        return x + b as nat * Power(128, i), i + 1;
      }
      x := x + (b as nat % 128) * Power(128, i);
    }
    EndFrom(buf, 0);
    return 0, 0;
  }

  lemma EndFrom(buf: seq<byte>, n: nat)
    requires n <= |buf|
    ensures n > 0 && buf[n - 1] < 128 && (forall j :: 0 <= j < n - 1 ==> buf[j] >= 128) ==> End(buf) == n
    ensures (forall j :: 0 <= j < |buf| ==> buf[j] >= 128) ==> End(buf) == 0
    ensures Value(buf[..0]) == 0
  {
    hide End;
  }

  lemma {:induction false} ValueSnoc(g: seq<byte>, b: byte)
    ensures Value(g + [b]) == Value(g) + (b as nat % 128) * Power(128, |g|)
    decreases |g|
  {
    if g == [] {
      assert (g + [b])[1..] == [];
    } else {
      assert (g + [b])[1..] == g[1..] + [b];
      ValueSnoc(g[1..], b);
      var p := Power(128, |g| - 1);
      assert 128 * ((b as nat % 128) * p) == (b as nat % 128) * (128 * p);
    }
  }

  // ---------- tokens ----------

  /** The token of an id: `AppAdd` writes the varint into eight zero bytes. */
  function Zeros(n: nat): (z: seq<byte>)
    ensures |z| == n && forall i :: 0 <= i < n ==> z[i] == 0
  {
    seq(n, _ => 0)
  }

  ghost function Issued(c: Cipher, key: seq<byte>, id: int): Result<string, Error> {
    var g := Groups(ZigZag(id));
    if |g| > 8 then Failure(Panic) else AesEncrypt(c, key, g + Zeros(8 - |g|))
  }

  method IssueToken(c: Cipher, key: seq<byte>, id: int) returns (r: Result<string, Error>)
    ensures r == Issued(c, key, id)
  {
    hide Groups;
    var buf := new byte[8](_ => 0);
    ghost var zeros := buf[..];
    var ok := PutVarint(buf, id);
    if !ok {
      return Failure(Panic);
    }
    ghost var n := |Groups(ZigZag(id))|;
    assert zeros[n..] == Zeros(8 - n);
    r := AesEncrypt(c, key, buf[..]);
  }

  /** `parseToken`. */
  function ParseToken(c: Cipher, key: seq<byte>, token: string): Result<int, Error> {
    var buf := AesDecrypt(c, key, token);
    if buf.Failure? then Failure(if buf.error == Panic then Panic else InvalidToken)
    else
      var (u, n) := Uvarint(buf.value);
      if n < 1 then Failure(InvalidToken) else Success(UnZigZag(u))
  }

  /** A token parses back to its id, and tokens are issued for exactly the ids whose
      varint fits eight bytes. */
  lemma TokenRoundTrip(c: Cipher, key: seq<byte>, id: int)
    requires Invertible(c) && KeyOk(key)
    ensures var t := Issued(c, key, id);
            if -0x80_0000_0000_0000 <= id < 0x80_0000_0000_0000
            then t.Success? && ParseToken(c, key, t.value) == Success(id)
            else t == Failure(Panic)
  {
    hide AesEncrypt, AesDecrypt, Groups, End, Value, KeyOk, Invertible;
    var u := ZigZag(id);
    var g := Groups(u);
    GroupsFit(u, 8);
    EightGroups();
    if |g| <= 8 {
      var zeros := Zeros(8 - |g|);
      KeyAccepted(c, key, g + zeros);
      AesRoundTrip(c, key, g + zeros);
      GroupsEnd(u, zeros);
      GroupsValue(u);
      assert (g + zeros)[..|g|] == g;
    }
  }

  lemma KeyAccepted(c: Cipher, key: seq<byte>, data: seq<byte>)
    requires KeyOk(key)
    ensures AesEncrypt(c, key, data).Success?
  {
  }
}
