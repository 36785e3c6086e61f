/**
 Client-side interpolation of query parameters: literals are escaped in place into
 space reserved in the connection's buffer, in one of two modes, and replace the `?`
 placeholders of the query one by one.
 */
module MysqlInterpolate {
  import opened Numerals
  import opened Wrappers
  import opened MysqlConn

  const QUOTE: byte := 39
  const BACKSLASH: byte := 92
  const PLACEHOLDER: byte := 63

  function Ascii(s: string): seq<byte>
    requires forall i :: 0 <= i < |s| ==> s[i] < 128 as char
  {
    seq(|s|, i requires 0 <= i < |s| => s[i] as int as byte)
  }

  function Chars(text: seq<byte>): string { seq(|text|, i requires 0 <= i < |text| => text[i] as char) }

  // ---------- escaping ----------

  /** With backslashes, unless the server has NO_BACKSLASH_ESCAPES in effect. */
  datatype Mode = Backslashes | Quotes

  /** The letter that stands for a byte after a backslash, when it needs one. */
  function Letter(c: byte): Option<byte> {
    if c == 0 then Some(48)
    else if c == 10 then Some(110)
    else if c == 13 then Some(114)
    else if c == 26 then Some(90)
    else if c == QUOTE || c == 34 || c == BACKSLASH then Some(c)
    else None
  }

  function EscapeByte(c: byte, mode: Mode): (e: seq<byte>)
    ensures 1 <= |e| <= 2
  {
    match mode
    case Backslashes => if Letter(c).Some? then [BACKSLASH, Letter(c).value] else [c]
    case Quotes => if c == QUOTE then [QUOTE, QUOTE] else [c]
  }

  function Escaped(v: seq<byte>, mode: Mode): (e: seq<byte>)
    ensures |v| <= |e| <= 2 * |v|
  {
    if v == [] then [] else Escaped(v[..|v| - 1], mode) + EscapeByte(v[|v| - 1], mode)
  }

  // ---------- the server's side: scanning a literal ----------

  /** What a byte after a backslash denotes. */
  function Denoted(letter: byte): seq<byte> {
    if letter == 48 then [0]
    else if letter == 110 then [10]
    else if letter == 114 then [13]
    else if letter == 90 then [26]
    else if letter == 116 then [9]
    else if letter == 98 then [8]
    else if letter == 37 || letter == 95 then [BACKSLASH, letter]
    else [letter]
  }

  /** A scanned literal and the text after its closing quote. */
  type Scanned = Option<(seq<byte>, seq<byte>)>

  function Prepend(v: seq<byte>, s: Scanned): Scanned {
    if s.None? then None else Some((v + s.value.0, s.value.1))
  }

  /** Scanning from just after the opening quote. */
  function Scan(text: seq<byte>, mode: Mode): Scanned
    decreases |text|
  {
    if text == [] then None
    else if text[0] == QUOTE then
      if |text| > 1 && text[1] == QUOTE then Prepend([QUOTE], Scan(text[2..], mode))
      else Some(([], text[1..]))
    else if text[0] == BACKSLASH && mode == Backslashes then
      if |text| == 1 then None else Prepend(Denoted(text[1]), Scan(text[2..], mode))
    else Prepend([text[0]], Scan(text[1..], mode))
  }

  lemma PrependTwice(a: seq<byte>, b: seq<byte>, s: Scanned)
    ensures Prepend(a, Prepend(b, s)) == Prepend(a + b, s) && Prepend([], s) == s
  {
    if s.Some? {
      assert a + (b + s.value.0) == a + b + s.value.0 && [] + s.value.0 == s.value.0;
    }
  }

  lemma ScanByte(c: byte, mode: Mode, t: seq<byte>)
    ensures Scan(EscapeByte(c, mode) + t, mode) == Prepend([c], Scan(t, mode))
  {
    var e := EscapeByte(c, mode);
    assert (e + t)[0] == e[0] && (e + t)[|e|..] == t;
    assert |e| == 2 ==> (e + t)[1] == e[1];
  }

  /** The scanner reads an escaped value back, and goes on after it. */
  lemma {:induction false} ScanEscaped(v: seq<byte>, mode: Mode, t: seq<byte>)
    ensures Scan(Escaped(v, mode) + t, mode) == Prepend(v, Scan(t, mode))
    decreases |v|
  {
    hide EscapeByte, Scan, Prepend;
    if v == [] {
      assert [] + t == t;
      PrependTwice([], [], Scan(t, mode));
    } else {
      var most, c := v[..|v| - 1], v[|v| - 1];
      PrependTwice(most, [c], Scan(t, mode));
      assert Escaped(v, mode) + t == Escaped(most, mode) + (EscapeByte(c, mode) + t);
      ScanEscaped(most, mode, EscapeByte(c, mode) + t);
      ScanByte(c, mode, t);
      assert most + [c] == v;
    }
  }

  const SPECIAL: seq<byte> := [0, 10, 13, 26, 34, 39, 92]

  predicate Special(c: byte, mode: Mode) { if mode == Backslashes then c in SPECIAL else c == QUOTE }

  /** The bytes that get a second one. */
  function Doubled(v: seq<byte>, mode: Mode): nat {
    if v == [] then 0 else Doubled(v[..|v| - 1], mode) + if Special(v[|v| - 1], mode) then 1 else 0
  }

  /** No zero byte, line break, control-Z or bare double quote. */
  predicate Plain(e: seq<byte>) {
    && (forall i :: 0 <= i < |e| ==> e[i] !in [0, 10, 13, 26])
    && (forall i :: 0 <= i < |e| && e[i] == 34 ==> i > 0 && e[i - 1] == BACKSLASH)
  }

  lemma PlainByte(c: byte, mode: Mode)
    ensures |EscapeByte(c, mode)| == 1 + if Special(c, mode) then 1 else 0
    ensures mode == Backslashes ==> Plain(EscapeByte(c, mode))
  {
  }

  lemma PlainBoth(a: seq<byte>, b: seq<byte>)
    requires Plain(a) && Plain(b)
    ensures Plain(a + b)
  {
  }

  /** With backslashes nothing raw is left, and in both modes nothing but what has to be is
      written with two bytes. */
  lemma {:induction false} NothingRaw(v: seq<byte>, mode: Mode)
    ensures |Escaped(v, mode)| == |v| + Doubled(v, mode)
    ensures mode == Backslashes ==> Plain(Escaped(v, mode))
    decreases |v|
  {
    hide Plain, Special, EscapeByte;
    if v == [] {
      PlainNil();
    } else {
      var most, c := v[..|v| - 1], v[|v| - 1];
      NothingRaw(most, mode);
      PlainByte(c, mode);
      if mode == Backslashes {
        PlainBoth(Escaped(most, mode), EscapeByte(c, mode));
      }
    }
  }

  lemma PlainNil()
    ensures Plain([])
  {
  }

  /** The scanner stops exactly at the closing quote and has read the original value,
      unless the text goes on with another quote: then it never stops there. */
  lemma LiteralScans(v: seq<byte>, mode: Mode, rest: seq<byte>)
    ensures Scan(Escaped(v, mode) + [QUOTE] + rest, mode) == Some((v, rest)) <==> (rest == [] || rest[0] != QUOTE)
  {
    hide Escaped, Scan;
    var t := [QUOTE] + rest;
    assert Escaped(v, mode) + [QUOTE] + rest == Escaped(v, mode) + t;
    ScanEscaped(v, mode, t);
    ScanClosing(rest, mode);
    assert v + [] == v;
  }

  lemma ScanClosing(rest: seq<byte>, mode: Mode)
    ensures var s := Scan([QUOTE] + rest, mode);
            if rest == [] || rest[0] != QUOTE then s == Some(([], rest)) else s.None? || s.value.0 != []
  {
    var t := [QUOTE] + rest;
    assert t[1..] == rest;
  }

  // ---------- escaping into a buffer ----------

  /** `reserveBuffer`: room for `more` bytes after the first `len`. */
  method Reserve(buf: array<byte>, len: nat, more: nat) returns (out: array<byte>)
    requires len <= buf.Length
    ensures out == buf || fresh(out)
    ensures out.Length >= len + more && out[..len] == buf[..len]
  {
    if buf.Length >= len + more {
      return buf;
    }
    out := new byte[len * 2 + more];
    forall k | 0 <= k < len {
      out[k] := buf[k];
    }
  }

  method Put(out: array<byte>, pos: nat, e: seq<byte>) returns (after: nat)
    requires 1 <= |e| <= 2 && pos + 2 <= out.Length
    modifies out
    ensures after == pos + |e| && out[..after] == old(out[..pos]) + e
  {
    out[pos] := e[0];
    if |e| == 2 {
      out[pos + 1] := e[1];
    }
    after := pos + |e|;
  }

  /** `escapeBytesBackslash`, `escapeStringBackslash`, `escapeBytesQuotes` and
      `escapeStringQuotes`: at most twice the value's length is written, after what the
      buffer holds. */
  method Escape(buf: array<byte>, len: nat, v: seq<byte>, mode: Mode) returns (out: array<byte>, pos: nat)
    requires len <= buf.Length
    modifies buf
    ensures out == buf || fresh(out)
    ensures pos <= out.Length && out[..pos] == old(buf[..len]) + Escaped(v, mode)
  {
    hide Escaped, EscapeByte;
    out := Reserve(buf, len, |v| * 2);
    pos := len;
    ghost var before := old(buf[..len]);
    EscapedEnds(v, mode);
    for i := 0 to |v|
      invariant out == buf || fresh(out)
      invariant pos <= len + 2 * i && len + 2 * |v| <= out.Length
      invariant out[..pos] == before + Escaped(v[..i], mode)
    {
      EscapedSnoc(v, i, mode);
      pos := Put(out, pos, EscapeByte(v[i], mode));
    }
  }

  lemma EscapedEnds(v: seq<byte>, mode: Mode)
    ensures Escaped(v[..0], mode) == [] && v[..|v|] == v
  {
  }

  lemma EscapedSnoc(v: seq<byte>, i: nat, mode: Mode)
    requires i < |v|
    ensures Escaped(v[..i + 1], mode) == Escaped(v[..i], mode) + EscapeByte(v[i], mode)
  {
    assert v[..i + 1][..i] == v[..i];
  }

  // ---------- parameters ----------

  /** A driver value.  The texts of floats and times are taken as given. */
  datatype Value =
    | Null
    | Int(i: int)
    | Float(text: seq<byte>)
    | Bool(b: bool)
    | Time(text: seq<byte>)
    | Bytes(bytes: Option<seq<byte>>)
    | Text(v: seq<byte>)
    | Other

  function Decimal(i: int): seq<byte> { Ascii(Itoa(i)) }

  lemma DecimalRead(i: int)
    ensures Number(Chars(Decimal(i))) == i
  {
    hide Digits, Number;
    ItoaRead(i);
    assert Chars(Decimal(i)) == Itoa(i);
  }

  /** The text a value is replaced by. */
  function Literal(arg: Value, mode: Mode): seq<byte> {
    match arg
    case Null => Ascii("NULL")
    case Int(i) => Decimal(i)
    case Float(text) => text
    case Bool(b) => if b then Ascii("1") else Ascii("0")
    case Time(text) => text
    case Bytes(None) => Ascii("NULL")
    case Bytes(Some(v)) => Ascii("_binary'") + Escaped(v, mode) + [QUOTE]
    case Text(v) => [QUOTE] + Escaped(v, mode) + [QUOTE]
    case Other => []
  }

  function Count(query: seq<byte>): nat {
    if query == [] then 0 else Count(query[..|query| - 1]) + if query[|query| - 1] == PLACEHOLDER then 1 else 0
  }

  /** The query with its k-th placeholder replaced by the literal of the k-th argument. */
  function Substitute(query: seq<byte>, args: seq<Value>, mode: Mode): seq<byte>
    requires Count(query) == |args|
  {
    if query == [] then []
    else
      var most, c := query[..|query| - 1], query[|query| - 1];
      if c == PLACEHOLDER then Substitute(most, args[..|args| - 1], mode) + Literal(args[|args| - 1], mode)
      else Substitute(most, args, mode) + [c]
  }

  lemma SubstituteSnoc(t: seq<byte>, c: byte, args: seq<Value>, mode: Mode)
    requires Count(t + [c]) == |args|
    ensures c != PLACEHOLDER ==>
              Count(t) == |args| && Substitute(t + [c], args, mode) == Substitute(t, args, mode) + [c]
    ensures c == PLACEHOLDER ==>
              |args| > 0 && Count(t) == |args| - 1
              && Substitute(t + [c], args, mode)
                  == Substitute(t, args[..|args| - 1], mode) + Literal(args[|args| - 1], mode)
  {
    hide Literal;
    assert (t + [c])[..|t + [c]| - 1] == t;
  }

  lemma {:induction false} CountAppend(a: seq<byte>, b: seq<byte>)
    ensures Count(a + b) == Count(a) + Count(b)
    decreases |b|
  {
    if b == [] {
      assert a + b == a;
    } else {
      assert (a + b)[..|a + b| - 1] == a + b[..|b| - 1];
      CountAppend(a, b[..|b| - 1]);
    }
  }

  lemma {:induction false} SubstituteAppend(a: seq<byte>, b: seq<byte>, xs: seq<Value>, ys: seq<Value>, mode: Mode)
    requires Count(a) == |xs| && Count(b) == |ys|
    ensures Count(a + b) == |xs + ys|
    ensures Substitute(a + b, xs + ys, mode) == Substitute(a, xs, mode) + Substitute(b, ys, mode)
    decreases |b|
  {
    hide Literal, Substitute, Count;
    CountAppend(a, b);
    SubstituteNil(mode);
    if b == [] {
      assert a + b == a && xs + ys == xs;
    } else {
      var most, c := b[..|b| - 1], b[|b| - 1];
      assert b == most + [c] && a + b == (a + most) + [c];
      SubstituteSnoc(most, c, ys, mode);
      SubstituteSnoc(a + most, c, xs + ys, mode);
      if c == PLACEHOLDER {
        SubstituteAppend(a, most, xs, ys[..|ys| - 1], mode);
        assert (xs + ys)[..|xs + ys| - 1] == xs + ys[..|ys| - 1];
      } else {
        SubstituteAppend(a, most, xs, ys, mode);
      }
    }
  }

  lemma SubstituteNil(mode: Mode)
    ensures Count([]) == 0 && Substitute([], [], mode) == []
  {
  }

  /** The text around any one placeholder: what was there before it, the literal of its
      argument, and the rest. */
  lemma PlaceholderReplaced(query: seq<byte>, j: nat, args: seq<Value>, mode: Mode)
    requires Count(query) == |args| && j < |query| && query[j] == PLACEHOLDER
    ensures var k := Count(query[..j]);
            k < |args| && Count(query[j + 1..]) == |args| - k - 1
            && Substitute(query, args, mode)
            == Substitute(query[..j], args[..k], mode) + Literal(args[k], mode)
                + Substitute(query[j + 1..], args[k + 1..], mode)
  {
    hide Literal, Substitute, Count;
    var k, tail := Count(query[..j]), query[j + 1..];
    assert query == query[..j] + ([PLACEHOLDER] + tail);
    CountAppend(query[..j], [PLACEHOLDER] + tail);
    CountAppend([PLACEHOLDER], tail);
    SubstituteOne(Null, mode);
    SubstituteOne(args[k], mode);
    assert args == args[..k] + ([args[k]] + args[k + 1..]);
    SubstituteAppend(query[..j], [PLACEHOLDER] + tail, args[..k], [args[k]] + args[k + 1..], mode);
    SubstituteAppend([PLACEHOLDER], tail, [args[k]], args[k + 1..], mode);
  }

  lemma SubstituteOne(arg: Value, mode: Mode)
    ensures Count([PLACEHOLDER]) == 1 && Substitute([PLACEHOLDER], [arg], mode) == Literal(arg, mode)
  {
    hide Literal;
    assert [PLACEHOLDER][..0] == [] && [arg][..0] == [];
    assert Substitute([], [], mode) == [];
  }

  lemma {:induction false} SubstitutePlain(t: seq<byte>, mode: Mode)
    requires PLACEHOLDER !in t
    ensures Count(t) == 0 && Substitute(t, [], mode) == t
    decreases |t|
  {
    if t != [] {
      SubstitutePlain(t[..|t| - 1], mode);
    }
  }

  // ---------- reading literals back out of a query ----------

  lemma SubstituteHead(query: seq<byte>, args: seq<Value>, mode: Mode)
    requires Count(query) == |args| && query != []
    ensures if query[0] == PLACEHOLDER then
              |args| > 0 && Count(query[1..]) == |args| - 1
              && Substitute(query, args, mode) == Literal(args[0], mode) + Substitute(query[1..], args[1..], mode)
            else
              Count(query[1..]) == |args|
                  && Substitute(query, args, mode) == [query[0]] + Substitute(query[1..], args, mode)
  {
    hide Literal, Substitute, Count;
    var tail := query[1..];
    assert query == [query[0]] + tail;
    CountAppend([query[0]], tail);
    SubstituteNil(mode);
    if query[0] == PLACEHOLDER {
      PlaceholderReplaced(query, 0, args, mode);
      assert query[..0] == [] && args[..0] == [];
      assert [] + Literal(args[0], mode) == Literal(args[0], mode);
    } else {
      SubstitutePlain([query[0]], mode);
      SubstituteAppend([query[0]], tail, [], args, mode);
      assert [] + args == args;
    }
  }

  /** The given texts of floats and times are not empty. */
  ghost predicate Proper(args: seq<Value>) {
    forall i :: 0 <= i < |args| ==> !args[i].Other? && (args[i].Float? || args[i].Time? ==> args[i].text != [])
  }

  /** A literal that starts with a quote: a string, or the text of a time. */
  predicate Quoted(arg: Value) { arg.Text? || ((arg.Float? || arg.Time?) && arg.text != [] && arg.text[0] == QUOTE) }

  /** What follows a placeholder starts with a quote: one in the query, or that of a literal
      right behind. */
  predicate QuoteFollows(query: seq<byte>, j: nat, args: seq<Value>, k: nat)
    requires j < |query| && k < |args|
  {
    j + 1 < |query| && (query[j + 1] == QUOTE || (query[j + 1] == PLACEHOLDER && k + 1 < |args| && Quoted(args[k + 1])))
  }

  lemma LiteralStarts(arg: Value, mode: Mode)
    requires !arg.Other? && (arg.Float? || arg.Time? ==> arg.text != [])
    ensures Literal(arg, mode) != [] && (Literal(arg, mode)[0] == QUOTE <==> Quoted(arg))
  {
    hide Escaped;
    if arg.Int? {
      DecimalStarts(arg.i);
    }
  }

  lemma DecimalStarts(i: int)
    ensures Decimal(i) != [] && Decimal(i)[0] != QUOTE
  {
    hide Digits;
  }

  lemma RestStarts(query: seq<byte>, j: nat, args: seq<Value>, mode: Mode)
    requires Count(query) == |args| && j < |query| && query[j] == PLACEHOLDER && Proper(args)
    ensures var k := Count(query[..j]);
            k < |args| && Count(query[j + 1..]) == |args| - k - 1
            && var rest := Substitute(query[j + 1..], args[k + 1..], mode);
            (rest != [] && rest[0] == QUOTE) <==> QuoteFollows(query, j, args, k)
  {
    hide Literal, Substitute, Count, Quoted;
    PlaceholderReplaced(query, j, args, mode);
    var k := Count(query[..j]);
    var q, more := query[j + 1..], args[k + 1..];
    if q == [] {
      SubstituteNil(mode);
      assert more == [];
    } else {
      SubstituteHead(q, more, mode);
      if q[0] == PLACEHOLDER {
        LiteralStarts(more[0], mode);
      }
    }
  }

  /** The value of a string or bytes argument, scanned out of the finished query from just
      after its opening quote: exactly that value comes back, with exactly the rest behind it,
      if and only if no quote follows. */
  lemma ValueScansOut(query: seq<byte>, j: nat, args: seq<Value>, v: seq<byte>, mode: Mode)
    requires Count(query) == |args| && j < |query| && query[j] == PLACEHOLDER && Proper(args)
    requires Count(query[..j]) < |args| && args[Count(query[..j])] in {Text(v), Bytes(Some(v))}
    ensures var k := Count(query[..j]);
            var before := Substitute(query[..j], args[..k], mode)
                + (if args[k].Text? then [QUOTE] else Ascii("_binary'"));
            Count(query[j + 1..]) == |args| - k - 1
            && before <= Substitute(query, args, mode)
            && (Scan(Substitute(query, args, mode)[|before|..], mode)
                == Some((v, Substitute(query[j + 1..], args[k + 1..], mode)))
                <==> !QuoteFollows(query, j, args, k))
  {
    hide Substitute, Count, Scan, Escaped, QuoteFollows;
    PlaceholderReplaced(query, j, args, mode);
    RestStarts(query, j, args, mode);
    var k := Count(query[..j]);
    var opening := if args[k].Text? then [QUOTE] else Ascii("_binary'");
    var pre, rest := Substitute(query[..j], args[..k], mode), Substitute(query[j + 1..], args[k + 1..], mode);
    var all, scanned := Substitute(query, args, mode), Escaped(v, mode) + [QUOTE] + rest;
    assert Literal(args[k], mode) == opening + Escaped(v, mode) + [QUOTE];
    assert all == (pre + opening) + scanned;
    assert all[|pre + opening|..] == scanned;
    LiteralScans(v, mode, rest);
  }

  /** Two strings for adjacent placeholders run together: a server reads one string. */
  lemma AdjacentStrings(v: seq<byte>, w: seq<byte>, mode: Mode)
    ensures Count([PLACEHOLDER, PLACEHOLDER]) == 2
    ensures var all := Substitute([PLACEHOLDER, PLACEHOLDER], [Text(v), Text(w)], mode);
            all != [] && Scan(all[1..], mode) == Some((v + [QUOTE] + w, []))
  {
    hide Substitute, Count, Scan, Escaped;
    var a, b := [QUOTE] + Escaped(v, mode) + [QUOTE], [QUOTE] + Escaped(w, mode) + [QUOTE];
    SubstituteOne(Text(v), mode);
    SubstituteOne(Text(w), mode);
    SubstituteAppend([PLACEHOLDER], [PLACEHOLDER], [Text(v)], [Text(w)], mode);
    assert [PLACEHOLDER] + [PLACEHOLDER] == [PLACEHOLDER, PLACEHOLDER] && [Text(v)] + [Text(w)] == [Text(v), Text(w)];
    var t := Escaped(w, mode) + [QUOTE];
    assert (a + b)[1..] == Escaped(v, mode) + ([QUOTE, QUOTE] + t);
    ScanEscaped(v, mode, [QUOTE, QUOTE] + t);
    ScanDoubled(t, mode);
    ScanEscaped(w, mode, [QUOTE]);
    ScanClosing([], mode);
    assert [QUOTE] + [] == [QUOTE];
    PrependTwice(v, [QUOTE], Scan(t, mode));
    PrependTwice(v + [QUOTE], w, Scan([QUOTE], mode));
    assert v + [QUOTE] + w + [] == v + [QUOTE] + w;
  }

  lemma ScanDoubled(t: seq<byte>, mode: Mode)
    ensures Scan([QUOTE, QUOTE] + t, mode) == Prepend([QUOTE], Scan(t, mode))
  {
    assert ([QUOTE, QUOTE] + t)[2..] == t;
  }

  // ---------- interpolation ----------

  /** What interpolation demands at a placeholder: a supported argument and, unless that
      is NULL, room for all text up to and with its literal in one packet. */
  ghost predicate AdmissibleAt(query: seq<byte>, args: seq<Value>, j: nat, mode: Mode, max: nat)
    requires j <= |query|
  {
    var k := Count(query[..j]);
    && k < |args|
    && !args[k].Other?
    && (args[k].Null? || |Substitute(query[..j], args[..k], mode)| + |Literal(args[k], mode)| + 4 <= max)
  }

  ghost predicate Admissible(query: seq<byte>, args: seq<Value>, upto: nat, mode: Mode, max: nat)
    requires upto <= |query|
  {
    forall j :: 0 <= j < upto && query[j] == PLACEHOLDER ==> AdmissibleAt(query, args, j, mode, max)
  }

  method Append(buf: array<byte>, len: nat, text: seq<byte>) returns (out: array<byte>, pos: nat)
    requires len <= buf.Length
    modifies buf
    ensures out == buf || fresh(out)
    ensures pos == len + |text| <= out.Length && out[..pos] == old(buf[..len]) + text
  {
    out := Reserve(buf, len, |text|);
    pos := len + |text|;
    ghost var before := old(buf[..len]);
    forall k | 0 <= k < |text| {
      out[len + k] := text[k];
    }
    assert out[..pos] == before + text;
  }

  /** The `switch` over the argument's type. */
  method AppendLiteral(buf: array<byte>, len: nat, arg: Value, mode: Mode) returns (out: array<byte>, pos: nat)
    requires len <= buf.Length && !arg.Other?
    modifies buf
    ensures out == buf || fresh(out)
    ensures pos <= out.Length && out[..pos] == old(buf[..len]) + Literal(arg, mode)
  {
    hide Escaped, Decimal;
    match arg {
      case Null => out, pos := Append(buf, len, Ascii("NULL"));
      case Int(i) => out, pos := Append(buf, len, Decimal(i));
      case Float(text) => out, pos := Append(buf, len, text);
      case Bool(b) => out, pos := Append(buf, len, if b then Ascii("1") else Ascii("0"));
      case Time(text) => out, pos := Append(buf, len, text);
      case Bytes(None) => out, pos := Append(buf, len, Ascii("NULL"));
      case Bytes(Some(v)) => out, pos := AppendQuoted(buf, len, Ascii("_binary'"), v, mode);
      case Text(v) => out, pos := AppendQuoted(buf, len, [QUOTE], v, mode);
    }
  }

  method AppendQuoted(buf: array<byte>, len: nat, opening: seq<byte>, v: seq<byte>, mode: Mode)
    returns (out: array<byte>, pos: nat)
    requires len <= buf.Length
    modifies buf
    ensures out == buf || fresh(out)
    ensures pos <= out.Length && out[..pos] == old(buf[..len]) + (opening + Escaped(v, mode) + [QUOTE])
  {
    hide Escaped;
    out, pos := Append(buf, len, opening);
    out, pos := Escape(out, pos, v, mode);
    out, pos := Append(out, pos, [QUOTE]);
  }

  /** `strings.IndexByte` for the placeholder, from `i` on; the length if there is none. */
  method NextPlaceholder(query: seq<byte>, i: nat) returns (q: nat)
    requires i <= |query|
    ensures i <= q <= |query| && PLACEHOLDER !in query[i..q] && (q < |query| ==> query[q] == PLACEHOLDER)
  {
    q := i;
    while q < |query| && query[q] != PLACEHOLDER
      invariant i <= q <= |query| && PLACEHOLDER !in query[i..q]
    {
      q := q + 1;
    }
  }

  lemma PlainStep(query: seq<byte>, i: nat, q: nat, args: seq<Value>, mode: Mode)
    requires i <= q <= |query| && PLACEHOLDER !in query[i..q] && Count(query[..i]) == |args|
    ensures Count(query[..q]) == |args|
    ensures Substitute(query[..q], args, mode) == Substitute(query[..i], args, mode) + query[i..q]
  {
    hide Count, Substitute;
    SubstitutePlain(query[i..q], mode);
    SubstituteAppend(query[..i], query[i..q], args, [], mode);
    assert query[..q] == query[..i] + query[i..q] && args + [] == args;
  }

  lemma PlaceholderStep(query: seq<byte>, q: nat, args: seq<Value>, mode: Mode)
    requires q < |query| && query[q] == PLACEHOLDER && Count(query) == |args|
    ensures var k := Count(query[..q]);
            k < |args| && Count(query[..q + 1]) == k + 1
            && Substitute(query[..q + 1], args[..k + 1], mode)
            == Substitute(query[..q], args[..k], mode) + Literal(args[k], mode)
  {
    hide Count, Substitute, Literal;
    var k := Count(query[..q]);
    assert query[..q + 1] == query[..q] + [PLACEHOLDER];
    assert query == query[..q + 1] + query[q + 1..];
    CountAppend(query[..q + 1], query[q + 1..]);
    CountAppend(query[..q], [PLACEHOLDER]);
    SubstituteOne(Null, mode);
    assert args[..k + 1][..k] == args[..k];
    SubstituteSnoc(query[..q], PLACEHOLDER, args[..k + 1], mode);
  }

  datatype InterpolateError = Skip | BusyBuffer

  /** The loop over the query: the literals written in place of the question marks,
      into the connection's scratch array or a larger copy of it. */
  method Expand(scratch: array<byte>, query: seq<byte>, args: seq<Value>, mode: Mode, max: nat)
    returns (r: Result<seq<byte>, InterpolateError>)
    requires Count(query) == |args|
    modifies scratch
    ensures r == if Admissible(query, args, |query|, mode, max) then Success(Substitute(query, args, mode))
            else Failure(Skip)
  {
    hide Count, Substitute, Literal, AdmissibleAt;
    var buf, len: nat := scratch, 0;
    var i: nat, argPos: nat := 0, 0;
    SubstituteNil(mode);
    assert query[..0] == [] && args[..0] == [] && buf[..0] == [];
    while i < |query|
      invariant i <= |query| && argPos <= |args| && len <= buf.Length && (buf == scratch || fresh(buf))
      invariant Count(query[..i]) == argPos && buf[..len] == Substitute(query[..i], args[..argPos], mode)
      invariant Admissible(query, args, i, mode, max)
    {
      var q := NextPlaceholder(query, i);
      PlainStep(query, i, q, args[..argPos], mode);
      buf, len := Append(buf, len, query[i..q]);
      if q == |query| {
        i := q;
        break;
      }
      PlaceholderStep(query, q, args, mode);
      AtPlaceholder(query, args, q, mode, max);
      var arg := args[argPos];
      if arg.Other? {
        return Failure(Skip);
      }
      buf, len := AppendLiteral(buf, len, arg, mode);
      if !arg.Null? && len + 4 > max {
        return Failure(Skip);
      }
      i, argPos := q + 1, argPos + 1;
    }
    assert query[..|query|] == query && args[..|args|] == args;
    r := Success(buf[..len]);
  }

  /** `interpolateParams`: either the query with every placeholder replaced, or a refusal,
      and each exactly when it should be.  It writes over the read buffer only while that
      holds nothing, so no received byte is lost. */
  method InterpolateParams(b: Buffer, query: seq<byte>, args: seq<Value>, mode: Mode, max: nat)
    returns (r: Result<seq<byte>, InterpolateError>)
    requires b.Valid()
    modifies b.buf
    ensures b.Valid() && b.Pending() == old(b.Pending())
    ensures Count(query) != |args| ==> r == Failure(Skip)
    ensures Count(query) == |args| && b.length > 0 ==> r == Failure(BusyBuffer)
    ensures Count(query) == |args| && b.length == 0 ==>
              r == if Admissible(query, args, |query|, mode, max) then Success(Substitute(query, args, mode))
                  else Failure(Skip)
  {
    hide Count, Substitute, Literal, AdmissibleAt;
    if Count(query) != |args| {
      return Failure(Skip);
    }
    if b.length > 0 {
      return Failure(BusyBuffer);
    }
    r := Expand(b.buf, query, args, mode, max);
  }

  lemma AtPlaceholder(query: seq<byte>, args: seq<Value>, q: nat, mode: Mode, max: nat)
    requires q < |query| && Count(query[..q]) < |args|
    ensures var k := Count(query[..q]);
            AdmissibleAt(query, args, q, mode, max) <==>
            (!args[k].Other?
                && (args[k].Null? || |Substitute(query[..q], args[..k], mode)| + |Literal(args[k], mode)| + 4 <= max))
  {
  }

  // ---------- the size of a result ----------

  ghost predicate AllNull(args: seq<Value>) { forall i :: 0 <= i < |args| ==> args[i].Null? }

  /** Each NULL is three bytes longer than its placeholder. */
  lemma {:induction false} NullsGrow(query: seq<byte>, args: seq<Value>, mode: Mode)
    requires Count(query) == |args| && AllNull(args)
    ensures |Substitute(query, args, mode)| == |query| + 3 * |args|
    decreases |query|
  {
    hide Substitute, Count;
    if query == [] {
      SubstituteNil(mode);
      assert args == [];
    } else {
      var most, c := query[..|query| - 1], query[|query| - 1];
      assert query == most + [c];
      SubstituteSnoc(most, c, args, mode);
      NullsGrow(most, if c == PLACEHOLDER then args[..|args| - 1] else args, mode);
    }
  }

  /** A result fits one packet if and only if, after the last argument that is not NULL, there
      is room for the text that follows with its NULLs: that part is never checked. */
  lemma FitsIffTailFits(query: seq<byte>, args: seq<Value>, j: nat, mode: Mode, max: nat)
    requires Count(query) == |args| && j < |query| && query[j] == PLACEHOLDER && Count(query[..j]) < |args|
    requires AllNull(args[Count(query[..j]) + 1..]) && AdmissibleAt(query, args, j, mode, max)
    ensures var k := Count(query[..j]);
            var checked := |Substitute(query[..j], args[..k], mode)| + |Literal(args[k], mode)| + 4;
            && (!args[k].Null? ==> checked <= max)
            && (|Substitute(query, args, mode)| + 4 <= max
                <==> checked + (|query| - j - 1) + 3 * (|args| - k - 1) <= max)
  {
    hide Substitute, Count, Literal;
    PlaceholderReplaced(query, j, args, mode);
    NullsGrow(query[j + 1..], args[Count(query[..j]) + 1..], mode);
  }

  /** So a successful result may be as much too long as one likes. */
  lemma OversizeResult(tail: seq<byte>, mode: Mode, max: nat)
    requires PLACEHOLDER !in tail && 5 <= max <= |tail|
    ensures var query, args := [PLACEHOLDER] + tail, [Int(0)];
            Count(query) == |args| && Admissible(query, args, |query|, mode, max)
                && |Substitute(query, args, mode)| > max
  {
    hide Substitute, Count, Literal, AdmissibleAt;
    var query, args := [PLACEHOLDER] + tail, [Int(0)];
    SubstitutePlain(tail, mode);
    SubstituteOne(Int(0), mode);
    SubstituteAppend([PLACEHOLDER], tail, [Int(0)], [], mode);
    assert args + [] == args && query[..0] == [] && args[..0] == [];
    SubstituteNil(mode);
    ZeroLiteral(mode);
    AtPlaceholder(query, args, 0, mode, max);
    assert forall i :: 0 < i < |query| ==> query[i] == tail[i - 1];
  }

  lemma ZeroLiteral(mode: Mode)
    ensures |Literal(Int(0), mode)| == 1
  {
  }
}
