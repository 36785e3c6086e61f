/**
 Interpolated literals as a server reads them: `NULL`, a number, a quoted text or a binary
 text.  Every argument is read back as the value it had, at its place in the finished query,
 unless the text behind it runs on.
 */
module MysqlLiterals {
  import opened Numerals
  import opened Wrappers
  import opened MysqlInterpolate

  /** What a literal denotes to the server. */
  datatype Reading = NullValue | NumberValue(n: int) | TextValue(v: seq<byte>) | BinaryValue(v: seq<byte>)

  predicate Digit(c: byte) { 48 <= c <= 57 }

  /** A byte that goes on with a word or a number: a letter, a digit, `_`, `$` or a dot. */
  predicate RunsOn(c: byte) { Digit(c) || 65 <= c <= 90 || 97 <= c <= 122 || c == 95 || c == 36 || c == 46 }

  /** How far a word goes. */
  function WordEnd(text: seq<byte>): (n: nat)
    ensures n <= |text| && (n < |text| ==> !RunsOn(text[n])) && forall i :: 0 <= i < n ==> RunsOn(text[i])
  {
    if text == [] || !RunsOn(text[0]) then 0 else 1 + WordEnd(text[1..])
  }

  lemma WordEndIs(text: seq<byte>, n: nat)
    requires n <= |text| && (n < |text| ==> !RunsOn(text[n])) && forall i :: 0 <= i < n ==> RunsOn(text[i])
    ensures WordEnd(text) == n
  {
    hide WordEnd;
  }

  predicate AllDigits(text: seq<byte>) { text != [] && forall i :: 0 <= i < |text| ==> Digit(text[i]) }

  /** The literal at the front of a text, and the text behind it. */
  function ReadLiteral(text: seq<byte>, mode: Mode): Option<(Reading, seq<byte>)> {
    if text == [] then None
    else if text[0] == 39 then
      var s := Scan(text[1..], mode);
      if s.None? then None else Some((TextValue(s.value.0), s.value.1))
    else
      var minus := text[0] == 45;
      var body := if minus then text[1..] else text;
      var n := WordEnd(body);
      var word, rest := body[..n], body[n..];
      if AllDigits(word) then Some((NumberValue(Number(Chars((if minus then [45] else []) + word))), rest))
      else if minus then None
      else if word == [78, 85, 76, 76] then Some((NullValue, rest))
      else if word == [95, 98, 105, 110, 97, 114, 121] && rest != [] && rest[0] == 39 then
        var s := Scan(rest[1..], mode);
        if s.None? then None else Some((BinaryValue(s.value.0), s.value.1))
      else None
  }

  /** The value an argument stands for; the texts of floats and times are given, so what they
      denote is not told here. */
  predicate Known(arg: Value) { !arg.Other? && !arg.Float? && !arg.Time? }

  function Meaning(arg: Value): Reading
    requires Known(arg)
  {
    match arg
    case Null => NullValue
    case Int(i) => NumberValue(i)
    case Bool(b) => NumberValue(if b then 1 else 0)
    case Bytes(None) => NullValue
    case Bytes(Some(v)) => BinaryValue(v)
    case Text(v) => TextValue(v)
  }

  /** The text behind a literal goes on with it: a quote behind a quoted one, and a letter,
      digit or dot behind any other. */
  predicate Clings(arg: Value, rest: seq<byte>) {
    rest != [] && if arg.Text? || (arg.Bytes? && arg.bytes.Some?) then rest[0] == 39 else RunsOn(rest[0])
  }

  // ---------- each kind of literal ----------

  lemma DigitsAscii(n: nat)
    ensures AllDigits(Ascii(Digits(n)))
  {
    hide Digits;
  }

  lemma WordRead(word: seq<byte>, rest: seq<byte>)
    requires forall i :: 0 <= i < |word| ==> RunsOn(word[i])
    ensures var text := word + rest; var n := WordEnd(text);
            if rest == [] || !RunsOn(rest[0]) then text[..n] == word && text[n..] == rest
            else |text[n..]| < |rest|
  {
    hide WordEnd;
    var text := word + rest;
    if rest == [] || !RunsOn(rest[0]) {
      assert |word| < |text| ==> text[|word|] == rest[0];
      WordEndIs(text, |word|);
    } else {
      assert text[|word|] == rest[0];
      assert forall i :: 0 <= i < |word| ==> text[i] == word[i];
    }
  }

  lemma NumberReads(minus: bool, d: seq<byte>, rest: seq<byte>, mode: Mode)
    requires AllDigits(d)
    ensures var token := (if minus then [45] else []) + d;
            ReadLiteral(token + rest, mode) == Some((NumberValue(Number(Chars(token))), rest))
            <==> rest == [] || !RunsOn(rest[0])
  {
    hide Number, WordEnd, Scan, Chars;
    var text := (if minus then [45] else []) + d + rest;
    WordRead(d, rest);
    if minus {
      assert text[1..] == d + rest && text[0] == 45;
    } else {
      assert text == d + rest && text[0] == d[0];
    }
  }

  lemma IntReads(i: int, rest: seq<byte>, mode: Mode)
    ensures ReadLiteral(Decimal(i) + rest, mode) == Some((NumberValue(i), rest)) <==> rest == [] || !RunsOn(rest[0])
  {
    hide Digits, Number, ReadLiteral, Chars;
    var m: nat := if i < 0 then -i else i;
    DigitsAscii(m);
    DecimalRead(i);
    NumberReads(i < 0, Ascii(Digits(m)), rest, mode);
    assert Decimal(i) == (if i < 0 then [45] else []) + Ascii(Digits(m));
  }

  lemma NullReads(rest: seq<byte>, mode: Mode)
    ensures ReadLiteral(Ascii("NULL") + rest, mode) == Some((NullValue, rest)) <==> rest == [] || !RunsOn(rest[0])
  {
    hide WordEnd, Scan, Number;
    var word := Ascii("NULL");
    assert word == [78, 85, 76, 76];
    WordRead(word, rest);
    assert (word + rest)[0] == 78;
  }

  lemma BoolReads(b: bool, rest: seq<byte>, mode: Mode)
    ensures ReadLiteral(Literal(Bool(b), mode) + rest, mode) == Some((NumberValue(if b then 1 else 0), rest))
            <==> rest == [] || !RunsOn(rest[0])
  {
    hide ReadLiteral;
    var word := Literal(Bool(b), mode);
    NumberReads(false, word, rest, mode);
    assert [] + word == word;
    var text := Chars(word);
    assert text[..0] == "" && |text| == 1;
    assert Magnitude(text) == 10 * Magnitude(text[..0]) + (text[0] - '0') as nat;
  }

  lemma TextReads(v: seq<byte>, rest: seq<byte>, mode: Mode)
    ensures ReadLiteral([QUOTE] + Escaped(v, mode) + [QUOTE] + rest, mode) == Some((TextValue(v), rest))
            <==> rest == [] || rest[0] != 39
  {
    hide WordEnd, Scan, Escaped, Number;
    var text := [QUOTE] + Escaped(v, mode) + [QUOTE] + rest;
    assert text[1..] == Escaped(v, mode) + [QUOTE] + rest;
    LiteralScans(v, mode, rest);
  }

  lemma BinaryReads(v: seq<byte>, rest: seq<byte>, mode: Mode)
    ensures ReadLiteral(Ascii("_binary'") + Escaped(v, mode) + [QUOTE] + rest, mode) == Some((BinaryValue(v), rest))
            <==> rest == [] || rest[0] != 39
  {
    hide ReadLiteral, Scan, Escaped;
    var more := Escaped(v, mode) + [QUOTE] + rest;
    assert Ascii("_binary'") + Escaped(v, mode) + [QUOTE] + rest == Ascii("_binary'") + more;
    BinaryWord(more, mode);
    LiteralScans(v, mode, rest);
  }

  lemma BinaryWord(more: seq<byte>, mode: Mode)
    ensures ReadLiteral(Ascii("_binary'") + more, mode)
         == var s := Scan(more, mode); if s.None? then None else Some((BinaryValue(s.value.0), s.value.1))
  {
    hide WordEnd, Scan, Number;
    var word := [95, 98, 105, 110, 97, 114, 121];
    assert Ascii("_binary'") == word + [39];
    assert Ascii("_binary'") + more == word + ([39] + more);
    WordRead(word, [39] + more);
    assert ([39] + more)[1..] == more;
  }

  /** A literal is read as the value of its argument, and nothing more, exactly when what
      follows does not cling to it. */
  lemma LiteralReads(arg: Value, rest: seq<byte>, mode: Mode)
    requires Known(arg)
    ensures ReadLiteral(Literal(arg, mode) + rest, mode) == Some((Meaning(arg), rest)) <==> !Clings(arg, rest)
  {
    hide ReadLiteral, Escaped, Decimal;
    match arg {
      case Null => NullReads(rest, mode);
      case Int(i) => IntReads(i, rest, mode);
      case Bool(b) => BoolReads(b, rest, mode);
      case Bytes(None) => NullReads(rest, mode);
      case Bytes(Some(v)) =>
        BinaryReads(v, rest, mode);
      case Text(v) =>
        TextReads(v, rest, mode);
    }
  }

  // ---------- in a finished query ----------

  /** The literal of an argument begins like a word or a number. */
  predicate Wordy(arg: Value) {
    match arg
    case Null => true
    case Int(i) => i >= 0
    case Float(text) => text != [] && RunsOn(text[0])
    case Bool(_) => true
    case Time(text) => text != [] && RunsOn(text[0])
    case Bytes(_) => true
    case Text(_) => false
    case Other => false
  }

  /** What follows placeholder `j`, the `k`-th, clings to its literal: the next character of the
      query, or the literal of a placeholder right behind. */
  predicate ClingsAt(query: seq<byte>, j: nat, args: seq<Value>, k: nat)
    requires j < |query| && k < |args|
  {
    if args[k].Text? || (args[k].Bytes? && args[k].bytes.Some?) then QuoteFollows(query, j, args, k)
    else
      j + 1 < |query| && (RunsOn(query[j + 1]) || (query[j + 1] == PLACEHOLDER && k + 1 < |args| && Wordy(args[k + 1])))
  }

  lemma WordStarts(arg: Value, mode: Mode)
    requires !arg.Other? && (arg.Float? || arg.Time? ==> arg.text != [])
    ensures Literal(arg, mode) != [] && (RunsOn(Literal(arg, mode)[0]) <==> Wordy(arg))
  {
    hide Escaped, Digits;
    if arg.Int? {
      DigitsAscii(if arg.i < 0 then -arg.i else arg.i);
    }
  }

  lemma RestClings(query: seq<byte>, j: nat, args: seq<Value>, mode: Mode)
    requires Count(query) == |args| && j < |query| && query[j] == PLACEHOLDER && Proper(args)
    ensures var k := Count(query[..j]);
            k < |args| && Count(query[j + 1..]) == |args| - k - 1
            && (Clings(args[k], Substitute(query[j + 1..], args[k + 1..], mode)) <==> ClingsAt(query, j, args, k))
  {
    hide Literal, Substitute, Count, Quoted, Wordy, RunsOn;
    RestStarts(query, j, args, mode);
    var k := Count(query[..j]);
    var q, more := query[j + 1..], args[k + 1..];
    if q == [] {
      SubstituteNil(mode);
      assert more == [];
    } else {
      SubstituteHead(q, more, mode);
      PlaceholderAlone();
      if q[0] == PLACEHOLDER {
        WordStarts(more[0], mode);
      }
    }
  }

  lemma PlaceholderAlone()
    ensures !RunsOn(PLACEHOLDER)
  {
  }

  /** The main result: in the finished query, at the place of any placeholder, the server reads
      the value of its argument and goes on right behind it, if and only if nothing clings. */
  lemma ArgumentReads(query: seq<byte>, j: nat, args: seq<Value>, mode: Mode)
    requires Count(query) == |args| && j < |query| && query[j] == PLACEHOLDER && Proper(args)
    requires Count(query[..j]) < |args| && Known(args[Count(query[..j])])
    ensures var k := Count(query[..j]);
            var before := Substitute(query[..j], args[..k], mode);
            && Count(query[j + 1..]) == |args| - k - 1
            && before <= Substitute(query, args, mode)
            && (ReadLiteral(Substitute(query, args, mode)[|before|..], mode)
                == Some((Meaning(args[k]), Substitute(query[j + 1..], args[k + 1..], mode)))
                <==> !ClingsAt(query, j, args, k))
  {
    hide Literal, Substitute, Count, ReadLiteral, Clings, ClingsAt, Meaning;
    PlaceholderReplaced(query, j, args, mode);
    RestClings(query, j, args, mode);
    var k := Count(query[..j]);
    var before, rest := Substitute(query[..j], args[..k], mode), Substitute(query[j + 1..], args[k + 1..], mode);
    var all := Substitute(query, args, mode);
    assert all == before + (Literal(args[k], mode) + rest);
    assert all[|before|..] == Literal(args[k], mode) + rest;
    LiteralReads(args[k], rest, mode);
  }
}
