/**
 The data source name: `FormatDSN` prints a configuration as
 `[user[:passwd]@][net[(addr)]]/dbname[?param=value&...]`, `ParseDSN` finds the parts
 again from the last `/`, the last `@`, the first `:`, the first `(` and the first `?`.
 */
module MysqlDsn {
  import opened Wrappers

  const DEFAULT_COLLATION := "utf8_general_ci"
  const FLAGS: nat := 10

  /** `Config`.  `flags` holds the ten boolean options in the order they are printed in;
      `others` the options whose values are left to library parsers, as they came. */
  datatype Config = Config(
    user: string, passwd: string, net: string, addr: string, dbName: string,
    collation: string, flags: seq<bool>, others: seq<(string, string)>)

  function NoFlags(): (f: seq<bool>)
    ensures |f| == FLAGS && forall k :: 0 <= k < FLAGS ==> !f[k]
  {
    seq(FLAGS, _ => false)
  }

  function FlagName(k: nat): string
    requires k < FLAGS
  {
    match k
    case 0 => "allowAllFiles"
    case 1 => "allowCleartextPasswords"
    case 2 => "allowNativePasswords"
    case 3 => "allowOldPasswords"
    case 4 => "clientFoundRows"
    case 5 => "columnsWithAlias"
    case 6 => "interpolateParams"
    case 7 => "multiStatements"
    case 8 => "parseTime"
    case _ => "strict"
  }

  const INTERPOLATE_PARAMS: nat := 6

  predicate UnsafeCollation(c: string) {
    c in {"big5_chinese_ci", "sjis_japanese_ci", "gbk_chinese_ci", "big5_bin", "gb2312_bin",
          "gbk_bin", "sjis_bin", "cp932_japanese_ci", "cp932_bin"}
  }

  // ---------- finding separators ----------

  /** `c` does not occur in `s[lo..hi]`. */
  predicate Free(s: string, c: char, lo: nat, hi: nat)
    requires lo <= hi <= |s|
  {
    forall k :: lo <= k < hi ==> s[k] != c
  }

  predicate Without(s: string, c: char) { Free(s, c, 0, |s|) }

  /** The first place of `c`, or the length. */
  function First(s: string, c: char): (n: nat)
    ensures n <= |s| && Free(s, c, 0, n) && (n < |s| ==> s[n] == c)
  {
    FirstFrom(s, c, 0)
  }

  function FirstFrom(s: string, c: char, i: nat): (n: nat)
    requires i <= |s|
    ensures i <= n <= |s| && Free(s, c, i, n) && (n < |s| ==> s[n] == c)
    decreases |s| - i
  {
    if i == |s| || s[i] == c then i else FirstFrom(s, c, i + 1)
  }

  /** The last place of `c`, or -1. */
  function Last(s: string, c: char): (n: int)
    ensures -1 <= n < |s| && Free(s, c, n + 1, |s|) && (n >= 0 ==> s[n] == c)
  {
    LastBefore(s, c, |s|)
  }

  function LastBefore(s: string, c: char, i: nat): (n: int)
    requires i <= |s|
    ensures -1 <= n < i && Free(s, c, n + 1, i) && (n >= 0 ==> s[n] == c)
  {
    if i == 0 then -1 else if s[i - 1] == c then i - 1 else LastBefore(s, c, i - 1)
  }

  lemma FirstIs(s: string, c: char, n: nat)
    requires n <= |s| && Free(s, c, 0, n) && (n < |s| ==> s[n] == c)
    ensures First(s, c) == n
  {
    hide First;
  }

  lemma LastIs(s: string, c: char, n: int)
    requires -1 <= n < |s| && Free(s, c, n + 1, |s|) && (n >= 0 ==> s[n] == c)
    ensures Last(s, c) == n
  {
    hide Last;
  }

  // ---------- printing ----------

  function Credentials(c: Config): string {
    if c.user == "" then "" else c.user + (if c.passwd == "" then "" else ":" + c.passwd) + "@"
  }

  function Endpoint(c: Config): string {
    if c.net == "" then "" else c.net + (if c.addr == "" then "" else "(" + c.addr + ")")
  }

  /** The printed options `lo` to `hi`. */
  function FlagPieces(flags: seq<bool>, lo: nat, hi: nat): seq<string>
    requires lo <= hi <= FLAGS && |flags| == FLAGS
    decreases hi
  {
    if lo == hi then []
    else FlagPieces(flags, lo, hi - 1) + if flags[hi - 1] then [FlagName(hi - 1) + "=true"] else []
  }

  function CollationPieces(c: Config): seq<string> {
    if c.collation == DEFAULT_COLLATION || c.collation == "" then [] else ["collation=" + c.collation]
  }

  function Pieces(c: Config): seq<string>
    requires |c.flags| == FLAGS
  {
    FlagPieces(c.flags, 0, 5) + CollationPieces(c) + FlagPieces(c.flags, 5, FLAGS)
  }

  function Join(pieces: seq<string>): string {
    if pieces == [] then "" else if |pieces| == 1 then pieces[0] else pieces[0] + "&" + Join(pieces[1..])
  }

  function Query(pieces: seq<string>): string {
    if pieces == [] then "" else "?" + Join(pieces)
  }

  /** What `FormatDSN` prints, with all options that need library printers at their defaults. */
  function Format(c: Config): string
    requires |c.flags| == FLAGS
  {
    Credentials(c) + Endpoint(c) + "/" + (c.dbName + Query(Pieces(c)))
  }

  // ---------- parsing ----------

  datatype Error =
    | InvalidUnescaped | InvalidAddr | NoSlash | UnsafeInterpolation | UnknownNet | InvalidBool | NoCompression

  function ReadBool(s: string): Option<bool> {
    if s in {"1", "true", "TRUE", "True"} then Some(true)
    else if s in {"0", "false", "FALSE", "False"} then Some(false)
    else None
  }

  function FlagOf(key: string): (k: Option<nat>)
    ensures k.Some? ==> k.value < FLAGS
  {
    if key == "allowAllFiles" then Some(0)
    else if key == "allowCleartextPasswords" then Some(1)
    else if key == "allowNativePasswords" then Some(2)
    else if key == "allowOldPasswords" then Some(3)
    else if key == "clientFoundRows" then Some(4)
    else if key == "columnsWithAlias" then Some(5)
    else if key == "interpolateParams" then Some(6)
    else if key == "multiStatements" then Some(7)
    else if key == "parseTime" then Some(8)
    else if key == "strict" then Some(9)
    else None
  }

  /** The effect of one `key=value` piece; a piece without `=` has none. */
  function Apply(c: Config, piece: string): (r: Result<Config, Error>)
    requires |c.flags| == FLAGS
    ensures r.Success? ==> |r.value.flags| == FLAGS
  {
    var n := First(piece, '=');
    if n == |piece| then Success(c)
    else
      var key, value := piece[..n], piece[n + 1..];
      var k := FlagOf(key);
      if k.Some? then
        var b := ReadBool(value);
        if b.None? then Failure(InvalidBool) else Success(c.(flags := c.flags[k.value := b.value]))
      else if key == "collation" then Success(c.(collation := value))
      else if key == "compress" then Failure(NoCompression)
      else Success(c.(others := c.others + [(key, value)]))
  }

  function ParseParams(c: Config, params: string): (r: Result<Config, Error>)
    requires |c.flags| == FLAGS
    ensures r.Success? ==> |r.value.flags| == FLAGS
    decreases |params|
  {
    var n := First(params, '&');
    var r := Apply(c, params[..n]);
    if r.Failure? || n == |params| then r else ParseParams(r.value, params[n + 1..])
  }

  /** The part before the slash; a new configuration with it and defaults otherwise. */
  function ParseLeft(left: string): (r: Result<Config, Error>)
    ensures r.Success? ==> |r.value.flags| == FLAGS
  {
    var j := Last(left, '@');
    var cred := if j < 0 then "" else left[..j];
    var k := First(cred, ':');
    var user, passwd := cred[..k], if k < |cred| then cred[k + 1..] else "";
    var endpoint := left[j + 1..];
    var p := First(endpoint, '(');
    if p == |endpoint| then Success(New(user, passwd, endpoint, ""))
    else if endpoint[|endpoint| - 1] == ')'
        then Success(New(user, passwd, endpoint[..p], endpoint[p + 1..|endpoint| - 1]))
    else if First(endpoint[p + 1..], ')') < |endpoint| - p - 1 then Failure(InvalidUnescaped)
    else Failure(InvalidAddr)
  }

  function New(user: string, passwd: string, net: string, addr: string): (c: Config) {
    Config(user, passwd, net, addr, "", DEFAULT_COLLATION, NoFlags(), [])
  }

  /** The part after the slash. */
  function ParseRight(c: Config, right: string): (r: Result<Config, Error>)
    requires |c.flags| == FLAGS
    ensures r.Success? ==> |r.value.flags| == FLAGS
  {
    var q := First(right, '?');
    var r := if q == |right| then Success(c) else ParseParams(c, right[q + 1..]);
    if r.Failure? then r else Success(r.value.(dbName := right[..q]))
  }

  /** The checks and defaults at the end. */
  function Finish(c: Config): (r: Result<Config, Error>)
    requires |c.flags| == FLAGS
  {
    if c.flags[INTERPOLATE_PARAMS] && UnsafeCollation(c.collation) then Failure(UnsafeInterpolation)
    else
      var net := if c.net == "" then "tcp" else c.net;
      if c.addr != "" then Success(c.(net := net))
      else if net == "tcp" then Success(c.(net := net, addr := "127.0.0.1:3306"))
      else if net == "unix" then Success(c.(net := net, addr := "/tmp/mysql.sock"))
      else Failure(UnknownNet)
  }

  function Parse(dsn: string): Result<Config, Error> {
    var i := Last(dsn, '/');
    if i < 0 then if dsn == "" then Finish(New("", "", "", "")) else Failure(NoSlash)
    else
      var l := ParseLeft(dsn[..i]);
      if l.Failure? then l
      else
        var r := ParseRight(l.value, dsn[i + 1..]);
        if r.Failure? then r else Finish(r.value)
  }

  // ---------- the round trip ----------

  /** The configurations that survive printing and parsing. */
  ghost predicate Printable(c: Config)
    requires |c.flags| == FLAGS
  {
    && Without(c.user, ':') && (c.user == "" ==> c.passwd == "")
    && c.net != "" && Without(c.net, '@') && Without(c.net, '(')
    && c.addr != "" && Without(c.addr, '@')
    && Without(c.dbName, '/') && Without(c.dbName, '?')
    && c.collation != "" && Without(c.collation, '/') && Without(c.collation, '&')
    && !(c.flags[INTERPOLATE_PARAMS] && UnsafeCollation(c.collation))
  }

  lemma WithoutConcat(a: string, b: string, c: char)
    ensures Without(a + b, c) <==> Without(a, c) && Without(b, c)
  {
    if Without(a + b, c) {
      assert forall k :: 0 <= k < |a| ==> a[k] == (a + b)[k];
      assert forall k :: 0 <= k < |b| ==> b[k] == (a + b)[|a| + k];
    }
  }

  /** Where a separator is in `a + [c] + b`. */
  lemma FirstBetween(a: string, c: char, b: string)
    requires Without(a, c)
    ensures First(a + [c] + b, c) == |a| && (a + [c] + b)[..|a|] == a && (a + [c] + b)[|a| + 1..] == b
  {
    FirstIs(a + [c] + b, c, |a|);
  }

  lemma LastBetween(a: string, c: char, b: string)
    requires Without(b, c)
    ensures Last(a + [c] + b, c) == |a| && (a + [c] + b)[..|a|] == a && (a + [c] + b)[|a| + 1..] == b
  {
    var s := a + [c] + b;
    assert forall k :: |a| < k < |s| ==> s[k] == b[k - |a| - 1];
    LastIs(s, c, |a|);
  }

  lemma FirstMissing(s: string, c: char)
    requires Without(s, c)
    ensures First(s, c) == |s| && Last(s, c) == -1 && s[..|s|] == s
  {
    FirstIs(s, c, |s|);
    LastIs(s, c, -1);
  }

  ghost predicate CredOk(cred: string, user: string, passwd: string) {
    var k := First(cred, ':');
    cred[..k] == user && (if k < |cred| then cred[k + 1..] else "") == passwd
  }

  ghost predicate EndpointOk(e: string, net: string, addr: string) {
    var p := First(e, '(');
    p < |e| && e[|e| - 1] == ')' && e[..p] == net && e[p + 1..|e| - 1] == addr
  }

  lemma CredentialsParse(c: Config)
    requires Without(c.user, ':') && (c.user == "" ==> c.passwd == "")
    ensures var s := Credentials(c);
            if s == "" then c.user == "" && c.passwd == ""
                else s[|s| - 1] == '@' && CredOk(s[..|s| - 1], c.user, c.passwd)
  {
    if c.user != "" {
      var s := Credentials(c);
      if c.passwd == "" {
        assert s[..|s| - 1] == c.user;
        FirstMissing(c.user, ':');
      } else {
        assert s[..|s| - 1] == c.user + [':'] + c.passwd;
        FirstBetween(c.user, ':', c.passwd);
      }
    }
  }

  lemma EndpointParse(c: Config)
    requires c.net != "" && Without(c.net, '@') && Without(c.net, '(') && c.addr != "" && Without(c.addr, '@')
    ensures Without(Endpoint(c), '@') && EndpointOk(Endpoint(c), c.net, c.addr)
  {
    var e := Endpoint(c);
    assert e == c.net + ['('] + (c.addr + ")");
    FirstBetween(c.net, '(', c.addr + ")");
    WithoutConcat(c.addr, ")", '@');
    WithoutConcat(c.net + ['('], c.addr + ")", '@');
    WithoutConcat(c.net, ['('], '@');
  }

  /** `ParseLeft` from the place of the `@`. */
  lemma LeftIs(left: string, j: int, c: Config)
    requires Last(left, '@') == j && EndpointOk(left[j + 1..], c.net, c.addr)
    requires CredOk(if j < 0 then "" else left[..j], c.user, c.passwd)
    ensures ParseLeft(left) == Success(New(c.user, c.passwd, c.net, c.addr))
  {
    hide Last, First, New;
  }

  lemma LeftParses(c: Config)
    requires |c.flags| == FLAGS && Printable(c)
    ensures ParseLeft(Credentials(c) + Endpoint(c)) == Success(New(c.user, c.passwd, c.net, c.addr))
  {
    hide ParseLeft, Last, First, New, Credentials, Endpoint, EndpointOk, Without;
    CredentialsParse(c);
    EndpointParse(c);
    var s, e := Credentials(c), Endpoint(c);
    if s == "" {
      assert s + e == e && e[0..] == e;
      FirstMissing(e, '@');
      LeftIs(e, -1, c);
    } else {
      var cred := s[..|s| - 1];
      assert s + e == cred + ['@'] + e;
      LastBetween(cred, '@', e);
      LeftIs(s + e, |cred|, c);
    }
  }

  /** Applying pieces in order. */
  function ApplyAll(c: Config, pieces: seq<string>): (r: Result<Config, Error>)
    requires |c.flags| == FLAGS
    ensures r.Success? ==> |r.value.flags| == FLAGS
  {
    if pieces == [] then Success(c)
    else
      var r := ApplyAll(c, pieces[..|pieces| - 1]);
      if r.Failure? then r else Apply(r.value, pieces[|pieces| - 1])
  }

  lemma ApplyAllSnoc(c: Config, pieces: seq<string>, p: string)
    requires |c.flags| == FLAGS
    ensures ApplyAll(c, pieces + [p]) == var r := ApplyAll(c, pieces); if r.Failure? then r else Apply(r.value, p)
  {
    hide Apply;
    assert (pieces + [p])[..|pieces + [p]| - 1] == pieces;
  }

  lemma {:induction false} ApplyAllCons(c: Config, p: string, pieces: seq<string>)
    requires |c.flags| == FLAGS
    ensures ApplyAll(c, [p] + pieces) == var r := Apply(c, p); if r.Failure? then r else ApplyAll(r.value, pieces)
    decreases |pieces|
  {
    hide Apply;
    if pieces == [] {
      assert [p] + pieces == [] + [p];
      ApplyAllSnoc(c, [], p);
    } else {
      var most, q := pieces[..|pieces| - 1], pieces[|pieces| - 1];
      assert [p] + pieces == ([p] + most) + [q];
      ApplyAllCons(c, p, most);
      ApplyAllSnoc(c, [p] + most, q);
    }
  }

  ghost predicate AllWithout(pieces: seq<string>, c: char) {
    forall k :: 0 <= k < |pieces| ==> Without(pieces[k], c)
  }

  /** Splitting at `&` undoes joining with it. */
  lemma {:induction false} ParamsJoined(c: Config, pieces: seq<string>)
    requires |c.flags| == FLAGS && pieces != [] && AllWithout(pieces, '&')
    ensures ParseParams(c, Join(pieces)) == ApplyAll(c, pieces)
    decreases |pieces|
  {
    hide Apply, First, Without;
    var p, more := pieces[0], pieces[1..];
    assert pieces == [p] + more;
    ApplyAllCons(c, p, more);
    if more == [] {
      FirstMissing(p, '&');
      assert Join(pieces) == p;
    } else {
      assert Join(pieces) == p + ['&'] + Join(more);
      FirstBetween(p, '&', Join(more));
      var r := Apply(c, p);
      if r.Success? {
        ParamsJoined(r.value, more);
      }
    }
  }

  lemma {:induction false} JoinWithout(pieces: seq<string>, c: char)
    requires AllWithout(pieces, c) && c != '&'
    ensures Without(Join(pieces), c)
    decreases |pieces|
  {
    hide Without;
    assert Without("", c) && Without("&", c) by {
      Singles(c);
    }
    if |pieces| > 1 {
      JoinWithout(pieces[1..], c);
      WithoutConcat(pieces[0], "&", c);
      WithoutConcat(pieces[0] + "&", Join(pieces[1..]), c);
    }
  }

  lemma Singles(c: char)
    requires c != '&'
    ensures Without("", c) && Without("&", c)
  {
  }

  /** Every character is a letter. */
  predicate Word(s: string) { forall k :: 0 <= k < |s| ==> 'A' <= s[k] <= 'z' }

  lemma NameWord(k: nat)
    requires k < FLAGS
    ensures Word(FlagName(k))
  {
    hide Word, FlagName;
    if k < 3 {
      NameWordLow(k);
    } else if k < 6 {
      NameWordMiddle(k);
    } else {
      NameWordHigh(k);
    }
  }

  lemma NameWordLow(k: nat)
    requires k < 3
    ensures Word(FlagName(k))
  {
  }

  lemma NameWordMiddle(k: nat)
    requires 3 <= k < 6
    ensures Word(FlagName(k))
  {
  }

  lemma NameWordHigh(k: nat)
    requires 6 <= k < FLAGS
    ensures Word(FlagName(k))
  {
  }

  lemma NameFlag(k: nat)
    requires k < FLAGS
    ensures FlagOf(FlagName(k)) == Some(k)
  {
  }

  lemma WordWithout(s: string, c: char)
    requires Word(s) && !('A' <= c <= 'z')
    ensures Without(s, c)
  {
  }

  lemma ApplyFlag(c: Config, k: nat)
    requires |c.flags| == FLAGS && k < FLAGS
    ensures Apply(c, FlagName(k) + "=true") == Success(c.(flags := c.flags[k := true]))
  {
    hide FlagName, FlagOf, First, Word;
    var piece := FlagName(k) + "=true";
    NameWord(k);
    NameFlag(k);
    WordWithout(FlagName(k), '=');
    assert piece == FlagName(k) + ['='] + "true";
    FirstBetween(FlagName(k), '=', "true");
  }

  lemma ApplyCollation(c: Config, v: string)
    requires |c.flags| == FLAGS
    ensures Apply(c, "collation=" + v) == Success(c.(collation := v))
  {
    hide First;
    assert "collation=" + v == "collation" + ['='] + v;
    FirstBetween("collation", '=', v);
  }

  /** `have` with the flags `lo` to `hi` taken from `flags`. */
  function Patch(have: seq<bool>, flags: seq<bool>, lo: nat, hi: nat): (p: seq<bool>)
    requires lo <= hi <= FLAGS && |flags| == |have| == FLAGS
    ensures |p| == FLAGS
  {
    have[..lo] + flags[lo..hi] + have[hi..]
  }

  lemma {:induction false} ApplyFlags(c0: Config, before: seq<string>, c: Config, flags: seq<bool>, lo: nat, hi: nat)
    requires |c0.flags| == |c.flags| == |flags| == FLAGS && lo <= hi <= FLAGS
    requires ApplyAll(c0, before) == Success(c)
    requires forall k :: lo <= k < hi ==> !c.flags[k]
    ensures ApplyAll(c0, before + FlagPieces(flags, lo, hi)) == Success(c.(flags := Patch(c.flags, flags, lo, hi)))
    decreases hi
  {
    hide ApplyAll, Apply, FlagName;
    if lo == hi {
      assert before + FlagPieces(flags, lo, hi) == before;
      assert Patch(c.flags, flags, lo, hi) == c.flags;
    } else {
      var k := hi - 1;
      var most := FlagPieces(flags, lo, k);
      ApplyFlags(c0, before, c, flags, lo, k);
      var had := Patch(c.flags, flags, lo, k);
      assert Patch(c.flags, flags, lo, hi) == had[k := flags[k]];
      if flags[k] {
        var piece := FlagName(k) + "=true";
        assert before + FlagPieces(flags, lo, hi) == before + most + [piece];
        ApplyAllSnoc(c0, before + most, piece);
        ApplyFlag(c.(flags := had), k);
      } else {
        assert before + FlagPieces(flags, lo, hi) == before + most;
        assert had[k := flags[k]] == had;
      }
    }
  }

  /** Applying all printed options to a new configuration restores them. */
  lemma PiecesApply(c: Config)
    requires |c.flags| == FLAGS && c.collation != ""
    ensures ApplyAll(New(c.user, c.passwd, c.net, c.addr), Pieces(c))
         == Success(New(c.user, c.passwd, c.net, c.addr).(collation := c.collation, flags := c.flags))
  {
    hide ApplyAll, Apply, FlagPieces;
    var c0 := New(c.user, c.passwd, c.net, c.addr);
    var low := FlagPieces(c.flags, 0, 5);
    var c1 := c0.(flags := Patch(c0.flags, c.flags, 0, 5));
    var c2 := c1.(collation := c.collation);
    assert ApplyAll(c0, low) == Success(c1) by {
      assert ApplyAll(c0, []) == Success(c0) by {
        ApplyNone(c0);
      }
      ApplyFlags(c0, [], c0, c.flags, 0, 5);
      assert [] + low == low;
    }
    assert ApplyAll(c0, low + CollationPieces(c)) == Success(c2) by {
      if CollationPieces(c) == [] {
        assert low + [] == low;
      } else {
        ApplyAllSnoc(c0, low, "collation=" + c.collation);
        ApplyCollation(c1, c.collation);
      }
    }
    ApplyFlags(c0, low + CollationPieces(c), c2, c.flags, 5, FLAGS);
    assert Patch(c2.flags, c.flags, 5, FLAGS) == c.flags;
  }

  lemma ApplyNone(c: Config)
    requires |c.flags| == FLAGS
    ensures ApplyAll(c, []) == Success(c)
  {
  }

  lemma {:induction false} FlagPiecesWithout(flags: seq<bool>, lo: nat, hi: nat, c: char)
    requires lo <= hi <= FLAGS && |flags| == FLAGS && c in {'&', '/'}
    ensures AllWithout(FlagPieces(flags, lo, hi), c)
    decreases hi
  {
    hide FlagName, Word, Without;
    if lo < hi {
      FlagPiecesWithout(flags, lo, hi - 1, c);
      NameWord(hi - 1);
      WordWithout(FlagName(hi - 1), c);
      assert Without("=true", c) by {
        EqualsTrue(c);
      }
      WithoutConcat(FlagName(hi - 1), "=true", c);
    }
  }

  lemma EqualsTrue(c: char)
    requires c in {'&', '/'}
    ensures Without("=true", c) && Without("collation=", c)
  {
  }

  lemma PiecesWithout(c: Config, x: char)
    requires |c.flags| == FLAGS && x in {'&', '/'} && Without(c.collation, x)
    ensures AllWithout(Pieces(c), x)
  {
    hide FlagPieces, Without;
    FlagPiecesWithout(c.flags, 0, 5, x);
    FlagPiecesWithout(c.flags, 5, FLAGS, x);
    EqualsTrue(x);
    WithoutConcat("collation=", c.collation, x);
  }

  lemma RightParses(c: Config)
    requires |c.flags| == FLAGS && Printable(c)
    ensures ParseRight(New(c.user, c.passwd, c.net, c.addr), c.dbName + Query(Pieces(c)))
         == Success(New(c.user, c.passwd, c.net, c.addr).(collation := c.collation, flags := c.flags,
             dbName := c.dbName))
    ensures Without(c.dbName + Query(Pieces(c)), '/')
  {
    hide Pieces, Without, First, ParseParams, ApplyAll, UnsafeCollation;
    var c0 := New(c.user, c.passwd, c.net, c.addr);
    var ps := Pieces(c);
    PiecesApply(c);
    PiecesWithout(c, '&');
    PiecesWithout(c, '/');
    JoinWithout(ps, '/');
    QueryWithout(ps);
    WithoutConcat(c.dbName, Query(ps), '/');
    if ps == [] {
      assert c.dbName + Query(ps) == c.dbName;
      FirstMissing(c.dbName, '?');
      ApplyNone(c0);
    } else {
      assert c.dbName + Query(ps) == c.dbName + ['?'] + Join(ps);
      FirstBetween(c.dbName, '?', Join(ps));
      ParamsJoined(c0, ps);
    }
  }

  lemma QueryWithout(ps: seq<string>)
    requires Without(Join(ps), '/')
    ensures Without(Query(ps), '/')
  {
    hide Join;
    WithoutConcat("?", Join(ps), '/');
  }

  /** A printable configuration is parsed back from what it prints. */
  lemma PrintedParses(c: Config)
    requires |c.flags| == FLAGS && Printable(c) && c.others == []
    ensures Parse(Format(c)) == Success(c)
  {
    hide ParseLeft, ParseRight, Last, Pieces, Query, Credentials, Endpoint, Without, UnsafeCollation;
    var left, right := Credentials(c) + Endpoint(c), c.dbName + Query(Pieces(c));
    LeftParses(c);
    RightParses(c);
    assert Format(c) == left + ['/'] + right;
    LastBetween(left, '/', right);
  }

  // ---------- only those survive ----------

  /** What every parsed configuration is like. */
  ghost predicate Shaped(c: Config) {
    && |c.flags| == FLAGS
    && Without(c.user, ':')
    && c.net != "" && Without(c.net, '@') && Without(c.net, '(')
    && c.addr != "" && Without(c.addr, '@')
    && Without(c.dbName, '/') && Without(c.dbName, '?')
    && Without(c.collation, '/') && Without(c.collation, '&')
    && !(c.flags[INTERPOLATE_PARAMS] && UnsafeCollation(c.collation))
  }

  lemma SliceWithout(s: string, c: char, lo: nat, hi: nat)
    requires lo <= hi <= |s| && Free(s, c, lo, hi)
    ensures Without(s[lo..hi], c)
  {
  }

  lemma LeftShaped(left: string)
    requires ParseLeft(left).Success?
    ensures var c := ParseLeft(left).value;
            c == New(c.user, c.passwd, c.net, c.addr)
            && Without(c.user, ':') && Without(c.net, '@') && Without(c.net, '(') && Without(c.addr, '@')
  {
    hide First, Last;
    var j := Last(left, '@');
    var cred := if j < 0 then "" else left[..j];
    SliceWithout(cred, ':', 0, First(cred, ':'));
    var e := left[j + 1..];
    SliceWithout(left, '@', j + 1, |left|);
    var p := First(e, '(');
    SliceWithout(e, '(', 0, p);
    SliceWithout(e, '@', 0, p);
    if p < |e| && e[|e| - 1] == ')' {
      SliceWithout(e, '@', p + 1, |e| - 1);
    }
    assert e[..|e|] == e;
  }

  /** Options leave the rest of a configuration alone and cannot smuggle separators in. */
  lemma ApplyShaped(c: Config, piece: string, x: char)
    requires |c.flags| == FLAGS && Without(piece, x) && Without(c.collation, x) && Apply(c, piece).Success?
    ensures var r := Apply(c, piece).value;
            Without(r.collation, x) && r == c.(collation := r.collation, flags := r.flags, others := r.others)
  {
    hide First, FlagOf, ReadBool;
    var n := First(piece, '=');
    if n < |piece| {
      SliceWithout(piece, x, n + 1, |piece|);
    }
  }

  lemma {:induction false} ParamsShaped(c: Config, params: string, x: char)
    requires |c.flags| == FLAGS && (x == '&' || Without(params, x)) && Without(c.collation, x)
    requires ParseParams(c, params).Success?
    ensures var r := ParseParams(c, params).value;
            Without(r.collation, x) && r == c.(collation := r.collation, flags := r.flags, others := r.others)
    decreases |params|
  {
    hide First, Apply;
    var n := First(params, '&');
    SliceWithout(params, x, 0, n);
    ApplyShaped(c, params[..n], x);
    if n < |params| {
      if x != '&' {
        SliceWithout(params, x, n + 1, |params|);
      }
      ParamsShaped(Apply(c, params[..n]).value, params[n + 1..], x);
    }
  }

  lemma RightShaped(c: Config, right: string)
    requires |c.flags| == FLAGS && Without(right, '/') && c.collation == DEFAULT_COLLATION
    requires ParseRight(c, right).Success?
    ensures var r := ParseRight(c, right).value;
            Without(r.collation, '/') && Without(r.collation, '&') && Without(r.dbName, '/') && Without(r.dbName, '?')
            && r == c.(dbName := r.dbName, collation := r.collation, flags := r.flags, others := r.others)
  {
    hide First, ParseParams;
    var q := First(right, '?');
    SliceWithout(right, '?', 0, q);
    SliceWithout(right, '/', 0, q);
    if q < |right| {
      SliceWithout(right, '/', q + 1, |right|);
      ParamsShaped(c, right[q + 1..], '/');
      ParamsShaped(c, right[q + 1..], '&');
    }
  }

  lemma FinishShaped(c: Config)
    requires |c.flags| == FLAGS && Without(c.net, '@') && Without(c.net, '(') && Without(c.addr, '@')
    requires Finish(c).Success?
    ensures var r := Finish(c).value;
            r == c.(net := r.net, addr := r.addr)
            && r.net != "" && Without(r.net, '@') && Without(r.net, '(') && r.addr != "" && Without(r.addr, '@')
            && !(r.flags[INTERPOLATE_PARAMS] && UnsafeCollation(r.collation))
  {
    hide UnsafeCollation;
  }

  lemma ParsedShaped(dsn: string)
    requires Parse(dsn).Success?
    ensures Shaped(Parse(dsn).value)
  {
    hide ParseLeft, ParseRight, Finish, Last, UnsafeCollation;
    var i := Last(dsn, '/');
    if i < 0 {
      FinishShaped(New("", "", "", ""));
    } else {
      LeftShaped(dsn[..i]);
      var l := ParseLeft(dsn[..i]).value;
      SliceWithout(dsn, '/', i + 1, |dsn|);
      RightShaped(l, dsn[i + 1..]);
      FinishShaped(ParseRight(l, dsn[i + 1..]).value);
    }
  }

  /** A configuration is recovered from its printed form exactly when it is printable. */
  lemma RoundTrip(c: Config)
    requires |c.flags| == FLAGS && c.others == []
    ensures Parse(Format(c)) == Success(c) <==> Printable(c)
  {
    hide Parse, Format, UnsafeCollation, Without;
    if Printable(c) {
      PrintedParses(c);
    } else if Parse(Format(c)) == Success(c) {
      Reparse(Format(c), c);
      assert false;
    }
  }

  /** What printing drops: a password without a user, and an empty collation. */
  function Normal(c: Config): Config {
    c.(passwd := if c.user == "" then "" else c.passwd,
       collation := if c.collation == "" then DEFAULT_COLLATION else c.collation)
  }

  /** Any name that parses can be printed in normal form and parsed again. */
  lemma Reparse(dsn: string, c: Config)
    requires Parse(dsn) == Success(c) && c.others == []
    ensures |c.flags| == FLAGS && Printable(Normal(c)) && Parse(Format(c)) == Success(Normal(c))
  {
    hide Parse, Format, UnsafeCollation, Without;
    ParsedShaped(dsn);
    SamePrint(c);
    NormalPrintable(c);
    PrintedParses(Normal(c));
  }

  lemma SamePrint(c: Config)
    requires |c.flags| == FLAGS
    ensures Format(c) == Format(Normal(c))
  {
    hide FlagPieces, Query;
  }

  lemma NormalPrintable(c: Config)
    requires Shaped(c)
    ensures Printable(Normal(c))
  {
  }

  // ---------- the code ----------

  /** Appends one option to the text, after `?` or `&`. */
  method AddPiece(buf: string, hasParam: bool, piece: string, ghost base: string, ghost pieces: seq<string>)
    returns (out: string, has: bool)
    requires buf == base + Query(pieces) && hasParam == (pieces != [])
    ensures out == base + Query(pieces + [piece]) && has
  {
    hide Query;
    QuerySnoc(pieces, piece);
    return buf + (if hasParam then "&" else "?") + piece, true;
  }

  lemma QuerySnoc(pieces: seq<string>, piece: string)
    ensures Query(pieces + [piece]) == Query(pieces) + (if pieces == [] then "?" else "&") + piece
  {
    if pieces != [] {
      JoinSnoc(pieces, piece);
    }
  }

  lemma {:induction false} JoinSnoc(pieces: seq<string>, piece: string)
    requires pieces != []
    ensures Join(pieces + [piece]) == Join(pieces) + "&" + piece
    decreases |pieces|
  {
    assert (pieces + [piece])[1..] == pieces[1..] + [piece];
    if |pieces| > 1 {
      JoinSnoc(pieces[1..], piece);
    }
  }

  /** `FormatDSN`, the part before the slash. */
  method FormatLeft(c: Config) returns (buf: string)
    ensures buf == Credentials(c) + Endpoint(c)
  {
    buf := "";
    if |c.user| > 0 {
      buf := buf + c.user;
      if |c.passwd| > 0 {
        buf := buf + ":" + c.passwd;
      }
      buf := buf + "@";
    }
    assert buf == Credentials(c);
    if |c.net| > 0 {
      buf := buf + c.net;
      if |c.addr| > 0 {
        buf := buf + "(" + c.addr + ")";
      }
    }
  }

  /** `FormatDSN`. */
  method FormatDSN(c: Config) returns (dsn: string)
    requires |c.flags| == FLAGS
    ensures dsn == Format(c)
  {
    hide Query, FlagPieces, FlagName, Credentials, Endpoint;
    var buf := FormatLeft(c);
    buf := buf + "/" + c.dbName;
    ghost var base := buf;
    var hasParam := false;
    NoPieces(base);
    buf, hasParam := AddFlags(buf, hasParam, c.flags, 0, 5, base, []);
    ghost var pieces := [] + FlagPieces(c.flags, 0, 5);
    if c.collation != DEFAULT_COLLATION && |c.collation| > 0 {
      buf, hasParam := AddPiece(buf, hasParam, "collation=" + c.collation, base, pieces);
    }
    assert pieces + CollationPieces(c) == FlagPieces(c.flags, 0, 5) + CollationPieces(c);
    assert pieces + [] == pieces;
    buf, hasParam := AddFlags(buf, hasParam, c.flags, 5, FLAGS, base, pieces + CollationPieces(c));
    dsn := buf;
    assert base + Query(Pieces(c)) == Format(c);
  }

  lemma NoPieces(base: string)
    ensures base + Query([]) == base
  {
  }

  /** A stretch of the printer's boolean options, one after the other. */
  method AddFlags(buf: string, hasParam: bool, flags: seq<bool>, lo: nat, hi: nat, ghost base: string,
                  ghost pieces: seq<string>)
    returns (out: string, has: bool)
    requires lo <= hi <= FLAGS && |flags| == FLAGS
    requires buf == base + Query(pieces) && hasParam == (pieces != [])
    ensures var all := pieces + FlagPieces(flags, lo, hi);
            out == base + Query(all) && has == (all != [])
  {
    hide Query, FlagName;
    out, has := buf, hasParam;
    assert pieces + FlagPieces(flags, lo, lo) == pieces;
    for k := lo to hi
      invariant var all := pieces + FlagPieces(flags, lo, k);
                out == base + Query(all) && has == (all != [])
    {
      ghost var all := pieces + FlagPieces(flags, lo, k);
      if flags[k] {
        out, has := AddPiece(out, has, FlagName(k) + "=true", base, all);
        assert pieces + FlagPieces(flags, lo, k + 1) == all + [FlagName(k) + "=true"];
      } else {
        assert pieces + FlagPieces(flags, lo, k + 1) == all;
      }
    }
  }

  /** A forward scan for a character. */
  method ScanFirst(s: string, c: char) returns (n: nat)
    ensures n == First(s, c)
  {
    hide First;
    n := 0;
    while n < |s| && s[n] != c
      invariant n <= |s| && Free(s, c, 0, n)
    {
      n := n + 1;
    }
    FirstIs(s, c, n);
  }

  /** A backward scan for a character. */
  method ScanLast(s: string, c: char) returns (n: int)
    ensures n == Last(s, c)
  {
    hide Last;
    n := |s| - 1;
    while n >= 0 && s[n] != c
      invariant -1 <= n < |s| && Free(s, c, n + 1, |s|)
    {
      n := n - 1;
    }
    LastIs(s, c, n);
  }

  /** `parseDSNParams`. */
  method ParseDSNParams(cfg: Config, params: string) returns (r: Result<Config, Error>)
    requires |cfg.flags| == FLAGS
    ensures r == ParseParams(cfg, params)
  {
    hide First, Apply;
    var c, rest := cfg, params;
    while true
      invariant |c.flags| == FLAGS && ParseParams(c, rest) == ParseParams(cfg, params)
      decreases |rest|
    {
      var n := ScanFirst(rest, '&');
      var applied := Apply(c, rest[..n]);
      if applied.Failure? || n == |rest| {
        return applied;
      }
      c, rest := applied.value, rest[n + 1..];
    }
  }

  /** `ParseDSN`, the part before the slash. */
  method ParseDSNLeft(left: string) returns (r: Result<Config, Error>)
    ensures r == ParseLeft(left)
  {
    hide First, Last, New;
    var user, passwd := "", "";
    var j := ScanLast(left, '@');
    var k := 0;
    if j >= 0 {
      k := ScanFirst(left[..j], ':');
      if k < j {
        passwd := left[..j][k + 1..];
      }
      user := left[..j][..k];
    } else {
      FirstMissing("", ':');
    }
    var endpoint, addr := left[j + 1..], "";
    k := ScanFirst(endpoint, '(');
    if k < |endpoint| {
      if endpoint[|endpoint| - 1] != ')' {
        var closing := ScanFirst(endpoint[k + 1..], ')');
        return Failure(if closing < |endpoint| - k - 1 then InvalidUnescaped else InvalidAddr);
      }
      addr := endpoint[k + 1..|endpoint| - 1];
    }
    assert k == |endpoint| ==> endpoint[..k] == endpoint;
    r := Success(New(user, passwd, endpoint[..k], addr));
  }

  /** `ParseDSN`. */
  method ParseDSN(dsn: string) returns (r: Result<Config, Error>)
    ensures r == Parse(dsn)
  {
    hide First, Last, ParseParams, ParseLeft, Finish;
    var cfg := New("", "", "", "");
    var i := ScanLast(dsn, '/');
    if i >= 0 {
      var left := ParseDSNLeft(dsn[..i]);
      if left.Failure? {
        return left;
      }
      cfg := left.value;
      var right := dsn[i + 1..];
      var q := ScanFirst(right, '?');
      if q < |right| {
        var parsed := ParseDSNParams(cfg, right[q + 1..]);
        if parsed.Failure? {
          return parsed;
        }
        cfg := parsed.value;
      }
      cfg := cfg.(dbName := right[..q]);
    } else if |dsn| > 0 {
      return Failure(NoSlash);
    }
    r := Finish(cfg);
  }
}
