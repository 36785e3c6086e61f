/**
 What a data source name says, read off its text: who, where, which database, and for every
 option the last piece that names it.  `Parse` makes exactly that of every name.
 */
module MysqlDsnMeaning {
  import opened Wrappers
  import opened MysqlDsn

  // ---------- options ----------

  /** `piece` gives option `key` a value: what stands behind the `=`. */
  predicate Names(piece: string, key: string) { Without(key, '=') && key + "=" <= piece }

  function Given(piece: string, key: string): string
    requires Names(piece, key)
  {
    piece[|key| + 1..]
  }

  /** The value the last piece that names an option gives it. */
  function LastGiven(pieces: seq<string>, key: string): Option<string> {
    if pieces == [] then None
    else
      var piece := pieces[|pieces| - 1];
      if Names(piece, key) then Some(Given(piece, key)) else LastGiven(pieces[..|pieces| - 1], key)
  }

  predicate Yes(value: string) { value == "1" || value == "true" || value == "TRUE" || value == "True" }

  predicate No(value: string) { value == "0" || value == "false" || value == "FALSE" || value == "False" }

  predicate Flag(key: string) {
    key in {"allowAllFiles", "allowCleartextPasswords", "allowNativePasswords", "allowOldPasswords",
            "clientFoundRows", "columnsWithAlias", "interpolateParams", "multiStatements", "parseTime", "strict"}
  }

  /** What is wrong with a piece: compression is not supported, and a flag must be a boolean. */
  function Wrong(piece: string): Option<Error> {
    var n := First(piece, '=');
    if n == |piece| then None
    else
      var key, value := piece[..n], piece[n + 1..];
      if key == "compress" then Some(NoCompression)
      else if Flag(key) && !Yes(value) && !No(value) then Some(InvalidBool)
      else None
  }

  /** The first thing that is wrong. */
  function FirstWrong(pieces: seq<string>): Option<Error> {
    if pieces == [] then None
    else if Wrong(pieces[0]).Some? then Wrong(pieces[0])
    else FirstWrong(pieces[1..])
  }

  /** The pieces with other keys, in order. */
  function Remaining(pieces: seq<string>): seq<(string, string)> {
    if pieces == [] then []
    else
      var n := First(pieces[0], '=');
      var key := pieces[0][..n];
      (if n == |pieces[0]| || Flag(key) || key == "collation" || key == "compress" then []
       else [(key, pieces[0][n + 1..])])
      + Remaining(pieces[1..])
  }

  function Switched(pieces: seq<string>, key: string): bool {
    var v := LastGiven(pieces, key);
    v.Some? && Yes(v.value)
  }

  function Collation(pieces: seq<string>): string {
    var v := LastGiven(pieces, "collation");
    if v.Some? then v.value else "utf8_general_ci"
  }

  // ---------- who and where ----------

  /** The part before the slash: whether there is an `@`, what stands before it, and the
      network with the address in brackets, if there are brackets. */
  datatype Left = Left(at: bool, user: string, passwd: Option<string>, net: string, addr: Option<string>)

  ghost predicate Readable(l: Left) {
    && Without(l.user, ':') && Without(l.net, '@') && Without(l.net, '(')
    && (l.addr.Some? ==> Without(l.addr.value, '@'))
  }

  function CredText(l: Left): string {
    if l.at then l.user + (if l.passwd.Some? then ":" + l.passwd.value else "") + "@" else ""
  }

  function LeftText(l: Left): string {
    CredText(l) + (l.net + (if l.addr.Some? then "(" + l.addr.value + ")" else ""))
  }

  /** The same with the address left open: its bracket does not end the part. */
  function OpenText(l: Left): string
    requires l.addr.Some?
  {
    CredText(l) + (l.net + "(" + l.addr.value)
  }

  function Network(l: Left): string { if l.net == "" then "tcp" else l.net }

  function Address(l: Left): string {
    if l.addr.Some? && l.addr.value != "" then l.addr.value
    else if Network(l) == "tcp" then "127.0.0.1:3306"
    else if Network(l) == "unix" then "/tmp/mysql.sock"
    else ""
  }

  /** Interpolation is not safe with these character sets, as their second bytes may look like
      quotes and backslashes. */
  predicate Unsafe(collation: string) {
    || collation in {"big5" + "_bin", "gb2312" + "_bin", "gbk" + "_bin", "sjis" + "_bin", "cp932" + "_bin"}
    || collation in {"big5" + "_chinese_ci", "gbk" + "_chinese_ci"}
    || collation in {"sjis" + "_japanese_ci", "cp932" + "_japanese_ci"}
  }

  /** What a name with these parts stands for. */
  function Says(l: Left, dbName: string, pieces: seq<string>): Result<Config, Error> {
    if FirstWrong(pieces).Some? then Failure(FirstWrong(pieces).value)
    else if Switched(pieces, "interpolateParams") && Unsafe(Collation(pieces)) then
      Failure(UnsafeInterpolation)
    else if Address(l) == "" then Failure(UnknownNet)
    else
      Success(Config(
        if l.at then l.user else "", if l.at && l.passwd.Some? then l.passwd.value else "",
        Network(l), Address(l), dbName, Collation(pieces),
        seq(FLAGS, k requires 0 <= k < FLAGS => Switched(pieces, FlagName(k))), Remaining(pieces)))
  }

  // ---------- one piece ----------

  lemma NamesIs(piece: string, key: string)
    requires Without(key, '=')
    ensures var n := First(piece, '=');
            Names(piece, key) <==> n < |piece| && piece[..n] == key
    ensures Names(piece, key) ==> Given(piece, key) == piece[First(piece, '=') + 1..]
  {
    hide First;
    var n := First(piece, '=');
    if Names(piece, key) {
      assert piece[..|key| + 1] == key + "=";
      assert forall i :: 0 <= i < |key| ==> piece[i] == (key + "=")[i] == key[i];
      FirstIs(piece, '=', |key|);
      assert piece[..|key|] == (key + "=")[..|key|] == key;
    }
    if n < |piece| {
      assert piece[..n + 1] == piece[..n] + "=";
    }
  }

  lemma FlagNamed(key: string)
    ensures FlagOf(key).Some? <==> Flag(key)
    ensures FlagOf(key).Some? ==> FlagName(FlagOf(key).value) == key
  {
    hide FlagName;
    FlagNames();
  }

  lemma FlagNames()
    ensures FlagName(0) == "allowAllFiles" && FlagName(1) == "allowCleartextPasswords"
    ensures FlagName(2) == "allowNativePasswords" && FlagName(3) == "allowOldPasswords"
    ensures FlagName(4) == "clientFoundRows" && FlagName(5) == "columnsWithAlias"
    ensures FlagName(6) == "interpolateParams" && FlagName(7) == "multiStatements"
    ensures FlagName(8) == "parseTime" && FlagName(9) == "strict"
  {
  }

  // ---------- what is printed ----------

  /** The options, in the order they are printed in. */
  const EARLY := ["allowAllFiles", "allowCleartextPasswords", "allowNativePasswords", "allowOldPasswords",
                  "clientFoundRows"]
  const LATE := ["columnsWithAlias", "interpolateParams", "multiStatements", "parseTime", "strict"]
  const NAMES := EARLY + ["collation"] + LATE

  /** The value an option is printed with, none for one that has its default. */
  function Shown(c: Config, name: string): Option<string>
    requires |c.flags| == FLAGS
  {
    if name == "collation" then if c.collation in {"", "utf8_general_ci"} then None else Some(c.collation)
    else if FlagOf(name).Some? && c.flags[FlagOf(name).value] then Some("true")
    else None
  }

  function Chosen(c: Config, names: seq<string>): seq<string>
    requires |c.flags| == FLAGS
  {
    if names == [] then []
    else
      var v := Shown(c, names[|names| - 1]);
      Chosen(c, names[..|names| - 1]) + if v.Some? then [names[|names| - 1] + "=" + v.value] else []
  }

  lemma {:induction false} ChosenBoth(c: Config, a: seq<string>, b: seq<string>)
    requires |c.flags| == FLAGS
    ensures Chosen(c, a + b) == Chosen(c, a) + Chosen(c, b)
    decreases |b|
  {
    hide Shown;
    if b == [] {
      assert a + b == a;
    } else {
      ChosenBoth(c, a, b[..|b| - 1]);
      var all := a + b;
      assert all[..|all| - 1] == a + b[..|b| - 1] && all[|all| - 1] == b[|b| - 1];
    }
  }

  lemma {:induction false} FlagsChosen(c: Config, names: seq<string>, lo: nat, hi: nat)
    requires |c.flags| == FLAGS && lo <= hi <= FLAGS && |names| == hi - lo
    requires forall i :: 0 <= i < |names| ==> FlagOf(names[i]) == Some(lo + i) && names[i] == FlagName(lo + i)
    requires forall i :: 0 <= i < |names| ==> names[i] != "collation"
    ensures FlagPieces(c.flags, lo, hi) == Chosen(c, names)
    decreases hi
  {
    hide FlagOf, FlagName;
    if lo < hi {
      FlagsChosen(c, names[..|names| - 1], lo, hi - 1);
      assert names[|names| - 1] + "=" + "true" == names[|names| - 1] + "=true";
    }
  }

  /** The printed options: those that do not have their defaults, each once, in this order. */
  lemma PrintedIs(c: Config)
    requires |c.flags| == FLAGS
    ensures Pieces(c) == Chosen(c, NAMES)
  {
    hide Chosen, FlagPieces;
    NamesListed();
    FlagsChosen(c, EARLY, 0, 5);
    FlagsChosen(c, LATE, 5, FLAGS);
    ChosenBoth(c, EARLY + ["collation"], LATE);
    ChosenBoth(c, EARLY, ["collation"]);
    CollationChosen(c);
  }

  lemma CollationChosen(c: Config)
    requires |c.flags| == FLAGS
    ensures CollationPieces(c) == Chosen(c, ["collation"])
  {
    assert ["collation"][..0] == [];
    assert "collation" + "=" + c.collation == "collation=" + c.collation;
  }

  lemma NamesListed()
    ensures |EARLY| == |LATE| == 5
    ensures forall i :: 0 <= i < 5 ==> FlagOf(EARLY[i]) == Some(i) && EARLY[i] == FlagName(i)
    ensures forall i :: 0 <= i < 5 ==> FlagOf(LATE[i]) == Some(5 + i) && LATE[i] == FlagName(5 + i)
    ensures forall i :: 0 <= i < 5 ==> EARLY[i] != "collation" && LATE[i] != "collation"
  {
    hide FlagName, FlagOf;
    FlagNames();
    CollationKey();
    forall k: nat | k < FLAGS ensures FlagOf(FlagName(k)) == Some(k) {
      NameFlag(k);
    }
  }

  function OrNone(s: string): Option<string> { if s == "" then None else Some(s) }

  /** What is printed in front of the slash: a password only with a user, and an address only
      with a network. */
  function Shows(c: Config): Left {
    Left(c.user != "", c.user, OrNone(c.passwd), c.net, if c.net == "" then None else OrNone(c.addr))
  }

  /** The whole name. */
  lemma PrintedName(c: Config)
    requires |c.flags| == FLAGS
    ensures Format(c) == LeftText(Shows(c)) + "/" + (c.dbName + Query(Chosen(c, NAMES)))
  {
    hide Chosen, Pieces, Join, NAMES;
    PrintedIs(c);
    assert Credentials(c) == CredText(Shows(c));
    assert Credentials(c) + Endpoint(c) == LeftText(Shows(c));
  }

  lemma BoolRead(value: string)
    ensures ReadBool(value) == if Yes(value) then Some(true) else if No(value) then Some(false) else None
  {
  }

  /** The configuration after some pieces. */
  ghost predicate Holds(c0: Config, pieces: seq<string>, c: Config)
    requires |c0.flags| == FLAGS
  {
    && c == c0.(collation := c.collation, flags := c.flags, others := c0.others + Remaining(pieces))
    && |c.flags| == FLAGS
    && (forall k :: 0 <= k < FLAGS ==> FlagHolds(c0.flags[k], pieces, FlagName(k), c.flags[k]))
    && c.collation == (var v := LastGiven(pieces, "collation"); if v.Some? then v.value else c0.collation)
  }

  ghost predicate FlagHolds(b0: bool, pieces: seq<string>, key: string, b: bool) {
    var v := LastGiven(pieces, key);
    if v.Some? then b == Yes(v.value) else b == b0
  }

  lemma LastGivenSnoc(pieces: seq<string>, piece: string, key: string)
    ensures LastGiven(pieces + [piece], key)
         == if Names(piece, key) then Some(Given(piece, key)) else LastGiven(pieces, key)
  {
    assert (pieces + [piece])[..|pieces + [piece]| - 1] == pieces;
  }

  lemma {:induction false} RemainingSnoc(pieces: seq<string>, piece: string)
    ensures Remaining(pieces + [piece]) == Remaining(pieces) + Remaining([piece])
  {
    hide First, Flag;
    if pieces == [] {
      assert pieces + [piece] == [piece];
    } else {
      assert (pieces + [piece])[1..] == pieces[1..] + [piece];
      RemainingSnoc(pieces[1..], piece);
    }
  }

  lemma {:induction false} FirstWrongSnoc(pieces: seq<string>, piece: string)
    ensures FirstWrong(pieces + [piece])
         == if FirstWrong(pieces).Some? then FirstWrong(pieces) else Wrong(piece)
  {
    hide Wrong;
    if pieces == [] {
      assert pieces + [piece] == [piece] && [piece][1..] == [];
    } else {
      assert (pieces + [piece])[1..] == pieces[1..] + [piece];
      FirstWrongSnoc(pieces[1..], piece);
    }
  }

  lemma RemainingOne(piece: string)
    ensures var n := First(piece, '='); var key := piece[..n];
            Remaining([piece]) == if n == |piece| || Flag(key) || key == "collation" || key == "compress" then []
                                  else [(key, piece[n + 1..])]
  {
    hide First, Flag;
    assert [piece][1..] == [];
  }

  lemma CollationKey()
    ensures Without("collation", '=') && !Flag("collation") && !Flag("compress")
  {
  }

  /** One more piece. */
  lemma ApplyHolds(c0: Config, pieces: seq<string>, c: Config, piece: string)
    requires |c0.flags| == FLAGS && Holds(c0, pieces, c)
    ensures var r := Apply(c, piece);
            if Wrong(piece).Some? then r == Failure(Wrong(piece).value)
            else r.Success? && Holds(c0, pieces + [piece], r.value)
  {
    hide First, Flag, FlagOf, FlagName, ReadBool, Remaining, LastGiven, Yes, No, Names, Given, FlagHolds;
    var n := First(piece, '=');
    var r := Apply(c, piece);
    FlagNamed(piece[..n]);
    CollationKey();
    if n < |piece| {
      BoolRead(piece[n + 1..]);
    }
    RemainingSnoc(pieces, piece);
    RemainingOne(piece);
    if Wrong(piece).None? {
      assert r.Success?;
      OthersHold(c0, pieces, c, piece, r.value);
      CollationHolds(pieces, piece, c0.collation, c.collation, r.value.collation);
      forall k: nat | k < FLAGS ensures FlagHolds(c0.flags[k], pieces + [piece], FlagName(k), r.value.flags[k]) {
        FlagApplied(c0, pieces, c, piece, k);
      }
    }
  }

  lemma OthersHold(c0: Config, pieces: seq<string>, c: Config, piece: string, r: Config)
    requires c.others == c0.others + Remaining(pieces) && r.others == c.others + Remaining([piece])
    ensures r.others == c0.others + Remaining(pieces + [piece])
  {
    hide Remaining;
    RemainingSnoc(pieces, piece);
  }

  lemma CollationHolds(pieces: seq<string>, piece: string, d: string, was: string, now: string)
    requires was == (var v := LastGiven(pieces, "collation"); if v.Some? then v.value else d)
    requires var n := First(piece, '=');
             now == if n < |piece| && piece[..n] == "collation" then piece[n + 1..] else was
    ensures now == (var v := LastGiven(pieces + [piece], "collation"); if v.Some? then v.value else d)
  {
    hide First, LastGiven, Names, Given;
    CollationKey();
    NamesIs(piece, "collation");
    LastGivenSnoc(pieces, piece, "collation");
  }

  lemma FlagApplied(c0: Config, pieces: seq<string>, c: Config, piece: string, k: nat)
    requires |c0.flags| == FLAGS && |c.flags| == FLAGS && k < FLAGS
    requires FlagHolds(c0.flags[k], pieces, FlagName(k), c.flags[k]) && Wrong(piece).None?
    ensures Apply(c, piece).Success?
    ensures FlagHolds(c0.flags[k], pieces + [piece], FlagName(k), Apply(c, piece).value.flags[k])
  {
    hide First, Flag, FlagOf, FlagName, ReadBool, LastGiven, Yes, No, Names, Given, Word;
    var n := First(piece, '=');
    var key := piece[..n];
    NameWord(k);
    WordWithout(FlagName(k), '=');
    NameFlag(k);
    FlagNamed(key);
    if n < |piece| {
      BoolRead(piece[n + 1..]);
    }
    NamesIs(piece, FlagName(k));
    LastGivenSnoc(pieces, piece, FlagName(k));
    CollationKey();
  }

  /** All pieces in order. */
  lemma {:induction false} ApplyAllHolds(c0: Config, pieces: seq<string>)
    requires |c0.flags| == FLAGS
    ensures var r := ApplyAll(c0, pieces);
            if FirstWrong(pieces).Some? then r == Failure(FirstWrong(pieces).value)
            else r.Success? && Holds(c0, pieces, r.value)
    decreases |pieces|
  {
    hide Apply, Holds, Wrong;
    if pieces == [] {
      NothingHolds(c0);
    } else {
      var most, piece := pieces[..|pieces| - 1], pieces[|pieces| - 1];
      assert pieces == most + [piece];
      ApplyAllHolds(c0, most);
      FirstWrongSnoc(most, piece);
      if FirstWrong(most).None? {
        ApplyHolds(c0, most, ApplyAll(c0, most).value, piece);
      }
    }
  }

  lemma NothingHolds(c: Config)
    requires |c.flags| == FLAGS
    ensures Holds(c, [], c)
  {
    hide FlagName;
    assert c.others + [] == c.others;
  }

  // ---------- the parts of a name ----------

  ghost predicate EndpointIs(e: string, net: string, addr: Option<string>) {
    var p := First(e, '(');
    if addr.Some? then p < |e| && e[|e| - 1] == ')' && e[..p] == net && e[p + 1..|e| - 1] == addr.value
    else p == |e| && e == net
  }

  lemma LeftFrom(left: string, j: int, user: string, passwd: string, net: string, addr: Option<string>)
    requires Last(left, '@') == j && CredOk(if j < 0 then "" else left[..j], user, passwd)
    requires EndpointIs(left[j + 1..], net, addr)
    ensures ParseLeft(left) == Success(New(user, passwd, net, if addr.Some? then addr.value else ""))
  {
    hide First, Last, New, Free;
  }

  lemma LeftSays(l: Left)
    requires Readable(l)
    ensures ParseLeft(LeftText(l))
         == Success(New(if l.at then l.user else "", if l.at && l.passwd.Some? then l.passwd.value else "",
                        l.net, if l.addr.Some? then l.addr.value else ""))
  {
    hide First, Last, New, Without, ParseLeft, EndpointIs, CredOk;
    var cred := l.user + (if l.passwd.Some? then ":" + l.passwd.value else "");
    var e := l.net + (if l.addr.Some? then "(" + l.addr.value + ")" else "");
    EndpointFree(l);
    EndpointSays(l.net, l.addr);
    if l.at {
      assert LeftText(l) == cred + ['@'] + e;
      LastBetween(cred, '@', e);
      CredentialsSay(l.user, l.passwd);
      LeftFrom(LeftText(l), |cred|, l.user, if l.passwd.Some? then l.passwd.value else "", l.net, l.addr);
    } else {
      assert LeftText(l) == e && e[0..] == e;
      FirstMissing(e, '@');
      NoCredentials();
      LeftFrom(e, -1, "", "", l.net, l.addr);
    }
  }

  lemma NoCredentials()
    ensures CredOk("", "", "")
  {
  }

  lemma EndpointFree(l: Left)
    requires Readable(l)
    ensures Without(l.net + (if l.addr.Some? then "(" + l.addr.value + ")" else ""), '@')
  {
    hide Without;
    if l.addr.Some? {
      Brackets();
      WithoutConcat("(", l.addr.value, '@');
      WithoutConcat("(" + l.addr.value, ")", '@');
      WithoutConcat(l.net, "(" + l.addr.value + ")", '@');
    } else {
      assert l.net + "" == l.net;
    }
  }

  lemma Brackets()
    ensures Without("(", '@') && Without(")", '@')
  {
  }

  lemma CredentialsSay(user: string, passwd: Option<string>)
    requires Without(user, ':')
    ensures CredOk(user + (if passwd.Some? then ":" + passwd.value else ""), user,
                   if passwd.Some? then passwd.value else "")
  {
    hide First, Without;
    if passwd.Some? {
      assert user + (":" + passwd.value) == user + [':'] + passwd.value;
      FirstBetween(user, ':', passwd.value);
    } else {
      assert user + "" == user;
      FirstMissing(user, ':');
    }
  }

  lemma EndpointSays(net: string, addr: Option<string>)
    requires Without(net, '(')
    ensures EndpointIs(net + (if addr.Some? then "(" + addr.value + ")" else ""), net, addr)
  {
    hide First, Without;
    if addr.Some? {
      var e := net + ("(" + addr.value + ")");
      assert e == net + ['('] + (addr.value + ")");
      FirstBetween(net, '(', addr.value + ")");
      assert e[|net| + 1..|e| - 1] == e[|net| + 1..][..|addr.value|];
    } else {
      assert net + "" == net;
      FirstMissing(net, '(');
    }
  }

  /** A bracket that opens an address must be closed at the end of the part before the slash. */
  lemma OpenSays(l: Left)
    requires Readable(l) && l.addr.Some? && (l.addr.value == "" || l.addr.value[|l.addr.value| - 1] != ')')
    ensures ParseLeft(OpenText(l)) == Failure(if ')' in l.addr.value then InvalidUnescaped else InvalidAddr)
  {
    hide First, Last, New, Without, ParseLeft;
    var addr := l.addr.value;
    var e := l.net + "(" + addr;
    OpenFree(l);
    if l.at {
      var cred := l.user + (if l.passwd.Some? then ":" + l.passwd.value else "");
      assert OpenText(l) == cred + ['@'] + e;
      LastBetween(cred, '@', e);
      OpenFrom(OpenText(l), |cred|, l.net, addr);
    } else {
      assert OpenText(l) == e && e[0..] == e;
      FirstMissing(e, '@');
      OpenFrom(e, -1, l.net, addr);
    }
  }

  lemma OpenFree(l: Left)
    requires Readable(l) && l.addr.Some?
    ensures Without(l.net + "(" + l.addr.value, '@')
  {
    hide Without;
    Brackets();
    WithoutConcat(l.net, "(", '@');
    WithoutConcat(l.net + "(", l.addr.value, '@');
  }

  lemma OpenFrom(left: string, j: int, net: string, addr: string)
    requires Last(left, '@') == j && left[j + 1..] == net + "(" + addr
    requires Without(net, '(') && (addr == "" || addr[|addr| - 1] != ')')
    ensures ParseLeft(left) == Failure(if ')' in addr then InvalidUnescaped else InvalidAddr)
  {
    hide First, Last, New, Without, ParseLeft;
    var e := net + ['('] + addr;
    assert left[j + 1..] == e;
    FirstBetween(net, '(', addr);
    assert e[|e| - 1] == if addr == "" then '(' else addr[|addr| - 1];
    FirstOrNone(addr, ')');
    LeftOpen(left, j, e, |net|);
  }

  lemma LeftOpen(left: string, j: int, e: string, p: nat)
    requires Last(left, '@') == j && e == left[j + 1..] && First(e, '(') == p < |e| && e[|e| - 1] != ')'
    ensures ParseLeft(left)
         == Failure(if First(e[p + 1..], ')') < |e| - p - 1 then InvalidUnescaped else InvalidAddr)
  {
    hide First, Last, New, Free;
  }

  lemma FirstOrNone(s: string, c: char)
    ensures First(s, c) < |s| <==> c in s
  {
    hide First;
    assert First(s, c) == |s| ==> forall i :: 0 <= i < |s| ==> s[i] != c;
  }

  lemma QueryHolds(c0: Config, dbName: string, pieces: seq<string>)
    requires |c0.flags| == FLAGS && Without(dbName, '?') && AllWithout(pieces, '&')
    ensures var r := ParseRight(c0, dbName + Query(pieces));
            if FirstWrong(pieces).Some? then r == Failure(FirstWrong(pieces).value)
            else r.Success? && r.value.dbName == dbName && Holds(c0, pieces, r.value.(dbName := c0.dbName))
  {
    hide First, Without, Holds, FirstWrong, ParseParams, ApplyAll, Join;
    ApplyAllHolds(c0, pieces);
    if pieces == [] {
      assert dbName + "" == dbName;
      FirstMissing(dbName, '?');
      NoneWrong();
      NothingHolds(c0);
    } else {
      assert dbName + Query(pieces) == dbName + ['?'] + Join(pieces);
      FirstBetween(dbName, '?', Join(pieces));
      ParamsJoined(c0, pieces);
    }
    SameName(c0, pieces);
  }

  lemma NoneWrong()
    ensures FirstWrong([]) == None
  {
  }

  lemma SameName(c0: Config, pieces: seq<string>)
    requires |c0.flags| == FLAGS
    ensures forall c, name :: Holds(c0, pieces, c) ==> c.(dbName := name).(dbName := c0.dbName) == c
  {
    hide Remaining, FlagHolds, LastGiven;
  }

  /** The main result: every name with these parts is parsed to what they say. */
  lemma NameSays(l: Left, dbName: string, pieces: seq<string>)
    requires Readable(l) && Without(dbName, '/') && Without(dbName, '?')
    requires AllWithout(pieces, '&') && AllWithout(pieces, '/')
    ensures Parse(LeftText(l) + "/" + (dbName + Query(pieces))) == Says(l, dbName, pieces)
  {
    hide Last, First, Without, ParseLeft, ParseRight, Readable, Holds, Finish, Says, LeftText, FirstWrong, New, Join;
    var left, right := LeftText(l), dbName + Query(pieces);
    JoinWithout(pieces, '/');
    QueryWithout(pieces);
    WithoutConcat(dbName, Query(pieces), '/');
    assert left + "/" + right == left + ['/'] + right;
    LastBetween(left, '/', right);
    LeftSays(l);
    var c0 := ParseLeft(left).value;
    QueryHolds(c0, dbName, pieces);
    if FirstWrong(pieces).Some? {
      WrongSays(l, dbName, pieces);
    } else {
      FinishSays(l, dbName, pieces, c0, ParseRight(c0, right).value);
    }
  }

  lemma WrongSays(l: Left, dbName: string, pieces: seq<string>)
    requires FirstWrong(pieces).Some?
    ensures Says(l, dbName, pieces) == Failure(FirstWrong(pieces).value)
  {
  }

  lemma FinishSays(l: Left, dbName: string, pieces: seq<string>, c0: Config, c: Config)
    requires c0 == New(if l.at then l.user else "", if l.at && l.passwd.Some? then l.passwd.value else "",
                       l.net, if l.addr.Some? then l.addr.value else "")
    requires FirstWrong(pieces).None? && c.dbName == dbName && Holds(c0, pieces, c.(dbName := c0.dbName))
    ensures |c.flags| == FLAGS && Finish(c) == Says(l, dbName, pieces)
  {
    hide UnsafeCollation, Unsafe, Remaining, LastGiven, FlagName, Yes, FirstWrong;
    UnsafeIs(c.collation);
    forall k: nat | k < FLAGS ensures c.flags[k] == Switched(pieces, FlagName(k)) {
      assert FlagHolds(c0.flags[k], pieces, FlagName(k), c.flags[k]);
    }
    assert c.flags == seq(FLAGS, k requires 0 <= k < FLAGS => Switched(pieces, FlagName(k)));
    FlagNames();
    assert c.collation == Collation(pieces) && c.others == Remaining(pieces);
  }

  lemma UnsafeIs(c: string)
    ensures UnsafeCollation(c) <==> Unsafe(c)
  {
    assert "big5" + "_bin" == "big5_bin" && "gb2312" + "_bin" == "gb2312_bin" && "gbk" + "_bin" == "gbk_bin";
    assert "sjis" + "_bin" == "sjis_bin" && "cp932" + "_bin" == "cp932_bin";
    assert "big5" + "_chinese_ci" == "big5_chinese_ci" && "gbk" + "_chinese_ci" == "gbk_chinese_ci";
    assert "sjis" + "_japanese_ci" == "sjis_japanese_ci" && "cp932" + "_japanese_ci" == "cp932_japanese_ci";
  }

  // ---------- every name has such parts ----------

  function Split(s: string): (pieces: seq<string>)
    ensures pieces != []
    decreases |s|
  {
    var n := First(s, '&');
    if n == |s| then [s] else [s[..n]] + Split(s[n + 1..])
  }

  lemma {:induction false} SplitJoins(s: string)
    ensures Join(Split(s)) == s && AllWithout(Split(s), '&')
    decreases |s|
  {
    hide First;
    var n := First(s, '&');
    SliceWithout(s, '&', 0, n);
    if n < |s| {
      SplitJoins(s[n + 1..]);
      assert Split(s)[1..] == Split(s[n + 1..]);
      assert s == s[..n] + "&" + s[n + 1..];
    } else {
      assert s[..n] == s;
    }
  }

  lemma {:induction false} SplitWithout(s: string, c: char)
    requires Without(s, c)
    ensures AllWithout(Split(s), c)
    decreases |s|
  {
    hide First;
    var n := First(s, '&');
    SliceWithout(s, c, 0, n);
    if n < |s| {
      SliceWithout(s, c, n + 1, |s|);
      SplitWithout(s[n + 1..], c);
    }
  }

  function Cred(left: string): string {
    var j := Last(left, '@');
    if j < 0 then "" else left[..j]
  }

  function End(left: string): string { left[Last(left, '@') + 1..] }

  function Closed(e: string): bool { First(e, '(') == |e| || e[|e| - 1] == ')' }

  function AddrOf(e: string): Option<string> {
    var p := First(e, '(');
    if p == |e| then None else Some(if Closed(e) then e[p + 1..|e| - 1] else e[p + 1..])
  }

  function PasswdOf(cred: string): Option<string> {
    var k := First(cred, ':');
    if k < |cred| then Some(cred[k + 1..]) else None
  }

  /** Any part before the slash has such parts, or an address left open. */
  lemma LeftParts(left: string) returns (l: Left)
    ensures Readable(l)
    ensures left == LeftText(l)
            || (l.addr.Some? && (l.addr.value == "" || l.addr.value[|l.addr.value| - 1] != ')') && left == OpenText(l))
  {
    hide First, Last, Readable, LeftText, OpenText, Cred, End, AddrOf, PasswdOf, Closed;
    var cred, e := Cred(left), End(left);
    l := Left(Last(left, '@') >= 0, cred[..First(cred, ':')], PasswdOf(cred), e[..First(e, '(')], AddrOf(e));
    PartsReadable(left, l);
    CredParts(left, l);
    EndParts(e, l);
  }

  lemma CredParts(left: string, l: Left)
    requires l.at == (Last(left, '@') >= 0)
    requires l.user == Cred(left)[..First(Cred(left), ':')] && l.passwd == PasswdOf(Cred(left))
    ensures left == CredText(l) + End(left)
  {
    hide First, Last, Cred, PasswdOf;
    Rejoined(Cred(left));
    AtSign(left);
  }

  lemma Rejoined(cred: string)
    ensures cred == cred[..First(cred, ':')] + (if PasswdOf(cred).Some? then ":" + PasswdOf(cred).value else "")
  {
    hide First;
  }

  lemma AtSign(left: string)
    ensures left == (if Last(left, '@') < 0 then "" else Cred(left) + "@") + End(left)
  {
    hide Last;
  }

  lemma EndParts(e: string, l: Left)
    requires l.net == e[..First(e, '(')] && l.addr == AddrOf(e)
    ensures if Closed(e) then LeftText(l) == CredText(l) + e
            else l.addr.Some? && OpenText(l) == CredText(l) + e
                 && (l.addr.value == "" || l.addr.value[|l.addr.value| - 1] != ')')
  {
    hide First, CredText, Free;
    var p := First(e, '(');
    if p == |e| {
      assert e == e[..p] + "";
    } else if Closed(e) {
      assert e == e[..p] + ("(" + e[p + 1..|e| - 1] + ")");
    } else {
      assert e == e[..p] + "(" + e[p + 1..];
    }
  }

  lemma PartsReadable(left: string, l: Left)
    requires l.user == Cred(left)[..First(Cred(left), ':')] && l.net == End(left)[..First(End(left), '(')]
    requires l.addr == AddrOf(End(left))
    ensures Readable(l)
  {
    hide First, Last, Cred, End, AddrOf;
    var cred, e := Cred(left), End(left);
    SliceWithout(cred, ':', 0, First(cred, ':'));
    EndFree(left);
    SliceWithout(e, '(', 0, First(e, '('));
    SliceWithout(e, '@', 0, First(e, '('));
    AddrFree(e);
  }

  lemma EndFree(left: string)
    ensures Without(End(left), '@')
  {
    hide Last;
    SliceWithout(left, '@', Last(left, '@') + 1, |left|);
  }

  lemma AddrFree(e: string)
    requires Without(e, '@')
    ensures AddrOf(e).Some? ==> Without(AddrOf(e).value, '@')
  {
    hide First;
    var p := First(e, '(');
    if p < |e| {
      SliceWithout(e, '@', p + 1, if Closed(e) then |e| - 1 else |e|);
    }
  }

  /** Any part after the slash has such parts. */
  lemma RightParts(right: string) returns (dbName: string, pieces: seq<string>)
    requires Without(right, '/')
    ensures right == dbName + Query(pieces) && Without(dbName, '/') && Without(dbName, '?')
    ensures AllWithout(pieces, '&') && AllWithout(pieces, '/')
  {
    hide First, Without, Split, Join;
    var q := First(right, '?');
    dbName := right[..q];
    SliceWithout(right, '?', 0, q);
    SliceOf(right, '/', q);
    if q == |right| {
      pieces := [];
    } else {
      pieces := Split(right[q + 1..]);
      SplitJoins(right[q + 1..]);
      SplitWithout(right[q + 1..], '/');
      assert right == dbName + ("?" + right[q + 1..]);
    }
  }

  lemma SliceOf(s: string, c: char, q: nat)
    requires Without(s, c) && q <= |s|
    ensures Without(s[..q], c) && (q < |s| ==> Without(s[q + 1..], c))
  {
  }

  /** So every name there is falls under this: with a slash, it has parts and is parsed to what
      they say, or its address is left open; without one, only the empty name stands for
      something, the defaults. */
  lemma EveryName(dsn: string) returns (l: Left, right: string, dbName: string, pieces: seq<string>)
    ensures '/' !in dsn ==>
              Parse(dsn) == if dsn != "" then Failure(NoSlash)
                            else Success(Config("", "", "tcp", "127.0.0.1:3306", "", "utf8_general_ci", NoFlags(), []))
    ensures '/' in dsn ==>
              && Readable(l) && right == dbName + Query(pieces) && AllWithout(pieces, '&')
              && ((dsn == LeftText(l) + "/" + right && Parse(dsn) == Says(l, dbName, pieces))
                  || (l.addr.Some? && dsn == OpenText(l) + "/" + right
                      && Parse(dsn) == Failure(if ')' in l.addr.value then InvalidUnescaped else InvalidAddr)))
  {
    hide First, Last, ParseLeft, ParseRight, Without, Readable, Says, LeftText, OpenText, Join, Parse;
    var i := Last(dsn, '/');
    if i < 0 {
      l, right, dbName, pieces := Left(false, "", None, "", None), "", "", [];
      NoSlashes(dsn);
    } else {
      right := dsn[i + 1..];
      assert dsn == dsn[..i] + "/" + right;
      SliceWithout(dsn, '/', i + 1, |dsn|);
      assert dsn[i + 1..|dsn|] == right;
      l := LeftParts(dsn[..i]);
      dbName, pieces := RightParts(right);
      if dsn[..i] == LeftText(l) {
        NameSays(l, dbName, pieces);
      } else {
        OpenSays(l);
        LeftFails(dsn);
      }
    }
  }

  lemma NoSlashes(dsn: string)
    requires Last(dsn, '/') < 0
    ensures '/' !in dsn
    ensures Parse(dsn) == if dsn != "" then Failure(NoSlash)
                          else Success(Config("", "", "tcp", "127.0.0.1:3306", "", "utf8_general_ci", NoFlags(), []))
  {
    hide UnsafeCollation, Last;
  }

  lemma LeftFails(dsn: string)
    requires var i := Last(dsn, '/'); i >= 0 && ParseLeft(dsn[..i]).Failure?
    ensures Parse(dsn) == ParseLeft(dsn[..Last(dsn, '/')])
  {
    hide Last, ParseLeft;
  }
}
