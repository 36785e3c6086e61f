/**
 The etcd key under which a service registers itself, `/api/<project>/<host>/<port>`: how
 `apiKey` prints it and how the gateway takes it apart again.
 */
module ServiceKey {
  import opened Numerals
  import opened Wrappers

  const PREFIX := "/api/"

  /** The range of a 64-bit `int`. */
  const MAX_INT: int := 0x7fff_ffff_ffff_ffff
  const MIN_INT: int := -0x8000_0000_0000_0000

  // ---------- splitting at slashes ----------

  /** `strings.Split(s, "/")`. */
  function Split(s: string): (r: seq<string>)
    ensures r != []
  {
    if s == "" then [""]
    else
      var r := Split(s[1..]);
      if s[0] == '/' then [""] + r else [[s[0]] + r[0]] + r[1..]
  }

  /** `strings.Join(ss, "/")`. */
  function Join(ss: seq<string>): string {
    if ss == [] then "" else if |ss| == 1 then ss[0] else ss[0] + "/" + Join(ss[1..])
  }

  lemma {:induction false} SplitAt(a: string, b: string)
    ensures Split(a + "/" + b) == Split(a) + Split(b)
    decreases |a|
  {
    var s := a + "/" + b;
    if a == "" {
      assert s[1..] == b;
    } else {
      assert s[1..] == a[1..] + "/" + b;
      SplitAt(a[1..], b);
    }
  }

  lemma {:induction false} SplitNone(s: string)
    requires '/' !in s
    ensures Split(s) == [s]
    decreases |s|
  {
    if s != "" {
      SplitNone(s[1..]);
      assert [s[0]] + s[1..] == s;
    }
  }

  lemma {:induction false} SplitPieces(s: string, i: nat)
    requires i < |Split(s)|
    ensures '/' !in Split(s)[i]
    decreases |s|
  {
    if s != "" {
      if s[0] == '/' {
        if i > 0 {
          SplitPieces(s[1..], i - 1);
        }
      } else {
        SplitPieces(s[1..], i);
      }
    }
  }

  lemma {:induction false} JoinSplit(s: string)
    ensures Join(Split(s)) == s
    decreases |s|
  {
    if s != "" {
      var r := Split(s[1..]);
      JoinSplit(s[1..]);
      if s[0] == '/' {
        assert ([""] + r)[1..] == r;
      } else {
        JoinHead([s[0]], r);
      }
    }
  }

  lemma JoinHead(c: string, r: seq<string>)
    requires r != []
    ensures Join([c + r[0]] + r[1..]) == c + Join(r)
  {
    var t := [c + r[0]] + r[1..];
    assert t[1..] == r[1..];
  }

  // ---------- numbers ----------

  /** What `port, _ := strconv.Atoi(s)` yields: 0 for anything but a number, and the nearest
      number for one out of range. */
  function Atoi(s: string): int {
    var n := Number(s);
    if n > MAX_INT then MAX_INT else if n < MIN_INT then MIN_INT else n
  }

  // ---------- the key ----------

  datatype Key = Key(name: string, host: string, port: int)

  /** `apiKey`. */
  function ApiKey(k: Key): string { PREFIX + k.name + "/" + k.host + "/" + Itoa(k.port) }

  /** The watchers' reading of a key. */
  function ParseKey(key: string): Option<Key> {
    var ss := Split(key);
    var n := |ss|;
    if n < 4 then None else Some(Key(Join(ss[2..n - 2]), ss[n - 2], Atoi(ss[n - 1])))
  }

  /** There is one piece more than there are slashes. */
  lemma {:induction false} SplitCount(s: string)
    ensures |Split(s)| == multiset(s)['/'] + 1
    decreases |s|
  {
    if s != "" {
      SplitCount(s[1..]);
      assert s == [s[0]] + s[1..];
    }
  }

  /** A key is passed over exactly when it has fewer than three slashes. */
  lemma KeyIgnored(key: string)
    ensures ParseKey(key).None? <==> multiset(key)['/'] < 3
  {
    hide Split, Join, Atoi;
    SplitCount(key);
  }

  /** Any other key: the first two pieces are not looked at, the last two are host and port,
      and the name is what stands between them, with its slashes. */
  lemma KeyReads(first: string, second: string, name: string, host: string, port: string)
    requires '/' !in first && '/' !in second && '/' !in host && '/' !in port
    ensures ParseKey(first + "/" + second + "/" + name + "/" + host + "/" + port) == Some(Key(name, host, Atoi(port)))
    ensures ParseKey(first + "/" + second + "/" + host + "/" + port) == Some(Key("", host, Atoi(port)))
  {
    hide Split, Atoi;
    SplitNone(first);
    SplitNone(second);
    SplitNone(host);
    SplitNone(port);
    var front := first + "/" + second;
    SplitAt(first, second);
    SplitAt(front, name);
    SplitAt(front + "/" + name, host);
    SplitAt(front + "/" + name + "/" + host, port);
    var long := Split(front + "/" + name + "/" + host + "/" + port);
    assert long[2..|long| - 2] == Split(name);
    JoinSplit(name);
    SplitAt(front, host);
    SplitAt(front + "/" + host, port);
    var short := Split(front + "/" + host + "/" + port);
    assert short[2..|short| - 2] == [];
  }

  /** A port is cut off at the ends of the range. */
  lemma PortRead(port: string)
    ensures MIN_INT <= Atoi(port) <= MAX_INT
    ensures MIN_INT <= Number(port) <= MAX_INT ==> Atoi(port) == Number(port)
    ensures Number(port) < MIN_INT ==> Atoi(port) == MIN_INT
    ensures Number(port) > MAX_INT ==> Atoi(port) == MAX_INT
  {
    hide Number;
  }

  lemma KeyPieces(k: Key)
    requires MIN_INT <= k.port <= MAX_INT
    ensures Split(ApiKey(k)) == ["", "api"] + Split(k.name) + Split(k.host) + [Itoa(k.port)]
  {
    hide Split, Itoa;
    ItoaRead(k.port);
    var rest := k.name + "/" + k.host + "/" + Itoa(k.port);
    assert ApiKey(k) == "" + "/" + ("api" + "/" + rest);
    SplitAt("", "api" + "/" + rest);
    SplitAt("api", rest);
    SplitNone("");
    SplitNone("api");
    SplitAt(k.name + "/" + k.host, Itoa(k.port));
    SplitAt(k.name, k.host);
    SplitNone(Itoa(k.port));
  }

  /** A printed key parses back to what it was printed from exactly when the host has no
      slash; the project path may have any. */
  lemma KeyRoundTrip(k: Key)
    requires MIN_INT <= k.port <= MAX_INT
    ensures ParseKey(ApiKey(k)) == Some(k) <==> '/' !in k.host
  {
    hide Split, Itoa, Join, Number, ApiKey;
    KeyPieces(k);
    ItoaRead(k.port);
    var ss := Split(ApiKey(k));
    if '/' in k.host {
      SplitPieces(ApiKey(k), |ss| - 2);
    } else {
      SplitNone(k.host);
      assert ss[2..|ss| - 2] == Split(k.name);
      JoinSplit(k.name);
    }
  }
}
