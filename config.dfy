/**
 * Start-up configuration (`load_servers` and `main`): the indexed server
 * entries, the keyword list, the sink flags and the choice of sinks. The
 * environment is given as data and the port conversion `int(port)` as an
 * abstract partial parser.
 */
module Config {
  import opened Wrappers
  import opened Text
  import opened Worker

  /** SERVER_<i>_NAME, _HOST, _PORT and _PASSWORD for one index; None when unset. */
  datatype ServerVars = ServerVars(name: Option<string>, host: Option<string>, port: Option<string>, password: Option<string>)

  datatype ServerConfig = ServerConfig(name: string, host: string, port: int, password: string)

  /** The variables of the recorder that `main` reads, with `servers` indexed by i. */
  datatype Environment = Environment(
    servers: map<nat, ServerVars>,
    logKeywords: Option<string>,
    saveToDb: Option<string>,
    saveToFile: Option<string>,
    logFilePath: Option<string>)

  datatype StartupError = NoServers | NoSinkEnabled | AllSinksFailed

  /** What the workers are started with. */
  datatype Plan = Plan(servers: seq<ServerConfig>, keywords: seq<string>, sinks: Sinks, logFilePath: string)

  const DefaultLogFilePath: string := "hll_logs.log"

  /** A value Python treats as true: set and non-empty. */
  predicate Truthy(v: Option<string>) {
    v.Some? && v.value != ""
  }

  /** `all([name, host, port, password])` */
  predicate Complete(v: ServerVars) {
    Truthy(v.name) && Truthy(v.host) && Truthy(v.port) && Truthy(v.password)
  }

  function VarsAt(env: map<nat, ServerVars>, i: nat): ServerVars {
    if i in env then env[i] else ServerVars(None, None, None, None)
  }

  function KeysFrom(env: map<nat, ServerVars>, i: nat): set<nat> {
    set k | k in env && k >= i
  }

  /**
   * The servers `load_servers` collects from index i on: it stops at the first
   * incomplete entry and skips an entry whose port does not parse, so it
   * loads at most one server per index that is set.
   */
  function ScanServers(env: map<nat, ServerVars>, parsePort: string -> Option<int>, i: nat): (servers: seq<ServerConfig>)
    ensures |servers| <= |KeysFrom(env, i)|
    decreases |KeysFrom(env, i)|
  {
    var v := VarsAt(env, i);
    if !Complete(v) then []
    else
      assert KeysFrom(env, i) == KeysFrom(env, i + 1) + {i};
      match parsePort(v.port.value)
      case None => ScanServers(env, parsePort, i + 1)
      case Some(p) => [ServerConfig(v.name.value, v.host.value, p, v.password.value)] + ScanServers(env, parsePort, i + 1)
  }

  /** `s` is the server built from the variables `v`. */
  predicate LoadedFrom(s: ServerConfig, v: ServerVars, parsePort: string -> Option<int>) {
    Complete(v) && s.name == v.name.value && s.host == v.host.value && s.password == v.password.value
    && parsePort(v.port.value) == Some(s.port)
  }

  /**
   * Every loaded server comes from an index k whose port parsed, and every
   * index from i up to k is complete: nothing after a gap is loaded.
   */
  lemma {:induction false} ScanServersSound(env: map<nat, ServerVars>, parsePort: string -> Option<int>, i: nat)
    ensures forall s :: s in ScanServers(env, parsePort, i) ==>
      s.name != "" && s.host != "" && s.password != "" &&
      exists k :: k >= i && LoadedFrom(s, VarsAt(env, k), parsePort) &&
                  (forall j :: i <= j <= k ==> Complete(VarsAt(env, j)))
    decreases |KeysFrom(env, i)|
  {
    var v := VarsAt(env, i);
    if Complete(v) {
      assert KeysFrom(env, i) == KeysFrom(env, i + 1) + {i};
      ScanServersSound(env, parsePort, i + 1);
      forall s | s in ScanServers(env, parsePort, i)
        ensures exists k :: k >= i && LoadedFrom(s, VarsAt(env, k), parsePort) &&
                            (forall j :: i <= j <= k ==> Complete(VarsAt(env, j)))
      {
        if s !in ScanServers(env, parsePort, i + 1) {
          assert LoadedFrom(s, v, parsePort);
        } else {
          var k :| k >= i + 1 && LoadedFrom(s, VarsAt(env, k), parsePort) &&
            forall j :: i + 1 <= j <= k ==> Complete(VarsAt(env, j));
          assert forall j :: i <= j <= k ==> Complete(VarsAt(env, j));
        }
      }
    }
  }

  /** Conversely, an entry reached without a gap whose port parses is loaded. */
  lemma {:induction false} ScanServersComplete(env: map<nat, ServerVars>, parsePort: string -> Option<int>, i: nat, k: nat)
    requires i <= k
    requires forall j :: i <= j <= k ==> Complete(VarsAt(env, j))
    requires Complete(VarsAt(env, k)) && parsePort(VarsAt(env, k).port.value).Some?
    ensures var v := VarsAt(env, k);
      ServerConfig(v.name.value, v.host.value, parsePort(v.port.value).value, v.password.value) in ScanServers(env, parsePort, i)
    decreases k - i
  {
    if i < k {
      ScanServersComplete(env, parsePort, i + 1, k);
    }
  }

  /** Entries after the first incomplete index g never influence the result. */
  lemma {:induction false} ScanIgnoresAfterGap(env: map<nat, ServerVars>, env': map<nat, ServerVars>, parsePort: string -> Option<int>, i: nat, g: nat)
    requires i <= g && !Complete(VarsAt(env, g))
    requires forall j :: i <= j <= g ==> VarsAt(env, j) == VarsAt(env', j)
    ensures ScanServers(env, parsePort, i) == ScanServers(env', parsePort, i)
    decreases g - i
  {
    if i < g {
      ScanIgnoresAfterGap(env, env', parsePort, i + 1, g);
    }
  }

  /** `load_servers`: scan SERVER_1_*, SERVER_2_*, ... until an entry is incomplete. */
  method LoadServers(env: map<nat, ServerVars>, parsePort: string -> Option<int>) returns (servers: seq<ServerConfig>)
    ensures servers == ScanServers(env, parsePort, 1)
  {
    servers := [];
    var i: nat := 1;
    while true
      invariant servers + ScanServers(env, parsePort, i) == ScanServers(env, parsePort, 1)
      decreases |KeysFrom(env, i)|
    {
      var v := VarsAt(env, i);
      if !Complete(v) {
        break;
      }
      match parsePort(v.port.value) {
        case Some(p) =>
          servers := servers + [ServerConfig(v.name.value, v.host.value, p, v.password.value)];
        case None =>
      }
      assert KeysFrom(env, i) == KeysFrom(env, i + 1) + {i};
      i := i + 1;
    }
    assert servers + [] == servers;
  }

  /** `[k.strip() for k in pieces if k.strip()]`: at most one non-empty filter per piece. */
  function KeepStripped(pieces: seq<string>): (filters: seq<string>)
    ensures |filters| <= |pieces|
    ensures forall k :: k in filters ==> k != ""
  {
    if pieces == [] then []
    else (if Strip(pieces[0]) != "" then [Strip(pieces[0])] else []) + KeepStripped(pieces[1..])
  }

  /** The keyword filters named in LOG_KEYWORDS: each is non-empty, already stripped and free of commas. */
  function Filters(raw: string): (filters: seq<string>)
    ensures forall k :: k in filters ==> k != "" && Strip(k) == k && ',' !in k
  {
    var pieces := Split(raw, ',');
    assert forall p :: p in pieces ==> ',' !in p;
    KeepStrippedWellFormed(pieces);
    KeepStripped(pieces)
  }

  /** Every filter is non-empty, already stripped and free of commas. */
  lemma {:induction false} KeepStrippedWellFormed(pieces: seq<string>)
    requires forall p :: p in pieces ==> ',' !in p
    ensures forall k :: k in KeepStripped(pieces) ==> k != "" && Strip(k) == k && ',' !in k
  {
    if pieces != [] {
      KeepStrippedWellFormed(pieces[1..]);
      var t := Strip(pieces[0]);
      assert pieces[0] in pieces;
      StripIdempotent(pieces[0]);
      var i := StripSlice(pieces[0]);
      assert t == pieces[0][i..i + |t|];
      assert ',' !in t;
    }
  }

  lemma {:induction false} KeepStrippedConcat(a: seq<string>, b: seq<string>)
    ensures KeepStripped(a + b) == KeepStripped(a) + KeepStripped(b)
  {
    if a != [] {
      assert (a + b)[1..] == a[1..] + b;
      KeepStrippedConcat(a[1..], b);
    } else {
      assert a + b == b;
    }
  }

  /** The filters keep the comma order: those of `a,b` are those of a followed by those of b. */
  lemma FiltersConcat(a: string, b: string)
    ensures Filters(a + [','] + b) == Filters(a) + Filters(b)
  {
    SplitConcat(a, b, ',');
    KeepStrippedConcat(Split(a, ','), Split(b, ','));
  }

  /**
   * `main`'s keyword list: the filters of LOG_KEYWORDS, or the single empty
   * keyword (fetch everything) when there are none.
   */
  method NormalizeKeywords(raw: string) returns (keywords: seq<string>)
    ensures keywords != []
    ensures keywords == [""] <==> Filters(raw) == []
    ensures Filters(raw) != [] ==> keywords == Filters(raw)
    ensures keywords == [""] || forall k :: k in keywords ==> k != "" && Strip(k) == k
  {
    keywords := Filters(raw);
    if keywords == [] {
      keywords := keywords + [""];
    }
  }

  function LowerChar(c: char): char {
    if 'A' <= c <= 'Z' then (c as int + 32) as char else c
  }

  /** `str.lower()` restricted to ASCII letters. */
  function LowerAscii(s: string): (r: string)
    ensures |r| == |s|
    ensures forall i :: 0 <= i < |s| ==> r[i] == LowerChar(s[i])
  {
    if s == [] then [] else [LowerChar(s[0])] + LowerAscii(s[1..])
  }

  /** `os.getenv(name, "False").lower() == 'true'` */
  function ParseFlag(v: Option<string>): (on: bool)
    ensures on <==> (v.Some? && |v.value| == 4 &&
      v.value[0] in "tT" && v.value[1] in "rR" && v.value[2] in "uU" && v.value[3] in "eE")
  {
    LowerAscii(v.GetOr("False")) == "true"
  }

  /**
   * Examples of the flag reading: four of the sixteen capitalisations of
   * "true" switch a sink on; other spellings of yes, and "true" with
   * surrounding blanks, do not.
   */
  lemma ParseFlagExamples()
    ensures ParseFlag(Some("true")) && ParseFlag(Some("True")) && ParseFlag(Some("TRUE")) && ParseFlag(Some("tRuE"))
    ensures !ParseFlag(Some("1")) && !ParseFlag(Some("yes")) && !ParseFlag(Some(" true")) && !ParseFlag(None)
  {
  }

  /**
   * The sink decision of `main`: at least one sink must be requested; a
   * requested database that cannot be reached is dropped, which is fatal
   * only when files are not requested either.
   */
  method SelectSinks(saveToDb: bool, saveToFile: bool, dbConnected: bool) returns (r: Result<Sinks, StartupError>)
    ensures r.Failure? <==> !saveToFile && !(saveToDb && dbConnected)
    ensures r.Failure? ==> r.error == if saveToDb then AllSinksFailed else NoSinkEnabled
    ensures r.Success? ==> r.value.db == (saveToDb && dbConnected) && r.value.file == saveToFile
    ensures r.Success? ==> r.value.db || r.value.file
  {
    var db := saveToDb;
    if !db && !saveToFile {
      return Failure(NoSinkEnabled);
    }
    if db && !dbConnected {
      db := false;
      if !saveToFile {
        return Failure(AllSinksFailed);
      }
    }
    r := Success(Sinks(db, saveToFile));
  }

  /**
   * `main` up to starting the workers: no servers is fatal before anything
   * else is read; otherwise the keywords, flags and path are read and the
   * sinks chosen. `dbConnected` is whether `connect_db` would succeed.
   */
  method Startup(env: Environment, parsePort: string -> Option<int>, dbConnected: bool) returns (r: Result<Plan, StartupError>)
    ensures ScanServers(env.servers, parsePort, 1) == [] <==> r == Failure(NoServers)
    ensures r.Success? ==>
      var raw := env.logKeywords.GetOr("");
      r.value.servers == ScanServers(env.servers, parsePort, 1) &&
      r.value.keywords != [] &&
      (r.value.keywords == [""] <==> Filters(raw) == []) &&
      (Filters(raw) != [] ==> r.value.keywords == Filters(raw)) &&
      r.value.sinks == Sinks(ParseFlag(env.saveToDb) && dbConnected, ParseFlag(env.saveToFile)) &&
      r.value.logFilePath == env.logFilePath.GetOr(DefaultLogFilePath)
    ensures r.Failure? <==>
      ScanServers(env.servers, parsePort, 1) == [] || (!ParseFlag(env.saveToFile) && !(ParseFlag(env.saveToDb) && dbConnected))
    ensures r.Failure? && r.error != NoServers ==>
      r.error == if ParseFlag(env.saveToDb) then AllSinksFailed else NoSinkEnabled
  {
    var servers := LoadServers(env.servers, parsePort);
    if servers == [] {
      return Failure(NoServers);
    }
    var keywords := NormalizeKeywords(env.logKeywords.GetOr(""));
    var saveToDb := ParseFlag(env.saveToDb);
    var saveToFile := ParseFlag(env.saveToFile);
    var logFilePath := env.logFilePath.GetOr(DefaultLogFilePath);
    var sinks := SelectSinks(saveToDb, saveToFile, dbConnected);
    if sinks.Failure? {
      return Failure(sinks.error);
    }
    r := Success(Plan(servers, keywords, sinks.value, logFilePath));
  }
}
