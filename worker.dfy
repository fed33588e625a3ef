/**
 * The polling worker (`worker`, `save_log_to_file`): how a keyword becomes a
 * fetch command, which replies are forwarded, what the database row and the
 * file receive, and one pass over the keyword list. Sleeps, the endless
 * retry loops and the sink I/O themselves are outside the model; a pass
 * yields the ordered list of sink writes it would perform.
 */
module Worker {
  import opened Wrappers
  import opened Text
  import opened Cipher
  import opened Rcon

  /** Which sinks are enabled (`save_to_db`, `save_to_file`). */
  datatype Sinks = Sinks(db: bool, file: bool)

  /** One write to a sink: a database row (server name, content) or a file append (path, content). */
  datatype SinkWrite = DbInsert(server: string, content: string) | FileAppend(path: string, content: string)

  const FetchAll: string := "showlog 1"
  const FetchFilteredPrefix: string := "showlog 1 \""

  /** The log-fetch command for a keyword; the empty keyword fetches everything. */
  function FetchCommand(keyword: string): string {
    if keyword != "" then FetchFilteredPrefix + keyword + "\"" else FetchAll
  }

  /** Reads the keyword back out of a fetch command. */
  function CommandKeyword(command: string): Option<string> {
    if command == FetchAll then Some("")
    else if |command| >= |FetchFilteredPrefix| + 2 && command[..|FetchFilteredPrefix|] == FetchFilteredPrefix
            && command[|command| - 1] == '"'
    then Some(command[|FetchFilteredPrefix|..|command| - 1])
    else None
  }

  /** Every keyword is recovered from its command, so distinct keywords give distinct commands. */
  lemma FetchCommandRoundTrip(keyword: string)
    ensures CommandKeyword(FetchCommand(keyword)) == Some(keyword)
  {
    var c := FetchCommand(keyword);
    if keyword != "" {
      assert c[..|FetchFilteredPrefix|] == FetchFilteredPrefix;
      assert c[|FetchFilteredPrefix|..|c| - 1] == keyword;
      assert c != FetchAll by { assert |c| > |FetchAll|; }
    }
  }

  /**
   * `logs and logs.strip() != "SUCCESS"`: whether a reply is forwarded to the
   * sinks. An empty reply never is.
   */
  predicate ShouldDispatch(logs: string): (forward: bool)
    ensures forward ==> logs != ""
  {
    logs != "" && Strip(logs) != SuccessMarker
  }

  /** A non-empty reply made only of whitespace is forwarded: it strips to "", not to SUCCESS. */
  lemma WhitespaceReplyDispatched(logs: string)
    requires logs != "" && AllSpace(logs)
    ensures ShouldDispatch(logs)
  {
    StripEmptyIff(logs);
  }

  /**
   * Conversely, a non-empty reply that is held back is exactly the success
   * marker with whitespace around it; `i` is where the marker starts.
   */
  lemma HeldBackReplyIsPaddedSuccess(logs: string) returns (i: nat)
    requires logs != "" && !ShouldDispatch(logs)
    ensures i + |SuccessMarker| <= |logs| && logs[i..i + |SuccessMarker|] == SuccessMarker
    ensures AllSpace(logs[..i]) && AllSpace(logs[i + |SuccessMarker|..])
  {
    i := StripSlice(logs);
  }

  /** In particular, a non-empty reply that is held back contains the success marker. */
  lemma DroppedReplyHoldsMarker(logs: string)
    requires logs != "" && !ShouldDispatch(logs)
    ensures Contains(logs, SuccessMarker)
  {
    var i := StripSlice(logs);
    assert OccursAt(logs, SuccessMarker, i);
    ContainsIff(logs, SuccessMarker);
  }

  /** The bare success marker, with any whitespace around it, is never forwarded. */
  lemma PaddedSuccessNotDispatched(before: string, after: string)
    requires AllSpace(before) && AllSpace(after)
    ensures !ShouldDispatch(before + SuccessMarker + after)
  {
    StripPadding(before, SuccessMarker, after);
  }

  /** The tag a keyword gets in the database row. */
  function KeywordLabel(keyword: string): string {
    if keyword != "" then keyword else "ALL"
  }

  const PayloadPrefix: string := "Keyword: "

  /** The database content: `Keyword: <keyword or ALL>` on the first line, then the logs. */
  function DbPayload(keyword: string, logs: string): string {
    PayloadPrefix + KeywordLabel(keyword) + "\n" + logs
  }

  /** The row starts with `Keyword: ` and ends with a line break followed by the logs unchanged. */
  lemma DbPayloadShape(keyword: string, logs: string)
    ensures var payload := DbPayload(keyword, logs);
      |PayloadPrefix| + |logs| < |payload| && payload[..|PayloadPrefix|] == PayloadPrefix &&
      payload[|payload| - |logs| - 1] == '\n' && payload[|payload| - |logs|..] == logs
  {
  }

  /** Index of the first occurrence of `c` in `s`. */
  function IndexOf(s: string, c: char): (r: Option<nat>)
    ensures r.None? <==> c !in s
    ensures r.Some? ==> r.value < |s| && s[r.value] == c && c !in s[..r.value]
  {
    if s == [] then None
    else if s[0] == c then Some(0)
    else match IndexOf(s[1..], c)
      case None => None
      case Some(k) =>
        assert s[..k + 1] == [s[0]] + s[1..][..k];
        Some(k + 1)
  }

  /** Splits a database row back into its tag and its logs. */
  function ParsePayload(payload: string): Option<(string, string)> {
    if |payload| < |PayloadPrefix| || payload[..|PayloadPrefix|] != PayloadPrefix then None
    else
      var body := payload[|PayloadPrefix|..];
      match IndexOf(body, '\n')
      case None => None
      case Some(k) => Some((body[..k], body[k + 1..]))
  }

  /** For a keyword without a line break, the row gives back the tag and the logs unchanged. */
  lemma DbPayloadRoundTrip(keyword: string, logs: string)
    requires '\n' !in keyword
    ensures ParsePayload(DbPayload(keyword, logs)) == Some((KeywordLabel(keyword), logs))
  {
    var tag := KeywordLabel(keyword);
    var p := DbPayload(keyword, logs);
    assert p[..|PayloadPrefix|] == PayloadPrefix;
    var body := p[|PayloadPrefix|..];
    assert body == tag + "\n" + logs;
    assert '\n' !in tag;
    assert body[|tag|] == '\n';
    assert body[..|tag|] == tag;
    assert IndexOf(body, '\n') == Some(|tag|);
    assert body[|tag| + 1..] == logs;
  }

  /** The file-name part for a keyword. */
  function KeywordPart(keyword: string): string {
    if keyword != "" then keyword else "all"
  }

  /** `f"{server_name}_{keyword or 'all'}_{base}"` */
  function FileName(server: string, keyword: string, base: string): string {
    server + "_" + KeywordPart(keyword) + "_" + base
  }

  /** A file name starts with the server name and ends with the base path, with a non-empty part between them. */
  lemma FileNameShape(server: string, keyword: string, base: string)
    ensures var name := FileName(server, keyword, base);
      |server| + |base| + 2 < |name| &&
      name[..|server| + 1] == server + "_" && name[|name| - |base| - 1..] == "_" + base
  {
  }

  /**
   * For one server and base path, two keywords share a file exactly when
   * their file-name parts agree.
   */
  lemma FileNameSameServer(server: string, k1: string, k2: string, base: string)
    ensures FileName(server, k1, base) == FileName(server, k2, base) <==> KeywordPart(k1) == KeywordPart(k2)
  {
    var n1, n2 := FileName(server, k1, base), FileName(server, k2, base);
    if n1 == n2 {
      var p1, p2 := KeywordPart(k1), KeywordPart(k2);
      assert |p1| == |p2|;
      assert n1[|server| + 1..|server| + 1 + |p1|] == p1;
      assert n2[|server| + 1..|server| + 1 + |p2|] == p2;
    }
  }

  /** The naming is not injective: "all" and the empty keyword share a file, and so can servers and keywords with underscores. */
  lemma FileNameCollisions(server: string, base: string)
    ensures FileName(server, "all", base) == FileName(server, "", base)
    ensures FileName("a_b", "c", base) == FileName("a", "b_c", base)
  {
  }

  /** The writes one reply causes: a row if the database is enabled, then an append if files are. */
  function DispatchWrites(server: string, keyword: string, logs: string, sinks: Sinks, base: string): seq<SinkWrite> {
    if !ShouldDispatch(logs) then []
    else
      (if sinks.db then [DbInsert(server, DbPayload(keyword, logs))] else [])
      + (if sinks.file then [FileAppend(FileName(server, keyword, base), logs)] else [])
  }

  /** The writes of a pass over `keywords`, whose fetches got `replies`, in keyword order. */
  function CycleWrites(server: string, keywords: seq<string>, replies: seq<string>, sinks: Sinks, base: string): seq<SinkWrite>
    requires |keywords| == |replies|
  {
    if keywords == [] then []
    else
      var n := |keywords| - 1;
      CycleWrites(server, keywords[..n], replies[..n], sinks, base) + DispatchWrites(server, keywords[n], replies[n], sinks, base)
  }

  /** A pass over two keyword lists in a row writes what the two passes write, in that order. */
  lemma {:induction false} CycleWritesConcat(server: string, k1: seq<string>, r1: seq<string>, k2: seq<string>, r2: seq<string>, sinks: Sinks, base: string)
    requires |k1| == |r1| && |k2| == |r2|
    ensures CycleWrites(server, k1 + k2, r1 + r2, sinks, base)
         == CycleWrites(server, k1, r1, sinks, base) + CycleWrites(server, k2, r2, sinks, base)
    decreases |k2|
  {
    if k2 != [] {
      var n := |k2| - 1;
      var last := DispatchWrites(server, k2[n], r2[n], sinks, base);
      assert (k1 + k2)[..|k1| + n] == k1 + k2[..n];
      assert (r1 + r2)[..|r1| + n] == r1 + r2[..n];
      calc {
        CycleWrites(server, k1 + k2, r1 + r2, sinks, base);
        CycleWrites(server, k1 + k2[..n], r1 + r2[..n], sinks, base) + last;
        { CycleWritesConcat(server, k1, r1, k2[..n], r2[..n], sinks, base); }
        CycleWrites(server, k1, r1, sinks, base) + CycleWrites(server, k2[..n], r2[..n], sinks, base) + last;
      }
    } else {
      assert k1 + k2 == k1 && r1 + r2 == r1;
    }
  }

  /** Number of replies that are forwarded. */
  function DispatchedCount(replies: seq<string>): nat {
    if replies == [] then 0
    else DispatchedCount(replies[..|replies| - 1]) + (if ShouldDispatch(replies[|replies| - 1]) then 1 else 0)
  }

  /**
   * One reply causes one write per enabled sink if it is forwarded and none
   * otherwise; each write is a row or an append for that reply, the row first.
   */
  lemma DispatchWritesSpec(server: string, keyword: string, logs: string, sinks: Sinks, base: string)
    ensures var writes := DispatchWrites(server, keyword, logs, sinks, base);
      |writes| == (if ShouldDispatch(logs) then (if sinks.db then 1 else 0) + (if sinks.file then 1 else 0) else 0) &&
      (forall j :: 0 <= j < |writes| ==> WriteFor(writes[j], server, keyword, logs, sinks, base)) &&
      (|writes| == 2 ==> writes[0].DbInsert? && writes[1].FileAppend?)
  {
  }

  /** Each forwarded reply reaches every enabled sink once; nothing else is written. */
  lemma {:induction false} CycleWritesCount(server: string, keywords: seq<string>, replies: seq<string>, sinks: Sinks, base: string)
    requires |keywords| == |replies|
    ensures |CycleWrites(server, keywords, replies, sinks, base)|
         == (if sinks.db then DispatchedCount(replies) else 0) + (if sinks.file then DispatchedCount(replies) else 0)
  {
    if keywords != [] {
      var n := |keywords| - 1;
      CycleWritesCount(server, keywords[..n], replies[..n], sinks, base);
    }
  }

  /** The write `w` is one that forwarding `logs`, fetched for `keyword`, produces. */
  predicate WriteFor(w: SinkWrite, server: string, keyword: string, logs: string, sinks: Sinks, base: string) {
    ShouldDispatch(logs) &&
    match w
    case DbInsert(s, content) => sinks.db && s == server && content == DbPayload(keyword, logs)
    case FileAppend(path, content) => sinks.file && path == FileName(server, keyword, base) && content == logs
  }

  /** Every write of a pass comes from a forwarded reply of one of its keywords. */
  lemma {:induction false} CycleWritesSound(server: string, keywords: seq<string>, replies: seq<string>, sinks: Sinks, base: string)
    requires |keywords| == |replies|
    ensures forall w :: w in CycleWrites(server, keywords, replies, sinks, base) ==>
      exists i :: 0 <= i < |keywords| && WriteFor(w, server, keywords[i], replies[i], sinks, base)
  {
    if keywords != [] {
      var n := |keywords| - 1;
      CycleWritesSound(server, keywords[..n], replies[..n], sinks, base);
      forall w | w in CycleWrites(server, keywords, replies, sinks, base)
        ensures exists i :: 0 <= i < |keywords| && WriteFor(w, server, keywords[i], replies[i], sinks, base)
      {
        if w in CycleWrites(server, keywords[..n], replies[..n], sinks, base) {
          var i :| 0 <= i < n && WriteFor(w, server, keywords[..n][i], replies[..n][i], sinks, base);
          assert keywords[..n][i] == keywords[i] && replies[..n][i] == replies[i];
        } else {
          assert WriteFor(w, server, keywords[n], replies[n], sinks, base);
        }
      }
    }
  }

  /**
   * With keywords ["A", ""], file output only and replies that are all
   * forwarded, two passes append to exactly two distinct files, each twice,
   * in the order the replies were fetched.
   */
  lemma TwoPassesTwoFiles(server: string, base: string, first: seq<string>, second: seq<string>)
    requires |first| == 2 && |second| == 2
    requires forall i :: 0 <= i < 2 ==> ShouldDispatch(first[i]) && ShouldDispatch(second[i])
    ensures var a, all := FileName(server, "A", base), FileName(server, "", base);
      a != all &&
      CycleWrites(server, ["A", ""] + ["A", ""], first + second, Sinks(false, true), base)
        == [FileAppend(a, first[0]), FileAppend(all, first[1]), FileAppend(a, second[0]), FileAppend(all, second[1])]
  {
    FileNameSameServer(server, "A", "", base);
    CycleWritesConcat(server, ["A", ""], first, ["A", ""], second, Sinks(false, true), base);
    OneFilePass(server, base, first);
    OneFilePass(server, base, second);
  }

  lemma OneFilePass(server: string, base: string, replies: seq<string>)
    requires |replies| == 2 && ShouldDispatch(replies[0]) && ShouldDispatch(replies[1])
    ensures CycleWrites(server, ["A", ""], replies, Sinks(false, true), base)
         == [FileAppend(FileName(server, "A", base), replies[0]), FileAppend(FileName(server, "", base), replies[1])]
  {
    var sinks := Sinks(false, true);
    assert ["A", ""][..1] == ["A"] && replies[..1] == [replies[0]];
    assert ["A"][..0] == [] && [replies[0]][..0] == [];
    assert CycleWrites(server, ["A"], [replies[0]], sinks, base) == [FileAppend(FileName(server, "A", base), replies[0])];
  }

  /**
   * The body of the keyword loop after the fetch, as `PollCycle` and
   * `PollKeyword` run it: a forwarded reply goes to the database (labelled
   * with its keyword) and then to its file (as is).
   */
  method Forward(server: string, keyword: string, logs: string, sinks: Sinks, base: string)
    returns (writes: seq<SinkWrite>)
    ensures |writes| <= 2
    ensures writes == DispatchWrites(server, keyword, logs, sinks, base)
  {
    writes := [];
    if ShouldDispatch(logs) {
      var content := DbPayload(keyword, logs);
      if sinks.db {
        writes := writes + [DbInsert(server, content)];
      }
      if sinks.file {
        writes := writes + [FileAppend(FileName(server, keyword, base), logs)];
      }
    }
  }

  /**
   * One pass of the polling loop over a list of replies fetched in keyword
   * order: the commands it sends and the sink writes it performs.
   */
  method PollCycle(server: string, keywords: seq<string>, replies: seq<string>, sinks: Sinks, base: string)
    returns (commands: seq<string>, writes: seq<SinkWrite>)
    requires |replies| == |keywords|
    ensures |commands| == |keywords|
    ensures forall i :: 0 <= i < |keywords| ==> CommandKeyword(commands[i]) == Some(keywords[i])
    ensures writes == CycleWrites(server, keywords, replies, sinks, base)
  {
    commands, writes := [], [];
    for i := 0 to |keywords|
      invariant |commands| == i
      invariant forall j :: 0 <= j < i ==> CommandKeyword(commands[j]) == Some(keywords[j])
      invariant writes == CycleWrites(server, keywords[..i], replies[..i], sinks, base)
    {
      var keyword := keywords[i];
      var command := FetchCommand(keyword);
      FetchCommandRoundTrip(keyword);
      commands := commands + [command];
      var forwarded := Forward(server, keyword, replies[i], sinks, base);
      writes := writes + forwarded;
      assert keywords[..i + 1][..i] == keywords[..i] && replies[..i + 1][..i] == replies[..i];
    }
    assert keywords[..|keywords|] == keywords && replies[..|replies|] == replies;
  }

  /** One turn of the keyword loop on a logged-in session: send the keyword's command, read one reply, forward it. */
  method PollKeyword(session: RconSession, server: string, keyword: string, sinks: Sinks, base: string)
    returns (logs: string, writes: seq<SinkWrite>)
    requires session.socket == Open && HasKey(session.key)
    modifies session
    ensures session.socket == Open && session.key == old(session.key)
    ensures session.sent == old(session.sent) + [XorBytes(session.key.value, session.encode(FetchCommand(keyword)))]
    ensures var (chunk, rest) := Recv(old(session.inbound), ReplySize);
      logs == ReplyText(session.key.value, chunk, session.decode) && session.inbound == rest
    ensures writes == DispatchWrites(server, keyword, logs, sinks, base)
  {
    var command := FetchCommand(keyword);
    var reply := session.Send(command);
    logs := reply.value;
    writes := Forward(server, keyword, logs, sinks, base);
  }

  /** The obfuscated fetch commands of a pass, as written to the socket. */
  function WireCommands(key: Bytes, encode: string -> Bytes, keywords: seq<string>): (wire: seq<Bytes>)
    requires key != []
    ensures |wire| == |keywords|
    ensures forall i :: 0 <= i < |keywords| ==> wire[i] == XorBytes(key, encode(FetchCommand(keywords[i])))
  {
    if keywords == [] then []
    else
      var n := |keywords| - 1;
      WireCommands(key, encode, keywords[..n]) + [XorBytes(key, encode(FetchCommand(keywords[n])))]
  }

  lemma AppendAssoc<T>(a: seq<T>, b: seq<T>, c: seq<T>)
    ensures (a + b) + c == a + (b + c)
  {
  }

  /** The writes of a pass grow by those of each reply as it is read. */
  lemma CycleWritesStep(server: string, keywords: seq<string>, replies: seq<string>, logs: string, sinks: Sinks, base: string)
    requires |replies| < |keywords|
    ensures var i := |replies|;
      CycleWrites(server, keywords[..i + 1], replies + [logs], sinks, base)
        == CycleWrites(server, keywords[..i], replies, sinks, base) + DispatchWrites(server, keywords[i], logs, sinks, base)
  {
    var i := |replies|;
    assert keywords[..i + 1][..i] == keywords[..i] && (replies + [logs])[..i] == replies;
  }

  /** The frames of a pass grow by one obfuscated command per keyword. */
  lemma WireCommandsStep(key: Bytes, encode: string -> Bytes, keywords: seq<string>, i: nat)
    requires key != [] && i < |keywords|
    ensures WireCommands(key, encode, keywords[..i + 1])
         == WireCommands(key, encode, keywords[..i]) + [XorBytes(key, encode(FetchCommand(keywords[i])))]
  {
    assert keywords[..i + 1][..i] == keywords[..i];
  }

  /** Reading the next reply after the first `i` extends the exchange by that reply. */
  lemma ExchangeStep(key: Bytes, inbound0: seq<Bytes>, i: nat, decode: Bytes -> string, replies: seq<string>, pending: seq<Bytes>)
    requires key != []
    requires (replies, pending) == Exchange(key, inbound0, i, decode)
    ensures (replies + [ReplyText(key, Recv(pending, ReplySize).0, decode)], Recv(pending, ReplySize).1)
         == Exchange(key, inbound0, i + 1, decode)
  {
  }

  /** Sending the next keyword's frame after the first `i` keeps the sent log a prefix plus the pass so far. */
  lemma SentStep(sent0: seq<Bytes>, sent: seq<Bytes>, key: Bytes, encode: string -> Bytes, keywords: seq<string>, i: nat)
    requires key != [] && i < |keywords|
    requires sent == sent0 + WireCommands(key, encode, keywords[..i])
    ensures sent + [XorBytes(key, encode(FetchCommand(keywords[i])))] == sent0 + WireCommands(key, encode, keywords[..i + 1])
  {
    WireCommandsStep(key, encode, keywords, i);
    AppendAssoc(sent0, WireCommands(key, encode, keywords[..i]), [XorBytes(key, encode(FetchCommand(keywords[i])))]);
  }

  /**
   * The same pass driven through a logged-in session: each keyword's command
   * is obfuscated and sent, one reply is read for it, and forwarded replies
   * are written to the sinks.
   */
  method PollRound(session: RconSession, server: string, keywords: seq<string>, sinks: Sinks, base: string)
    returns (replies: seq<string>, writes: seq<SinkWrite>)
    requires session.socket == Open && HasKey(session.key)
    modifies session
    ensures session.socket == Open && session.key == old(session.key)
    ensures (replies, session.inbound) == Exchange(session.key.value, old(session.inbound), |keywords|, session.decode)
    ensures session.sent == old(session.sent) + WireCommands(session.key.value, session.encode, keywords)
    ensures writes == CycleWrites(server, keywords, replies, sinks, base)
  {
    replies, writes := [], [];
    ghost var sent0 := session.sent;
    var key := session.key.value;
    for i := 0 to |keywords|
      invariant session.socket == Open && session.key == old(session.key)
      invariant (replies, session.inbound) == Exchange(key, old(session.inbound), i, session.decode)
      invariant session.sent == sent0 + WireCommands(key, session.encode, keywords[..i])
      invariant writes == CycleWrites(server, keywords[..i], replies, sinks, base)
    {
      var keyword := keywords[i];
      SentStep(sent0, session.sent, key, session.encode, keywords, i);
      ExchangeStep(key, old(session.inbound), i, session.decode, replies, session.inbound);
      var logs, forwarded := PollKeyword(session, server, keyword, sinks, base);
      CycleWritesStep(server, keywords, replies, logs, sinks, base);
      replies, writes := replies + [logs], writes + forwarded;
    }
    assert keywords[..|keywords|] == keywords;
  }

  /** How one trip through the worker's outer loop ends. */
  datatype Attempt =
    | HandshakeFailed(error: SessionError)               // an error was raised: the session is closed
    | LoginRejected                                      // connect returned False: retried without closing
    | Polled(replies: seq<string>, writes: seq<SinkWrite>) // logged in and completed one pass

  /**
   * One trip through the worker's outer loop, cut after the first pass over
   * the keywords: connect on a new connection carrying `frames`, then poll.
   */
  method WorkerAttempt(session: RconSession, frames: seq<Bytes>, server: string, keywords: seq<string>, sinks: Sinks, base: string)
    returns (outcome: Attempt)
    modifies session
    ensures var key := Recv(frames, KeyFrameSize).0;
      session.key == Some(key) &&
      (outcome.HandshakeFailed? <==> key == []) &&
      (outcome.HandshakeFailed? ==>
        (outcome.error == NoKey && session.socket == Closed &&
         session.sent == [] && session.inbound == Recv(frames, KeyFrameSize).1)) &&
      (!outcome.HandshakeFailed? ==> session.socket == Open)
    ensures var (key, afterKey) := Recv(frames, KeyFrameSize);
      key != [] ==>
        var (chunk, afterLogin) := Recv(afterKey, ReplySize);
        var accepted := Contains(ReplyText(key, chunk, session.decode), SuccessMarker);
        var login := XorBytes(key, session.encode("Login " + session.password));
        (outcome.LoginRejected? <==> !accepted) &&
        (outcome.Polled? <==> accepted) &&
        (outcome.LoginRejected? ==> session.sent == [login] && session.inbound == afterLogin) &&
        (outcome.Polled? ==>
          (outcome.replies, session.inbound) == Exchange(key, afterLogin, |keywords|, session.decode) &&
          session.sent == [login] + WireCommands(key, session.encode, keywords) &&
          outcome.writes == CycleWrites(server, keywords, outcome.replies, sinks, base))
    ensures outcome.Polled? ==> |outcome.replies| == |keywords|
  {
    var login := session.Connect(frames);
    if login.Failure? {
      session.Close();
      return HandshakeFailed(login.error);
    }
    if !login.value {
      return LoginRejected;
    }
    var replies, writes := PollRound(session, server, keywords, sinks, base);
    outcome := Polled(replies, writes);
  }
}
