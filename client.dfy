/** The Assuan client of src/client.cc: the cached socket name and UI
    server command line, the connect, spawn and retry policy, and the
    request lines one operation sends.

    The Assuan library, process creation and default_homedir are outside
    the model: a `Host` supplies their outcomes. Connect attempts are
    numbered from 0 (the first try) to 10 (the last retry), transactions
    from 0 in the order they are sent. */
module Client {
  import opened Common
  import opened PercentEscape
  import opened DollarTemplate
  import opened W32Registry

  /** Appended to the home directory to name the UI server socket. */
  const SocketSuffix: string := "\\S.uiserver"

  /** The command line template used when the registry names no UI server. */
  const DefaultUiServer: string := "bin\\kleopatra.exe --uiserver-socket $s"

  /** The number of connect attempts after the UI server was started. */
  const ConnectRetries: nat := 10

  /** gpg_error (GPG_ERR_INV_ARG); any non-zero code would do here. */
  const InvArg: int := 45

  /** The outcomes of everything the client asks of the system. */
  datatype Host = Host(win: Win32,
                       homedir: Option<string>,
                       connectRc: nat -> int,
                       spawnRc: Option<string> -> int,
                       transactRc: nat -> int)

  /** What the client does, in order. */
  datatype Event =
    | Connect(attempt: nat, rc: int)
    | Spawn(cmd: Option<string>, rc: int)
    | Send(line: string, rc: int)
    | Disconnect
    | Message(rc: int)

  function RcOf(e: Event): int
  {
    if e.Disconnect? then 0 else e.rc
  }

  /** The error code the last step of a trace left in `rc`. */
  function LastRc(t: seq<Event>): int
  {
    if t == [] then 0 else RcOf(t[|t| - 1])
  }

  // ---------------------------------------------------------------------
  // The cached socket name and command line

  /** default_socket_name: the cached name, or, while the cache is empty,
      the home directory followed by \S.uiserver when there is one. */
  function SocketNameAfter(cache: string, homedir: Option<string>): (r: string)
    ensures cache != [] ==> r == cache
    ensures r == [] <==> cache == [] && homedir.None?
    ensures cache == [] && homedir.Some? ==>
              |r| == |homedir.value| + |SocketSuffix| &&
              r[..|homedir.value|] == homedir.value && r[|homedir.value|..] == SocketSuffix
  {
    if cache == [] && homedir.Some? then homedir.value + SocketSuffix else cache
  }

  /** The command line default_uiserver_cmdline composes while its cache
      is empty: the install directory, a backslash and the expanded
      template (the "UI Server" value or the built-in one); empty without
      an install directory and None (NULL) when the expansion cannot be
      allocated. */
  function ComposeCmdline(installDir: Option<string>, uiServer: Option<string>, socket: string,
                          canAlloc: nat -> bool): Option<string>
  {
    match installDir
    case None => Some([])
    case Some(dir) =>
      var template := uiServer.GetOr(DefaultUiServer);
      if canAlloc(|Expanded(template, socket)| + 1) then Some(dir + "\\" + Expanded(template, socket))
      else None
  }

  /** default_uiserver_cmdline: the cached command line, or a newly
      composed one. */
  function CmdlineFor(cmdCache: string, socketCache: string, host: Host): Option<string>
  {
    if cmdCache != [] then Some(cmdCache)
    else ComposeCmdline(InstallDirectory(host),
                        Lookup(host.win, None, RegKey, "UI Server"),
                        SocketNameAfter(socketCache, host.homedir), host.win.canAlloc)
  }

  /** The install directory default_uiserver_cmdline reads. */
  function InstallDirectory(host: Host): Option<string>
  {
    Lookup(host.win, Some("HKEY_LOCAL_MACHINE"), RegKey, "Install Directory")
  }

  /** The two caches after default_uiserver_cmdline: the command line is
      filled when it was empty and one could be composed; the socket name
      is looked up only while composing, which needs the install
      directory. */
  function CachesAfterCmdline(socketCache: string, cmdCache: string, host: Host): (r: (string, string))
    ensures cmdCache != [] ==> r == (socketCache, cmdCache)
    ensures socketCache != [] ==> r.0 == socketCache
    ensures cmdCache == [] && InstallDirectory(host).None? ==> r == (socketCache, [])
    ensures r.1 == [] ==> cmdCache == []
    ensures CmdlineFor(cmdCache, socketCache, host).Some? ==> Some(r.1) == CmdlineFor(cmdCache, socketCache, host)
    ensures CmdlineFor(cmdCache, socketCache, host).None? ==> r.1 == cmdCache
  {
    var socket := if cmdCache == [] && InstallDirectory(host).Some?
                  then SocketNameAfter(socketCache, host.homedir) else socketCache;
    (socket, CmdlineFor(cmdCache, socketCache, host).GetOr(cmdCache))
  }

  /** The two caches after uiserver_connect: the socket name is looked up
      first; the command line only when the first connect fails. */
  function CachesAfterConnect(socketCache: string, cmdCache: string, host: Host): (r: (string, string))
    ensures r.0 == SocketNameAfter(socketCache, host.homedir)
    ensures cmdCache != [] ==> r.1 == cmdCache
    ensures r.1 != cmdCache ==>
              r.0 != [] && host.connectRc(0) != 0 && cmdCache == [] && Some(r.1) == CmdlineFor(cmdCache, socketCache, host)
  {
    var socket := SocketNameAfter(socketCache, host.homedir);
    if socket == [] || host.connectRc(0) == 0 then (socket, cmdCache)
    else CachesAfterCmdline(socket, cmdCache, host)
  }

  /** Once both names are cached a connect changes neither, and it uses the
      cached command line: nothing is recomputed. */
  lemma FilledCachesStay(socketCache: string, cmdCache: string, host: Host)
    requires socketCache != [] && cmdCache != []
    ensures CachesAfterConnect(socketCache, cmdCache, host) == (socketCache, cmdCache)
    ensures CmdlineFor(cmdCache, socketCache, host) == Some(cmdCache)
    ensures ConnectOutcome(socketCache, cmdCache, host) ==
              var t := ConnectTrace(host.connectRc, host.spawnRc, Some(cmdCache)); (LastRc(t), t)
  {
  }

  /** A connect never empties a cache, so a name once cached is used by
      every later call. */
  lemma CachesOnlyFill(socketCache: string, cmdCache: string, host: Host)
    ensures var (s, c) := CachesAfterConnect(socketCache, cmdCache, host);
      && (socketCache != [] ==> s == socketCache)
      && (cmdCache != [] ==> c == cmdCache)
      && (s == [] ==> socketCache == [])
  {
  }

  /** The built-in template expands to Kleopatra's path and its socket
      option with the quoted socket name. */
  lemma DefaultTemplateExpands(socket: string)
    ensures Expanded(DefaultUiServer, socket) ==
              "bin\\kleopatra.exe --uiserver-socket \"" + socket + "\""
  {
    var prefix := "bin\\kleopatra.exe --uiserver-socket ";
    assert DefaultUiServer == prefix + "$s";
    assert '$' !in prefix;
    LiteralThenSocket(prefix, socket);
    assert prefix + ['"'] == "bin\\kleopatra.exe --uiserver-socket \"";
  }

  /** Without a "UI Server" value the command line starts Kleopatra from
      the install directory with the quoted socket name. */
  lemma DefaultCmdlineRunsKleopatra(dir: string, socket: string, canAlloc: nat -> bool)
    requires canAlloc(|Expanded(DefaultUiServer, socket)| + 1)
    ensures ComposeCmdline(Some(dir), None, socket, canAlloc) ==
              Some(dir + "\\" + ("bin\\kleopatra.exe --uiserver-socket \"" + socket + "\""))
  {
    DefaultTemplateExpands(socket);
  }

  /** A "UI Server" value without `$` is used verbatim after the install
      directory. */
  lemma CustomCmdlineVerbatim(dir: string, ui: string, socket: string, canAlloc: nat -> bool)
    requires '$' !in ui
    requires canAlloc(|ui| + 1)
    ensures ComposeCmdline(Some(dir), Some(ui), socket, canAlloc) == Some(dir + "\\" + ui)
  {
    ExpandNoDollarPrefix(ui, [], socket);
    assert ui + [] == ui;
  }

  // ---------------------------------------------------------------------
  // uiserver_connect

  /** The retries after a spawn once `done` of them have failed: each
      attempt is logged, and the first success ends them. */
  function RetryTrace(connectRc: nat -> int, done: nat): seq<Event>
    decreases ConnectRetries - done
  {
    if done >= ConnectRetries then []
    else [Connect(done + 1, connectRc(done + 1))]
         + (if connectRc(done + 1) == 0 then [] else RetryTrace(connectRc, done + 1))
  }

  /** What uiserver_connect does once the socket name is known: one
      connect; on failure one spawn of `cmd`; when that succeeds, the
      retries. */
  function ConnectTrace(connectRc: nat -> int, spawnRc: Option<string> -> int, cmd: Option<string>): seq<Event>
  {
    if connectRc(0) == 0 then [Connect(0, 0)]
    else [Connect(0, connectRc(0)), Spawn(cmd, spawnRc(cmd))]
         + (if spawnRc(cmd) != 0 then [] else RetryTrace(connectRc, 0))
  }

  /** The return code and trace of uiserver_connect for the given caches. */
  function ConnectOutcome(socketCache: string, cmdCache: string, host: Host): (r: (int, seq<Event>))
    ensures r.1 == [] <==> SocketNameAfter(socketCache, host.homedir) == []
    ensures r.1 == [] ==> r.0 == InvArg
    ensures r.1 != [] ==> r.0 == LastRc(r.1) && r.1[0] == Connect(0, host.connectRc(0))
    ensures r.1 != [] && host.connectRc(0) == 0 ==> r == (0, [Connect(0, 0)])
  {
    var socket := SocketNameAfter(socketCache, host.homedir);
    if socket == [] then (InvArg, [])
    else
      var t := ConnectTrace(host.connectRc, host.spawnRc, CmdlineFor(cmdCache, socketCache, host));
      (LastRc(t), t)
  }

  /** The retries after `done` failures: connects numbered done+1,
      done+2, ... up to at most 10, all failing except possibly the
      last. */
  lemma {:induction false} RetryTraceShape(connectRc: nat -> int, done: nat)
    requires done <= ConnectRetries
    ensures done < ConnectRetries ==> |RetryTrace(connectRc, done)| >= 1
    ensures done + |RetryTrace(connectRc, done)| <= ConnectRetries
    ensures forall k | 0 <= k < |RetryTrace(connectRc, done)| ::
              RetryTrace(connectRc, done)[k] == Connect(done + 1 + k, connectRc(done + 1 + k))
    ensures forall k | 0 <= k < |RetryTrace(connectRc, done)| - 1 :: RetryTrace(connectRc, done)[k].rc != 0
    ensures LastRc(RetryTrace(connectRc, done)) != 0 ==> done + |RetryTrace(connectRc, done)| == ConnectRetries
  {
    RetryTraceNumbered(connectRc, done);
    RetryTraceFailsBeforeLast(connectRc, done);
    RetryTraceEnds(connectRc, done);
    var t := RetryTrace(connectRc, done);
    forall k | 0 <= k < |t| - 1
      ensures t[k].rc != 0
    {
      assert t[k] == Connect(done + 1 + k, connectRc(done + 1 + k));
    }
  }

  /** The attempts logged from `done` on are numbered consecutively, up
      to the tenth. */
  lemma {:induction false} RetryTraceNumbered(connectRc: nat -> int, done: nat)
    requires done <= ConnectRetries
    decreases ConnectRetries - done
    ensures done + |RetryTrace(connectRc, done)| <= ConnectRetries
    ensures forall k | 0 <= k < |RetryTrace(connectRc, done)| ::
              RetryTrace(connectRc, done)[k] == Connect(done + 1 + k, connectRc(done + 1 + k))
  {
    if done < ConnectRetries && connectRc(done + 1) != 0 {
      RetryTraceNumbered(connectRc, done + 1);
      var t := RetryTrace(connectRc, done);
      var rest := RetryTrace(connectRc, done + 1);
      assert t == [Connect(done + 1, connectRc(done + 1))] + rest;
      forall k | 1 <= k < |t|
        ensures t[k] == Connect(done + 1 + k, connectRc(done + 1 + k))
      {
        assert t[k] == rest[k - 1];
      }
    }
  }

  /** Every attempt logged before the last one failed. */
  lemma {:induction false} RetryTraceFailsBeforeLast(connectRc: nat -> int, done: nat)
    requires done <= ConnectRetries
    decreases ConnectRetries - done
    ensures forall a | done + 1 <= a < done + |RetryTrace(connectRc, done)| :: connectRc(a) != 0
  {
    if done < ConnectRetries && connectRc(done + 1) != 0 {
      RetryTraceFailsBeforeLast(connectRc, done + 1);
      var n := |RetryTrace(connectRc, done + 1)|;
      assert |RetryTrace(connectRc, done)| == 1 + n;
      forall a | done + 1 <= a < done + 1 + n
        ensures connectRc(a) != 0
      {
        if a > done + 1 {
          assert done + 2 <= a < done + 1 + n;
        }
      }
    }
  }

  /** The retries log at least one attempt while any remain, and a trace
      ending in failure has used them all. */
  lemma {:induction false} RetryTraceEnds(connectRc: nat -> int, done: nat)
    requires done <= ConnectRetries
    decreases ConnectRetries - done
    ensures done < ConnectRetries ==> |RetryTrace(connectRc, done)| >= 1
    ensures LastRc(RetryTrace(connectRc, done)) != 0 ==> done + |RetryTrace(connectRc, done)| == ConnectRetries
  {
    if done < ConnectRetries && connectRc(done + 1) != 0 {
      RetryTraceEnds(connectRc, done + 1);
      var rest := RetryTrace(connectRc, done + 1);
      assert RetryTrace(connectRc, done) == [Connect(done + 1, connectRc(done + 1))] + rest;
      if rest != [] {
        assert LastRc(RetryTrace(connectRc, done)) == LastRc(rest);
      }
    }
  }

  /** The UI server is spawned at most once, and only right after the
      first connect failed; everything after the spawn is a connect, and
      there are at most 10 of them. */
  lemma SpawnOnceAfterFailedConnect(connectRc: nat -> int, spawnRc: Option<string> -> int, cmd: Option<string>)
    ensures var t := ConnectTrace(connectRc, spawnRc, cmd);
      && t != [] && t[0] == Connect(0, connectRc(0))
      && (forall k | 0 <= k < |t| && t[k].Spawn? :: k == 1 && connectRc(0) != 0 && t[k] == Spawn(cmd, spawnRc(cmd)))
      && (forall k | 2 <= k < |t| :: t[k].Connect?)
      && |t| <= ConnectRetries + 2
  {
    var t := ConnectTrace(connectRc, spawnRc, cmd);
    if connectRc(0) != 0 && spawnRc(cmd) == 0 {
      RetryTraceShape(connectRc, 0);
      var r := RetryTrace(connectRc, 0);
      assert t == [Connect(0, connectRc(0)), Spawn(cmd, 0)] + r;
      forall k | 2 <= k < |t|
        ensures t[k].Connect?
      {
        assert t[k] == r[k - 2];
      }
    }
  }

  /** A failed spawn ends uiserver_connect with the spawn's error. */
  lemma SpawnErrorReturned(connectRc: nat -> int, spawnRc: Option<string> -> int, cmd: Option<string>)
    requires connectRc(0) != 0 && spawnRc(cmd) != 0
    ensures ConnectTrace(connectRc, spawnRc, cmd) == [Connect(0, connectRc(0)), Spawn(cmd, spawnRc(cmd))]
    ensures LastRc(ConnectTrace(connectRc, spawnRc, cmd)) == spawnRc(cmd)
  {
  }

  /** After a successful spawn the retries follow, and the last of them
      decides the result. */
  lemma SpawnThenRetries(connectRc: nat -> int, spawnRc: Option<string> -> int, cmd: Option<string>)
    requires connectRc(0) != 0 && spawnRc(cmd) == 0
    ensures ConnectTrace(connectRc, spawnRc, cmd) ==
              [Connect(0, connectRc(0)), Spawn(cmd, 0)] + RetryTrace(connectRc, 0)
    ensures LastRc(ConnectTrace(connectRc, spawnRc, cmd)) == LastRc(RetryTrace(connectRc, 0))
  {
    RetryTraceEnds(connectRc, 0);
  }

  /** The retries end in success exactly when one of them succeeded. */
  lemma RetriesSucceededIff(connectRc: nat -> int, done: nat)
    requires done < ConnectRetries
    ensures var r := RetryTrace(connectRc, done);
      && (forall k | 0 <= k < |r| :: r[k].Connect?)
      && (LastRc(r) == 0 <==> exists k | 0 <= k < |r| :: r[k].rc == 0)
  {
    var r := RetryTrace(connectRc, done);
    RetryTraceNumbered(connectRc, done);
    RetryTraceFailsBeforeLast(connectRc, done);
    RetryTraceEnds(connectRc, done);
    if LastRc(r) == 0 {
      assert r[|r| - 1].rc == 0;
    }
    if k :| 0 <= k < |r| && r[k].rc == 0 {
      assert r[k] == Connect(done + 1 + k, connectRc(done + 1 + k));
      assert k == |r| - 1;
    }
  }

  /** uiserver_connect returns 0 exactly when one of its connects
      succeeded. */
  lemma ConnectedIffSomeAttemptSucceeded(connectRc: nat -> int, spawnRc: Option<string> -> int, cmd: Option<string>)
    ensures var t := ConnectTrace(connectRc, spawnRc, cmd);
      LastRc(t) == 0 <==> exists k | 0 <= k < |t| :: t[k].Connect? && t[k].rc == 0
  {
    if connectRc(0) != 0 && spawnRc(cmd) == 0 {
      SpawnThenRetries(connectRc, spawnRc, cmd);
      RetriesSucceededIff(connectRc, 0);
      PrefixedRetries(Connect(0, connectRc(0)), Spawn(cmd, 0), RetryTrace(connectRc, 0));
    }
  }

  /** Two failed steps in front of the retries change neither the result
      nor which connects succeeded. */
  lemma PrefixedRetries(first: Event, second: Event, r: seq<Event>)
    requires first.Connect? && first.rc != 0 && second.Spawn?
    requires forall k | 0 <= k < |r| :: r[k].Connect?
    requires LastRc(r) == 0 <==> exists k | 0 <= k < |r| :: r[k].rc == 0
    requires r != []
    ensures var t := [first, second] + r;
      LastRc(t) == 0 <==> exists k | 0 <= k < |t| :: t[k].Connect? && t[k].rc == 0
  {
    var t := [first, second] + r;
    assert LastRc(t) == LastRc(r);
    if LastRc(t) == 0 {
      var k :| 0 <= k < |r| && r[k].rc == 0;
      assert t[k + 2] == r[k];
    }
    if k :| 0 <= k < |t| && t[k].Connect? && t[k].rc == 0 {
      assert t[k] == r[k - 2];
    }
  }

  /** The retry loop of uiserver_connect: up to ten more connects, the
      first success ending it. (The one-second pause before each attempt
      is not modelled.) */
  method RetryConnect(connectRc: nat -> int) returns (rc: int, events: seq<Event>)
    ensures events == RetryTrace(connectRc, 0)
    ensures rc == LastRc(events)
  {
    var count := 0;
    events := [];
    rc := 0;
    ghost var whole := RetryTrace(connectRc, count);
    while count < ConnectRetries
      invariant 0 <= count <= ConnectRetries
      invariant events + RetryTrace(connectRc, count) == whole
      invariant count > 0 ==> rc == LastRc(events)
    {
      RetryStep(connectRc, count, events);
      rc := connectRc(count + 1);
      events := events + [Connect(count + 1, rc)];
      if rc == 0 {
        break;
      }
      count := count + 1;
    }
  }

  /** One attempt of the retry loop moves from the remaining retries to
      the logged ones. */
  lemma RetryStep(connectRc: nat -> int, done: nat, before: seq<Event>)
    requires done < ConnectRetries
    ensures connectRc(done + 1) != 0 ==>
      before + RetryTrace(connectRc, done) ==
      (before + [Connect(done + 1, connectRc(done + 1))]) + RetryTrace(connectRc, done + 1)
    ensures connectRc(done + 1) == 0 ==>
      before + RetryTrace(connectRc, done) == before + [Connect(done + 1, 0)]
  {
  }

  // ---------------------------------------------------------------------
  // call_assuan

  /** The request line that names one input file. */
  function FileLine(f: string): string
  {
    "FILE " + Escaped(f, Extra)
  }

  /** The lines one operation sends: a FILE line per file in list order,
      then the command with --nohup. */
  function Request(cmd: string, files: seq<string>): (lines: seq<string>)
    ensures |lines| == |files| + 1
    ensures forall i | 0 <= i < |files| :: lines[i] == FileLine(files[i])
    ensures lines[|files|] == cmd + " --nohup"
  {
    seq(|files|, i requires 0 <= i < |files| => FileLine(files[i])) + [cmd + " --nohup"]
  }

  /** Every FILE line carries exactly one space, after the keyword, and
      its argument decodes back to the file name. */
  lemma FileLineDecodes(f: string)
    ensures FileLine(f)[..5] == "FILE "
    ensures ' ' !in FileLine(f)[5..]
    ensures Unescaped(FileLine(f)[5..]) == f
  {
    assert FileLine(f)[5..] == Escaped(f, Extra);
    EscapedHasNoSpace(f);
    RoundTrip(f, Extra);
  }

  /** Sending `lines` from index k on, stopping after the first failing
      transaction. */
  function Transcript(lines: seq<string>, transactRc: nat -> int, k: nat): seq<Event>
    decreases |lines| - k
  {
    if k >= |lines| then []
    else [Send(lines[k], transactRc(k))]
         + (if transactRc(k) != 0 then [] else Transcript(lines, transactRc, k + 1))
  }

  /** The transcript from line k never runs past the request. */
  lemma {:induction false} TranscriptBounded(lines: seq<string>, transactRc: nat -> int, k: nat)
    requires k <= |lines|
    decreases |lines| - k
    ensures k + |Transcript(lines, transactRc, k)| <= |lines|
  {
    if k < |lines| && transactRc(k) == 0 {
      TranscriptBounded(lines, transactRc, k + 1);
      assert |Transcript(lines, transactRc, k)| == 1 + |Transcript(lines, transactRc, k + 1)|;
    }
  }

  /** The transcript from line k sends lines k, k+1, ... in order, each
      with its own result. */
  lemma {:induction false} TranscriptNumbered(lines: seq<string>, transactRc: nat -> int, k: nat)
    requires k <= |lines|
    decreases |lines| - k
    ensures forall j | 0 <= j < |Transcript(lines, transactRc, k)| && k + j < |lines| ::
              Transcript(lines, transactRc, k)[j] == Send(lines[k + j], transactRc(k + j))
  {
    if k < |lines| && transactRc(k) == 0 {
      TranscriptNumbered(lines, transactRc, k + 1);
      var t := Transcript(lines, transactRc, k);
      var rest := Transcript(lines, transactRc, k + 1);
      assert t == [Send(lines[k], 0)] + rest;
      forall j | 1 <= j < |t| && k + j < |lines|
        ensures t[j] == Send(lines[k + j], transactRc(k + j))
      {
        assert t[j] == rest[j - 1];
      }
    }
  }

  /** Every line sent before the last one succeeded. */
  lemma {:induction false} TranscriptSucceedsBeforeLast(lines: seq<string>, transactRc: nat -> int, k: nat)
    requires k <= |lines|
    decreases |lines| - k
    ensures forall a | k <= a < k + |Transcript(lines, transactRc, k)| - 1 :: transactRc(a) == 0
  {
    if k < |lines| && transactRc(k) == 0 {
      TranscriptSucceedsBeforeLast(lines, transactRc, k + 1);
      assert |Transcript(lines, transactRc, k)| == 1 + |Transcript(lines, transactRc, k + 1)|;
    }
  }

  /** A transcript with lines left to send is not empty, and one whose last
      send succeeded went to the end of the request. */
  lemma {:induction false} TranscriptEnds(lines: seq<string>, transactRc: nat -> int, k: nat)
    requires k <= |lines|
    decreases |lines| - k
    ensures k < |lines| ==> |Transcript(lines, transactRc, k)| >= 1
    ensures k < |lines| && LastRc(Transcript(lines, transactRc, k)) == 0 ==>
              k + |Transcript(lines, transactRc, k)| == |lines|
  {
    if k < |lines| && transactRc(k) == 0 {
      TranscriptEnds(lines, transactRc, k + 1);
      var t := Transcript(lines, transactRc, k);
      var rest := Transcript(lines, transactRc, k + 1);
      assert t == [Send(lines[k], 0)] + rest;
      if rest != [] {
        assert t[|t| - 1] == rest[|rest| - 1];
        assert LastRc(t) == LastRc(rest);
      }
    } else if k < |lines| {
      assert Transcript(lines, transactRc, k) == [Send(lines[k], transactRc(k))];
    }
  }

  /** The lines sent are the request's lines in order, each succeeding but
      the last; all are sent when the last succeeds. */
  lemma TranscriptShape(lines: seq<string>, transactRc: nat -> int, k: nat)
    requires k <= |lines|
    ensures k < |lines| ==> |Transcript(lines, transactRc, k)| >= 1
    ensures k + |Transcript(lines, transactRc, k)| <= |lines|
    ensures forall j | 0 <= j < |Transcript(lines, transactRc, k)| ::
              Transcript(lines, transactRc, k)[j] == Send(lines[k + j], transactRc(k + j))
    ensures forall j | 0 <= j < |Transcript(lines, transactRc, k)| - 1 :: Transcript(lines, transactRc, k)[j].rc == 0
    ensures k < |lines| && LastRc(Transcript(lines, transactRc, k)) == 0 ==>
              k + |Transcript(lines, transactRc, k)| == |lines|
  {
    TranscriptBounded(lines, transactRc, k);
    TranscriptNumbered(lines, transactRc, k);
    TranscriptSucceedsBeforeLast(lines, transactRc, k);
    TranscriptEnds(lines, transactRc, k);
    var t := Transcript(lines, transactRc, k);
    forall j | 0 <= j < |t| - 1
      ensures t[j].rc == 0
    {
      assert t[j] == Send(lines[k + j], transactRc(k + j));
    }
  }

  /** The sending part of call_assuan: each file's FILE line, stopping at
      the first failure, then the command with --nohup. */
  method SendRequest(cmd: string, files: seq<string>, transactRc: nat -> int)
    returns (rc: int, sent: seq<Event>)
    ensures sent == Transcript(Request(cmd, files), transactRc, 0)
    ensures rc == LastRc(sent)
  {
    ghost var lines := Request(cmd, files);
    sent := [];
    rc := 0;
    var i := 0;
    while i < |files|
      invariant 0 <= i <= |files|
      invariant sent + Transcript(lines, transactRc, i) == Transcript(lines, transactRc, 0)
      invariant i > 0 ==> rc == LastRc(sent)
    {
      var arg := Escape(files[i]);
      var msg := "FILE " + arg;
      assert msg == lines[i];
      TranscriptStep(lines, transactRc, i, sent);
      rc := transactRc(i);
      sent := sent + [Send(msg, rc)];
      if rc != 0 {
        return;
      }
      i := i + 1;
    }
    var msg := cmd + " --nohup";
    TranscriptStep(lines, transactRc, i, sent);
    rc := transactRc(i);
    sent := sent + [Send(msg, rc)];
    assert Transcript(lines, transactRc, i + 1) == [];
  }

  /** One line of the request moves from the unsent rest to the log. */
  lemma TranscriptStep(lines: seq<string>, transactRc: nat -> int, k: nat, before: seq<Event>)
    requires k < |lines|
    ensures transactRc(k) != 0 ==>
      before + Transcript(lines, transactRc, k) == before + [Send(lines[k], transactRc(k))]
    ensures transactRc(k) == 0 ==>
      before + Transcript(lines, transactRc, k) ==
      (before + [Send(lines[k], 0)]) + Transcript(lines, transactRc, k + 1)
  {
  }

  /** The whole of call_assuan for a connect outcome: nothing is sent
      after a failed connect; a connected session sends the request and
      disconnects; any error is shown in a message box. */
  function Session(connect: (int, seq<Event>), cmd: string, files: seq<string>, transactRc: nat -> int)
    : (r: (bool, seq<Event>))
    ensures |r.1| > |connect.1| && r.1[..|connect.1|] == connect.1
    ensures r.0 ==> connect.0 == 0 && r.1[|r.1| - 1] == Disconnect
    ensures !r.0 ==> r.1[|r.1| - 1].Message? && r.1[|r.1| - 1].rc != 0
    ensures connect.0 != 0 ==> r == (false, connect.1 + [Message(connect.0)])
  {
    if connect.0 != 0 then (false, connect.1 + [Message(connect.0)])
    else
      var sent := Transcript(Request(cmd, files), transactRc, 0);
      var rc := LastRc(sent);
      (rc == 0, connect.1 + sent + [Disconnect] + (if rc != 0 then [Message(rc)] else []))
  }

  /** The trace of a connected session: the connect steps, the lines
      sent, the Disconnect, then the message when a line failed. */
  lemma SessionTrace(connect: (int, seq<Event>), cmd: string, files: seq<string>, transactRc: nat -> int)
    requires connect.0 == 0
    ensures var sent := Transcript(Request(cmd, files), transactRc, 0);
      Session(connect, cmd, files, transactRc).1 ==
        connect.1 + sent + [Disconnect] + (if LastRc(sent) != 0 then [Message(LastRc(sent))] else [])
    ensures Session(connect, cmd, files, transactRc).0 <==>
              LastRc(Transcript(Request(cmd, files), transactRc, 0)) == 0
  {
  }

  /** Where each step of a connected session sits in its trace: the
      connect steps, the request's lines in order, the one Disconnect,
      then at most one message. */
  lemma SessionLayout(connect: (int, seq<Event>), cmd: string, files: seq<string>, transactRc: nat -> int)
    requires connect.0 == 0
    ensures var t := Session(connect, cmd, files, transactRc).1;
      var sent := Transcript(Request(cmd, files), transactRc, 0);
      && |connect.1| + |sent| < |t| <= |connect.1| + |sent| + 2
      && |sent| <= |files| + 1
      && (forall k | 0 <= k < |connect.1| :: t[k] == connect.1[k])
      && (forall k | |connect.1| <= k < |connect.1| + |sent| ::
            t[k].Send? && t[k].line == Request(cmd, files)[k - |connect.1|])
      && t[|connect.1| + |sent|] == Disconnect
      && (forall k | |connect.1| + |sent| < k < |t| :: t[k].Message?)
  {
    var lines := Request(cmd, files);
    var sent := Transcript(lines, transactRc, 0);
    TranscriptShape(lines, transactRc, 0);
    var tail := if LastRc(sent) != 0 then [Message(LastRc(sent))] else [];
    SessionTrace(connect, cmd, files, transactRc);
    TraceLayout(connect.1, sent, tail, lines);
  }

  /** The layout of c + sent + [Disconnect] + tail when `sent` sends a
      prefix of `lines` and `tail` is at most one message. */
  lemma TraceLayout(c: seq<Event>, sent: seq<Event>, tail: seq<Event>, lines: seq<string>)
    requires |sent| <= |lines|
    requires forall j | 0 <= j < |sent| :: sent[j].Send? && sent[j].line == lines[j]
    requires |tail| <= 1 && forall j | 0 <= j < |tail| :: tail[j].Message?
    ensures var t := c + sent + [Disconnect] + tail;
      && |c| + |sent| < |t| <= |c| + |sent| + 2
      && (forall k | 0 <= k < |c| :: t[k] == c[k])
      && (forall k | |c| <= k < |c| + |sent| :: t[k].Send? && t[k].line == lines[k - |c|])
      && t[|c| + |sent|] == Disconnect
      && (forall k | |c| + |sent| < k < |t| :: t[k].Message?)
  {
    var t := c + sent + [Disconnect] + tail;
    Concat3(c, sent, tail);
    forall k | |c| <= k < |c| + |sent|
      ensures t[k].Send? && t[k].line == lines[k - |c|]
    {
      assert t[k] == sent[k - |c|];
    }
  }

  /** Indexing into a trace of the form c + sent + [Disconnect] + tail. */
  lemma Concat3(c: seq<Event>, sent: seq<Event>, tail: seq<Event>)
    ensures var t := c + sent + [Disconnect] + tail;
      && |t| == |c| + |sent| + 1 + |tail|
      && (forall k | 0 <= k < |c| :: t[k] == c[k])
      && (forall k | |c| <= k < |c| + |sent| :: t[k] == sent[k - |c|])
      && t[|c| + |sent|] == Disconnect
      && (forall k | |c| + |sent| < k < |t| :: t[k] == tail[k - |c| - |sent| - 1])
  {
  }

  /** After a failed connect nothing is sent, nothing is disconnected, the
      call fails and the error is shown. */
  lemma SessionAfterFailedConnect(connect: (int, seq<Event>), cmd: string, files: seq<string>, transactRc: nat -> int)
    requires connect.0 != 0
    requires forall e | e in connect.1 :: e.Connect? || e.Spawn?
    ensures var (ok, t) := Session(connect, cmd, files, transactRc);
      && !ok && t[|t| - 1] == Message(connect.0)
      && forall e | e in t[..|t| - 1] :: !e.Send? && !e.Disconnect?
  {
    var t := Session(connect, cmd, files, transactRc).1;
    assert t[..|t| - 1] == connect.1;
  }

  /** A connected session closes the connection exactly once. */
  lemma SessionDisconnectsOnce(connect: (int, seq<Event>), cmd: string, files: seq<string>, transactRc: nat -> int)
    requires connect.0 == 0
    requires forall e | e in connect.1 :: e.Connect? || e.Spawn?
    ensures var t := Session(connect, cmd, files, transactRc).1;
      |set k | 0 <= k < |t| && t[k].Disconnect?| == 1
  {
    var t := Session(connect, cmd, files, transactRc).1;
    SessionLayout(connect, cmd, files, transactRc);
    var n := |connect.1| + |Transcript(Request(cmd, files), transactRc, 0)|;
    forall k | 0 <= k < |t| && k != n
      ensures !t[k].Disconnect?
    {
      if k < |connect.1| {
        assert connect.1[k] in connect.1;
      }
    }
    SingleIndex(t, n);
  }

  /** A trace with a Disconnect at `n` and nowhere else has exactly one. */
  lemma SingleIndex(t: seq<Event>, n: nat)
    requires n < |t| && t[n].Disconnect?
    requires forall k | 0 <= k < |t| && k != n :: !t[k].Disconnect?
    ensures |set k | 0 <= k < |t| && t[k].Disconnect?| == 1
  {
    assert (set k | 0 <= k < |t| && t[k].Disconnect?) == {n};
  }

  /** Every line sent is the request line at its position after the
      connect steps. */
  lemma SessionSendsRequest(connect: (int, seq<Event>), cmd: string, files: seq<string>, transactRc: nat -> int)
    requires forall e | e in connect.1 :: e.Connect? || e.Spawn?
    ensures var t := Session(connect, cmd, files, transactRc).1;
      forall k | 0 <= k < |t| && t[k].Send? ::
        |connect.1| <= k < |connect.1| + |files| + 1 &&
        t[k].line == Request(cmd, files)[k - |connect.1|]
  {
    var t := Session(connect, cmd, files, transactRc).1;
    forall k | 0 <= k < |connect.1|
      ensures !t[k].Send?
    {
      assert connect.1[k] in connect.1;
    }
    if connect.0 == 0 {
      SessionLayout(connect, cmd, files, transactRc);
    }
  }

  /** call_assuan succeeds exactly when it shows no message. */
  lemma SessionOkIffNoMessage(connect: (int, seq<Event>), cmd: string, files: seq<string>, transactRc: nat -> int)
    requires forall e | e in connect.1 :: e.Connect? || e.Spawn?
    ensures var (ok, t) := Session(connect, cmd, files, transactRc);
      ok <==> forall e | e in t :: !e.Message?
  {
    var (ok, t) := Session(connect, cmd, files, transactRc);
    if connect.0 == 0 {
      SessionLayout(connect, cmd, files, transactRc);
      var n := |connect.1| + |Transcript(Request(cmd, files), transactRc, 0)|;
      SessionTrace(connect, cmd, files, transactRc);
      if ok {
        assert |t| == n + 1;
        forall e | e in t
          ensures !e.Message?
        {
          var k :| 0 <= k < |t| && t[k] == e;
          if k < |connect.1| {
            assert connect.1[k] in connect.1;
          }
        }
      } else {
        assert t[|t| - 1].Message?;
      }
    } else {
      assert t[|t| - 1].Message?;
    }
  }

  /** uiserver_connect only connects and spawns: it neither sends,
      disconnects nor shows a message. */
  lemma ConnectOutcomeEvents(socketCache: string, cmdCache: string, host: Host)
    ensures forall e | e in ConnectOutcome(socketCache, cmdCache, host).1 :: e.Connect? || e.Spawn?
  {
    if SocketNameAfter(socketCache, host.homedir) != [] && host.connectRc(0) != 0 {
      var cmd := CmdlineFor(cmdCache, socketCache, host);
      if host.spawnRc(cmd) == 0 {
        RetriesSucceededIff(host.connectRc, 0);
        SpawnThenRetries(host.connectRc, host.spawnRc, cmd);
      }
    }
  }

  /** For the connect uiserver_connect really makes: call_assuan returns
      true exactly when it shows no message, and a connected call closes
      the connection exactly once. */
  lemma CallAssuanRules(socketCache: string, cmdCache: string, host: Host, cmd: string, files: seq<string>)
    ensures var connect := ConnectOutcome(socketCache, cmdCache, host);
      var (ok, t) := Session(connect, cmd, files, host.transactRc);
      && (ok <==> forall e | e in t :: !e.Message?)
      && (connect.0 == 0 ==> |set k | 0 <= k < |t| && t[k].Disconnect?| == 1)
      && (connect.0 != 0 ==> !ok && forall e | e in t :: !e.Send? && !e.Disconnect?)
  {
    var connect := ConnectOutcome(socketCache, cmdCache, host);
    ConnectOutcomeEvents(socketCache, cmdCache, host);
    SessionOkIffNoMessage(connect, cmd, files, host.transactRc);
    if connect.0 == 0 {
      SessionDisconnectsOnce(connect, cmd, files, host.transactRc);
    } else {
      SessionAfterFailedConnect(connect, cmd, files, host.transactRc);
      var t := Session(connect, cmd, files, host.transactRc).1;
      assert t == t[..|t| - 1] + [t[|t| - 1]];
    }
  }

  /** The nine operations a client offers. */
  datatype Operation = DecryptVerify | Verify | Decrypt | EncryptSign | Encrypt
                     | Sign | Import | CreateChecksums | VerifyChecksums

  /** The Assuan command each client_t wrapper passes to call_assuan. */
  function Verb(op: Operation): (v: string)
    ensures v != [] && forall i | 0 <= i < |v| :: 'A' <= v[i] <= 'Z' || v[i] == '_'
  {
    match op
    case DecryptVerify => "DECRYPT_VERIFY_FILES"
    case Verify => "VERIFY_FILES"
    case Decrypt => "DECRYPT_FILES"
    case EncryptSign => "ENCRYPT_SIGN_FILES"
    case Encrypt => "ENCRYPT_FILES"
    case Sign => "SIGN_FILES"
    case Import => "IMPORT_FILES"
    case CreateChecksums => "CHECKSUM_CREATE_FILES"
    case VerifyChecksums => "CHECKSUM_VERIFY_FILES"
  }

  /** Different operations send different commands. */
  lemma VerbInjective(a: Operation, b: Operation)
    requires Verb(a) == Verb(b)
    ensures a == b
  {
  }

  /** The static caches of src/client.cc and the operations that fill and
      use them. */
  class Caches {
    /** default_socket_name's static `name`. */
    var socketName: string
    /** default_uiserver_cmdline's static `name`. */
    var cmdline: string

    constructor ()
      ensures socketName == [] && cmdline == []
    {
      socketName := [];
      cmdline := [];
    }

    /** default_socket_name. Once the name is known it is never recomputed;
        while the home directory is unknown it stays empty and is looked
        for again on the next call. */
    method DefaultSocketName(homedir: Option<string>) returns (r: string)
      modifies this
      ensures socketName == SocketNameAfter(old(socketName), homedir)
      ensures r == socketName
      ensures cmdline == old(cmdline)
    {
      if |socketName| == 0 {
        if homedir.Some? {
          socketName := homedir.value + SocketSuffix;
        }
      }
      r := socketName;
    }

    /** default_uiserver_cmdline. */
    method DefaultUiServerCmdline(host: Host) returns (r: Option<string>)
      modifies this
      ensures r == CmdlineFor(old(cmdline), old(socketName), host)
      ensures (socketName, cmdline) == CachesAfterCmdline(old(socketName), old(cmdline), host)
    {
      if |cmdline| == 0 {
        var dir, _ := ReadRegistryString(host.win, Some("HKEY_LOCAL_MACHINE"), RegKey, "Install Directory");
        if dir.Some? {
          var uiserver, _ := ReadRegistryString(host.win, None, RegKey, "UI Server");
          var template := if uiserver.Some? then uiserver.value else DefaultUiServer;
          var socket := DefaultSocketName(host.homedir);
          var expanded := ReplaceDollarS(template, socket, host.win.canAlloc);
          if expanded.None? {
            return None;
          }
          cmdline := dir.value + "\\" + expanded.value;
        }
      }
      r := Some(cmdline);
    }

    /** uiserver_connect. */
    method UiServerConnect(host: Host) returns (rc: int, trace: seq<Event>)
      modifies this
      ensures (rc, trace) == ConnectOutcome(old(socketName), old(cmdline), host)
      ensures (socketName, cmdline) == CachesAfterConnect(old(socketName), old(cmdline), host)
    {
      trace := [];
      var socket := DefaultSocketName(host.homedir);
      if |socket| == 0 {
        rc := InvArg;
        return;
      }
      rc := host.connectRc(0);
      if rc == 0 {
        trace := [Connect(0, 0)];
        return;
      }
      ghost var known := socketName;
      var cmd := DefaultUiServerCmdline(host);
      assert SocketNameAfter(known, host.homedir) == known;
      assert cmd == CmdlineFor(old(cmdline), old(socketName), host);
      var spawned := host.spawnRc(cmd);
      if spawned != 0 {
        SpawnErrorReturned(host.connectRc, host.spawnRc, cmd);
        return spawned, [Connect(0, rc), Spawn(cmd, spawned)];
      }
      var events;
      rc, events := RetryConnect(host.connectRc);
      SpawnThenRetries(host.connectRc, host.spawnRc, cmd);
      trace := [Connect(0, host.connectRc(0)), Spawn(cmd, 0)] + events;
    }

    /** client_t::call_assuan. */
    method CallAssuan(cmd: string, files: seq<string>, host: Host) returns (ok: bool, trace: seq<Event>)
      modifies this
      ensures (ok, trace) == Session(ConnectOutcome(old(socketName), old(cmdline), host), cmd, files, host.transactRc)
      ensures (socketName, cmdline) == CachesAfterConnect(old(socketName), old(cmdline), host)
    {
      var rc;
      rc, trace := UiServerConnect(host);
      ghost var connect := (rc, trace);
      if rc == 0 {
        var sent;
        rc, sent := SendRequest(cmd, files, host.transactRc);
        trace := trace + sent + [Disconnect];
        if rc != 0 {
          trace := trace + [Message(rc)];
        }
        SessionTrace(connect, cmd, files, host.transactRc);
        assert rc == LastRc(Transcript(Request(cmd, files), host.transactRc, 0));
        assert trace == Session(connect, cmd, files, host.transactRc).1;
        assert (rc == 0) == Session(connect, cmd, files, host.transactRc).0;
      } else {
        trace := trace + [Message(rc)];
        assert (false, trace) == Session(connect, cmd, files, host.transactRc);
      }
      ok := rc == 0;
    }

    /** The client_t wrappers: each sends its operation's command. */
    method Perform(op: Operation, files: seq<string>, host: Host) returns (ok: bool, trace: seq<Event>)
      modifies this
      ensures (ok, trace) == Session(ConnectOutcome(old(socketName), old(cmdline), host), Verb(op), files, host.transactRc)
      ensures (socketName, cmdline) == CachesAfterConnect(old(socketName), old(cmdline), host)
    {
      ok, trace := CallAssuan(Verb(op), files, host);
    }
  }
}
