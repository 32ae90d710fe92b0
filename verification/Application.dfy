/**
 What the calls of the application do to the application itself: which of them return, what they
 leave behind, and that it can go on writing.
 */
module Application {
  import opened Scan
  import opened Devices
  import opened ClientTable
  import opened EndToEnd
  import opened Delivery
  import Registry
  import Redirection
  import Dispatch

  // ----- Writes that stay in the process -----

  /** A write to a descriptor that no entry has changes nothing anywhere and sends nothing. */
  lemma LocalWriteChangesNothing(c: Config, s: Sys, fd: int, data: seq<char>, written: int)
    requires Dispatch.Shaped(s.server) && forall k :: 0 <= k < |s.client.entries| ==> s.client.entries[k].fd != fd
    ensures EndToEnd.Step(c, s, AppWrite(fd, data, written)) == s
    ensures InputOf(c, s.client, AppWrite(fd, data, written)) == []
  {
    RoutesExactly(s.client.entries, fd);
  }

  /** The descriptor was given to the application by an open of a locked path. */
  ghost predicate LiveFd(log: seq<LiveOpen>, fd: int) {
    exists r :: r in log && r.fd == fd
  }

  /** In every run a write stays in the process exactly when its descriptor is not 0 and was not
      given by an open of a locked path. */
  lemma LocalExactly(c: Config, pre: seq<Dispatch.Input>, acts: seq<Act>, fd: int)
    requires Good(c, pre, acts)
    ensures RouteOf(EndToEnd.After(c, pre, acts).client.entries, fd) == Local <==>
            fd != 0 && !LiveFd(LiveOpens(c, pre, acts), fd)
  {
    RunKeepsLinked(c, pre, acts);
    TableLocalExactly(c, EndToEnd.After(c, pre, acts).client, LiveOpens(c, pre, acts), fd);
  }

  /** The entry behind the locked paths is never opened. */
  lemma SpareEntry(c: Config, client: Client, log: seq<LiveOpen>)
    requires TableOk(c, client, log)
    ensures client.entries[|c.flat|].fd == 0
  {
    assert !Taken(log, |c.flat|);
  }

  lemma TakenIsLive(c: Config, client: Client, log: seq<LiveOpen>, k: nat)
    requires TableOk(c, client, log) && k < |client.entries| && client.entries[k].fd != 0
    ensures LiveFd(log, client.entries[k].fd)
  {
    assert Taken(log, k);
    var a :| 0 <= a < |log| && log[a].slot == k;
    assert log[a] in log;
  }

  lemma TableLocalExactly(c: Config, client: Client, log: seq<LiveOpen>, fd: int)
    requires TableOk(c, client, log)
    ensures RouteOf(client.entries, fd) == Local <==> fd != 0 && !LiveFd(log, fd)
  {
    var e := client.entries;
    RoutesExactly(e, fd);
    SpareEntry(c, client, log);
    forall k | 0 <= k < |e| && e[k].fd != 0 ensures LiveFd(log, e[k].fd) {
      TakenIsLive(c, client, log, k);
    }
    if LiveFd(log, fd) {
      var r :| r in log && r.fd == fd;
      assert e[r.slot].fd == fd;
    }
  }

  // ----- Writes to locked files -----

  /** What the daemon's tables are good for in every run. */
  lemma RunAnswers(c: Config, pre: seq<Dispatch.Input>, acts: seq<Act>, m: Dispatch.Message)
    requires Registers(c, pre) && Orderly(c, acts) && !EndToEnd.After(c, pre, acts).server.red.crashed
    ensures var s := EndToEnd.After(c, pre, acts).server;
            && Dispatch.Heard(s, c.pipe, m)
            && Dispatch.AnswerIs(s, c.devs, c.flat, m, Dispatch.Serve(s, c.devs, c.flat, c.pipe, m).1)
  {
    var s := EndToEnd.After(c, pre, acts).server;
    var k := RunMapped(c, pre, acts);
    MappedIsHeard(s, k, c, m);
    ServerRuns(c, pre, acts);
    Redirection.RunKeepsCoupled(c.devs, AllRequests(c, pre, acts));
    Dispatch.AnswersInState(s, c.devs, c.flat, c.pipe, m);
  }

  /** A crashed daemon does not answer. */
  lemma CrashedIsGone(c: Config, s: Dispatch.Server, m: Dispatch.Message)
    requires Dispatch.Shaped(s) && s.red.crashed
    ensures Dispatch.Serve(s, c.devs, c.flat, c.pipe, m) == (s, Dispatch.Gone)
  {
  }

  /** A write that is sent returns exactly on a good reply, and changes nothing but that. */
  lemma SentWrite(c: Config, s: Sys, fd: int, data: seq<char>, written: int, name: string)
    requires Dispatch.Shaped(s.server) && s.client.alive && RouteOf(s.client.entries, fd) == Remote(name)
    ensures var m := Dispatch.WriteFile(name, Payload(data), written);
            var (server, reply) := Dispatch.Serve(s.server, c.devs, c.flat, c.pipe, m);
            EndToEnd.Step(c, s, AppWrite(fd, data, written)) == Sys(server, s.client.(alive := Ok(reply)))
            && server == s.server
  {
  }

  /**
   A write to a descriptor that an open of a locked path gave.  It leaves the daemon and the table
   as they are, and it returns to the application exactly when the daemon is up and the kernel
   performs the write there; otherwise it ends the application.
   */
  lemma LiveWriteReturnsExactly(c: Config, pre: seq<Dispatch.Input>, acts: seq<Act>, r: LiveOpen,
                                data: seq<char>, written: int)
    requires Good(c, pre, acts) && r in LiveOpens(c, pre, acts) && EndToEnd.After(c, pre, acts).client.alive
    ensures var s, t := EndToEnd.After(c, pre, acts), EndToEnd.After(c, pre, acts + [AppWrite(r.fd, data, written)]);
            && t.server == s.server && t.client.entries == s.client.entries
            && (t.client.alive <==> !s.server.red.crashed && written >= 0)
  {
    var s, m := EndToEnd.After(c, pre, acts), Dispatch.WriteFile(r.dummy, Payload(data), written);
    OneMore(c, pre, acts, AppWrite(r.fd, data, written));
    WriteIsSent(c, pre, acts, r, data, written);
    SentWrite(c, s, r.fd, data, written, r.dummy);
    if s.server.red.crashed {
      CrashedIsGone(c, s.server, m);
    } else {
      RunAnswers(c, pre, acts, m);
      IsRecorded(c, pre, acts, r);
    }
  }

  lemma IsRecorded(c: Config, pre: seq<Dispatch.Input>, acts: seq<Act>, r: LiveOpen)
    requires Good(c, pre, acts) && r in LiveOpens(c, pre, acts)
    ensures Dispatch.Recorded(EndToEnd.After(c, pre, acts).server.red, r.dummy)
  {
    RunKeepsLinked(c, pre, acts);
    var opens := EndToEnd.After(c, pre, acts).server.red.opens;
    assert ServedOpen(opens, r);
    var b :| 0 <= b < |opens| && opens[b].path == r.path && opens[b].dummy == r.dummy;
    assert r.dummy <= opens[b].dummy;
  }

  /** No locked path begins a dummy name. */
  ghost predicate PlainPaths(c: Config) {
    forall k :: 0 <= k < |c.flat| ==> !DummyLike(c.flat[k])
  }

  /** Descriptor 0 leads to an entry that was never opened. */
  lemma ZeroNamesLockedPath(c: Config, client: Client, log: seq<LiveOpen>)
    requires TableOk(c, client, log)
    ensures var r := RouteOf(client.entries, 0);
            r == Fatal || (r.Remote? && exists k :: 0 <= k < |c.flat| && r.name == c.flat[k])
  {
    TableLocalExactly(c, client, log, 0);
    var k := FdSlot(client.entries, 0);
    assert client.entries[k] == Fill(c.flat).entries[k];
  }

  /** A plain path is no name of the daemon's. */
  lemma PlainIsNotRecorded(c: Config, pre: seq<Dispatch.Input>, acts: seq<Act>, path: string)
    requires Good(c, pre, acts) && !DummyLike(path)
    ensures !Dispatch.Recorded(EndToEnd.After(c, pre, acts).server.red, path)
  {
    RunTemplated(c, pre, acts);
    var opens := EndToEnd.After(c, pre, acts).server.red.opens;
    forall b | 0 <= b < |opens| ensures !(path <= opens[b].dummy) {
      BeginningIsDummyLike(path, opens[b].dummy);
    }
  }

  /** A write that names nothing recorded ends the application. */
  lemma UnrecordedWriteIsFatal(c: Config, pre: seq<Dispatch.Input>, acts: seq<Act>, fd: int, data: seq<char>,
                               written: int, name: string)
    requires Registers(c, pre) && Orderly(c, acts) && EndToEnd.After(c, pre, acts).client.alive
    requires RouteOf(EndToEnd.After(c, pre, acts).client.entries, fd) == Remote(name)
    requires !Dispatch.Recorded(EndToEnd.After(c, pre, acts).server.red, name)
    ensures var s := EndToEnd.After(c, pre, acts);
            EndToEnd.Step(c, s, AppWrite(fd, data, written)) == Sys(s.server, s.client.(alive := false))
  {
    var s, m := EndToEnd.After(c, pre, acts), Dispatch.WriteFile(name, Payload(data), written);
    SentWrite(c, s, fd, data, written, name);
    if s.server.red.crashed {
      CrashedIsGone(c, s.server, m);
    } else {
      RunAnswers(c, pre, acts, m);
    }
  }

  lemma FatalRoute(c: Config, s: Sys, fd: int, data: seq<char>, written: int)
    requires Dispatch.Shaped(s.server) && (!s.client.alive || RouteOf(s.client.entries, fd) == Fatal)
    ensures EndToEnd.Step(c, s, AppWrite(fd, data, written)) == Sys(s.server, s.client.(alive := false))
  {
  }

  /** A write to descriptor 0 ends the application, whatever it has opened. */
  lemma ZeroWriteIsFatal(c: Config, pre: seq<Dispatch.Input>, acts: seq<Act>, data: seq<char>, written: int)
    requires Good(c, pre, acts) && PlainPaths(c)
    ensures var s, t := EndToEnd.After(c, pre, acts), EndToEnd.After(c, pre, acts + [AppWrite(0, data, written)]);
            t == Sys(s.server, s.client.(alive := false))
  {
    var s := EndToEnd.After(c, pre, acts);
    OneMore(c, pre, acts, AppWrite(0, data, written));
    RunKeepsLinked(c, pre, acts);
    ZeroNamesLockedPath(c, s.client, LiveOpens(c, pre, acts));
    var route := RouteOf(s.client.entries, 0);
    if s.client.alive && route.Remote? {
      PlainIsNotRecorded(c, pre, acts, route.name);
      UnrecordedWriteIsFatal(c, pre, acts, 0, data, written, route.name);
    } else {
      FatalRoute(c, s, 0, data, written);
    }
  }

  /**
   Every write of a living application, in every run: it changes no table, and it returns exactly
   if its descriptor was given by an open of a locked path and the daemon performs the write, or if
   its descriptor is any other one but 0.
   */
  lemma WriteReturnsExactly(c: Config, pre: seq<Dispatch.Input>, acts: seq<Act>, fd: int, data: seq<char>, written: int)
    requires Good(c, pre, acts) && (fd == 0 ==> PlainPaths(c)) && EndToEnd.After(c, pre, acts).client.alive
    ensures var s, t := EndToEnd.After(c, pre, acts), EndToEnd.After(c, pre, acts + [AppWrite(fd, data, written)]);
            && t.server == s.server && t.client.entries == s.client.entries
            && (t.client.alive <==> if LiveFd(LiveOpens(c, pre, acts), fd)
                                    then !s.server.red.crashed && written >= 0 else fd != 0)
  {
    var s, log := EndToEnd.After(c, pre, acts), LiveOpens(c, pre, acts);
    if LiveFd(log, fd) {
      var r :| r in log && r.fd == fd;
      LiveWriteReturnsExactly(c, pre, acts, r, data, written);
    } else if fd == 0 {
      ZeroWriteIsFatal(c, pre, acts, data, written);
    } else {
      LocalExactly(c, pre, acts, fd);
      RoutesExactly(s.client.entries, fd);
      LocalWriteChangesNothing(c, s, fd, data, written);
      OneMore(c, pre, acts, AppWrite(fd, data, written));
    }
  }

  // ----- Writing on and on -----

  /** Writes to descriptors that opens of the run gave, all performed by the kernel of the daemon. */
  ghost predicate PerformedWrites(log: seq<LiveOpen>, writes: seq<Act>) {
    forall i :: 0 <= i < |writes| ==> PerformedWrite(log, writes[i])
  }

  ghost predicate PerformedWrite(log: seq<LiveOpen>, w: Act) {
    w.AppWrite? && w.written >= 0 && LiveFd(log, w.fd)
  }

  /** At most one request follows, and it is a write. */
  ghost predicate AtMostAWrite(before: seq<Redirection.Request>, reqs: seq<Redirection.Request>) {
    reqs == before || (|reqs| == |before| + 1 && before <= reqs && reqs[|before|].Write?)
  }

  lemma OnlyAWrite(s: Dispatch.Server, pipe: int, m: Dispatch.Message, before: seq<Redirection.Request>)
    requires m.WriteFile?
    ensures AtMostAWrite(before, before + Dispatch.RequestOf(s, Dispatch.Msg(pipe, m)))
  {
    assert before + [] == before;
  }

  lemma SendsAWrite(c: Config, client: Client, act: Act)
    requires act.AppWrite?
    ensures var more := InputOf(c, client, act);
            more == [] || (more == [more[0]] && more[0].Msg? && more[0].m.WriteFile?)
  {
  }

  /** A write asks the daemon for nothing but a write. */
  lemma WriteRequests(c: Config, pre: seq<Dispatch.Input>, acts: seq<Act>, act: Act)
    requires |c.flat| <= MAX_LOCKED_FILES && act.AppWrite?
    ensures AtMostAWrite(AllRequests(c, pre, acts), AllRequests(c, pre, acts + [act]))
  {
    OneMore(c, pre, acts, act);
    var inputs, more := Inputs(c, pre, acts), InputOf(c, EndToEnd.After(c, pre, acts).client, act);
    SendsAWrite(c, EndToEnd.After(c, pre, acts).client, act);
    if more == [] {
      assert inputs + more == inputs;
    } else {
      RequestsNext(c, inputs, more[0]);
      OnlyAWrite(Dispatch.After(c.devs, c.flat, inputs), more[0].pipe, more[0].m, AllRequests(c, pre, acts));
    }
  }

  lemma WriteKeepsReal(before: seq<Redirection.Request>, reqs: seq<Redirection.Request>)
    requires Redirection.TempsFresh(before) && Redirection.PathsReal(before)
    requires |reqs| == |before| + 1 && before <= reqs && reqs[|before|].Write?
    ensures Redirection.TempsFresh(reqs) && Redirection.PathsReal(reqs)
  {
    assert forall i :: 0 <= i < |before| ==> reqs[i] == before[i];
  }

  lemma WriteKeepsOrder(c: Config, acts: seq<Act>, act: Act)
    requires Orderly(c, acts) && Apart(acts) && act.AppWrite?
    ensures Orderly(c, acts + [act]) && Apart(acts + [act])
  {
    var more := acts + [act];
    assert forall i :: 0 <= i < |more| ==> more[i] == if i < |acts| then acts[i] else act;
  }

  /** Any write may follow a good run. */
  lemma WriteKeepsGood(c: Config, pre: seq<Dispatch.Input>, acts: seq<Act>, act: Act)
    requires Good(c, pre, acts) && act.AppWrite?
    ensures Good(c, pre, acts + [act]) && LiveOpens(c, pre, acts + [act]) == LiveOpens(c, pre, acts)
  {
    WriteKeepsOrder(c, acts, act);
    WriteRequests(c, pre, acts, act);
    if AllRequests(c, pre, acts + [act]) != AllRequests(c, pre, acts) {
      WriteKeepsReal(AllRequests(c, pre, acts), AllRequests(c, pre, acts + [act]));
    }
    MakesPossible(c, pre, acts + [act]);
    OneMore(c, pre, acts, act);
    assert LiveOpens(c, pre, acts) + [] == LiveOpens(c, pre, acts);
  }

  /** Nothing has changed between two runs. */
  ghost predicate SameSystem(c: Config, pre: seq<Dispatch.Input>, acts: seq<Act>, acts': seq<Act>)
    requires |c.flat| <= MAX_LOCKED_FILES
  {
    && EndToEnd.After(c, pre, acts') == EndToEnd.After(c, pre, acts)
    && LiveOpens(c, pre, acts') == LiveOpens(c, pre, acts)
  }

  lemma {:induction false} WritesChangeNothing(c: Config, pre: seq<Dispatch.Input>, acts: seq<Act>, writes: seq<Act>)
    requires Good(c, pre, acts) && PerformedWrites(LiveOpens(c, pre, acts), writes)
    requires EndToEnd.After(c, pre, acts).client.alive && !EndToEnd.After(c, pre, acts).server.red.crashed
    ensures Good(c, pre, acts + writes) && SameSystem(c, pre, acts, acts + writes)
    decreases |writes|
  {
    if |writes| == 0 {
      assert acts + writes == acts;
    } else {
      var init, w := writes[..|writes| - 1], writes[|writes| - 1];
      FewerPerformed(LiveOpens(c, pre, acts), writes);
      WritesChangeNothing(c, pre, acts, init);
      OneMorePerformed(c, pre, acts + init, w);
      JoinWrites(acts, writes);
    }
  }

  lemma FewerPerformed(log: seq<LiveOpen>, writes: seq<Act>)
    requires PerformedWrites(log, writes) && |writes| > 0
    ensures PerformedWrites(log, writes[..|writes| - 1]) && PerformedWrite(log, writes[|writes| - 1])
  {
  }

  lemma JoinWrites(acts: seq<Act>, writes: seq<Act>)
    requires |writes| > 0
    ensures (acts + writes[..|writes| - 1]) + [writes[|writes| - 1]] == acts + writes
  {
  }

  /**
   An application can write to its locked files any number of times: after any sequence of writes
   that the daemon's kernel performs, the whole system is as before, and the next write still
   reaches its file.
   */
  lemma WritesGoOn(c: Config, pre: seq<Dispatch.Input>, acts: seq<Act>, writes: seq<Act>,
                   r: LiveOpen, data: seq<char>, written: int)
    requires Good(c, pre, acts) && r in LiveOpens(c, pre, acts)
    requires EndToEnd.After(c, pre, acts).client.alive && !EndToEnd.After(c, pre, acts).server.red.crashed
    requires PerformedWrites(LiveOpens(c, pre, acts), writes)
    ensures EndToEnd.After(c, pre, acts + writes) == EndToEnd.After(c, pre, acts)
    ensures Reaches(c, pre, acts + writes, r, data, written)
  {
    WritesChangeNothing(c, pre, acts, writes);
    WriteReachesItsFile(c, pre, acts + writes, r, data, written);
  }

  lemma OneMorePerformed(c: Config, pre: seq<Dispatch.Input>, acts: seq<Act>, w: Act)
    requires Good(c, pre, acts) && PerformedWrite(LiveOpens(c, pre, acts), w)
    requires EndToEnd.After(c, pre, acts).client.alive && !EndToEnd.After(c, pre, acts).server.red.crashed
    ensures Good(c, pre, acts + [w]) && SameSystem(c, pre, acts, acts + [w])
  {
    var r :| r in LiveOpens(c, pre, acts) && r.fd == w.fd;
    WriteKeepsGood(c, pre, acts, w);
    LiveWriteReturnsExactly(c, pre, acts, r, w.data, w.written);
  }

  // ----- Opens -----

  /**
   Every open of a living application, in every run: it returns exactly when an entry for the path
   is left, the daemon is up, its kernel opens the file, its descriptor table has room, the path has
   a dummy file or can be given one, and the application's kernel opens that with a descriptor above
   0; otherwise it ends the application.
   */
  lemma OpenReturnsExactly(c: Config, pre: seq<Dispatch.Input>, acts: seq<Act>, path: string, realFd: int,
                           temp: Redirection.Temp, fd: int)
    requires Good(c, pre, acts) && !DummyLike(path) && EndToEnd.After(c, pre, acts).client.alive
    ensures var s := EndToEnd.After(c, pre, acts);
            EndToEnd.After(c, pre, acts + [AppOpen(path, realFd, temp, fd)]).client.alive <==>
            && EntryLeft(c, LiveOpens(c, pre, acts), path) && !s.server.red.crashed && realFd != -1
            && |s.server.red.opens| < 1024 && (Redirection.HasDummy(s.server.red, path) || temp.Temp?) && fd > 0
  {
    OneMore(c, pre, acts, AppOpen(path, realFd, temp, fd));
    OpensConsumeEntries(c, pre, acts, path);
    if CheckLocked(EndToEnd.After(c, pre, acts).client.entries, path).Some? {
      ClientTableAgrees(c, pre, acts, path);
      LockedOpenReturns(c, pre, acts, AppOpen(path, realFd, temp, fd));
    }
  }

  lemma LockedOpenReturns(c: Config, pre: seq<Dispatch.Input>, acts: seq<Act>, act: Act)
    requires Registers(c, pre) && Orderly(c, acts) && EndToEnd.After(c, pre, acts).client.alive && act.AppOpen?
    requires CheckLocked(EndToEnd.After(c, pre, acts).client.entries, act.path).Some? && Locked(c.devs, act.path)
    ensures var s := EndToEnd.After(c, pre, acts);
            EndToEnd.Step(c, s, act).client.alive <==>
            && !s.server.red.crashed && act.realFd != -1 && |s.server.red.opens| < 1024
            && (Redirection.HasDummy(s.server.red, act.path) || act.temp.Temp?) && act.fd > 0
  {
    var s, m := EndToEnd.After(c, pre, acts), Dispatch.OpenFile(act.path, act.realFd, act.temp);
    SentOpen(c, s, act);
    if s.server.red.crashed {
      CrashedIsGone(c, s.server, m);
    } else {
      RunAnswers(c, pre, acts, m);
    }
  }

  lemma SentOpen(c: Config, s: Sys, act: Act)
    requires Dispatch.Shaped(s.server) && s.client.alive && act.AppOpen?
    requires CheckLocked(s.client.entries, act.path).Some?
    ensures EndToEnd.Step(c, s, act).client.alive <==>
            Ok(Answer(c, s.server, act).1) && Answer(c, s.server, act).1.body.OpenedFile? && act.fd > 0
  {
  }

  // ----- Everybody else -----

  /** The others reach the daemon and never the application. */
  lemma OthersReachOnlyTheDaemon(c: Config, pre: seq<Dispatch.Input>, acts: seq<Act>, input: Dispatch.Input)
    requires |c.flat| <= MAX_LOCKED_FILES
    ensures var s := EndToEnd.After(c, pre, acts);
            EndToEnd.After(c, pre, acts + [World(input)]) ==
            Sys(Dispatch.Next(s.server, c.devs, c.flat, input), s.client)
  {
    OneMore(c, pre, acts, World(input));
  }
}
