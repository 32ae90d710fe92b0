/**
 What the end-to-end theorem covers: its assumptions can be met, its restriction on paths is exact,
 the loader feeds it, and what opening a path costs the application.
 */
module Delivery {
  import opened Scan
  import opened Devices
  import opened ClientTable
  import opened EndToEnd
  import Registry
  import Redirection
  import Dispatch

  // ----- Extending a run -----

  lemma OneMore(c: Config, pre: seq<Dispatch.Input>, acts: seq<Act>, act: Act)
    requires |c.flat| <= MAX_LOCKED_FILES
    ensures var s, t := EndToEnd.After(c, pre, acts), EndToEnd.After(c, pre, acts + [act]);
            && t == EndToEnd.Step(c, s, act)
            && LiveOpens(c, pre, acts + [act]) == LiveOpens(c, pre, acts) + OpenMade(s.client, t.client, act)
    ensures Inputs(c, pre, acts + [act]) ==
            Inputs(c, pre, acts) + InputOf(c, EndToEnd.After(c, pre, acts).client, act)
  {
    assert (acts + [act])[..|acts|] == acts;
  }

  /** An open adds at most its own request. */
  lemma OneMoreRequest(c: Config, pre: seq<Dispatch.Input>, acts: seq<Act>, act: Act)
    requires |c.flat| <= MAX_LOCKED_FILES && act.AppOpen?
    ensures var before, reqs := AllRequests(c, pre, acts), AllRequests(c, pre, acts + [act]);
            reqs == before || reqs == before + [Redirection.Open(act.path, act.realFd, act.temp)]
  {
    OneMore(c, pre, acts, act);
    var inputs, more := Inputs(c, pre, acts), InputOf(c, EndToEnd.After(c, pre, acts).client, act);
    if more == [] {
      assert inputs + more == inputs;
    } else {
      assert (inputs + more)[..|inputs|] == inputs;
      assert AllRequests(c, pre, acts) + [] == AllRequests(c, pre, acts);
    }
  }

  /** The daemon's answer to an open of the application. */
  function Answer(c: Config, s: Dispatch.Server, act: Act): (Dispatch.Server, Dispatch.Reply)
    requires Dispatch.Shaped(s) && act.AppOpen?
  {
    Dispatch.Serve(s, c.devs, c.flat, c.pipe, Dispatch.OpenFile(act.path, act.realFd, act.temp))
  }

  /** An open that the daemon answers returns to the application. */
  lemma OpenReturns(c: Config, s: Sys, act: Act, dummy: string)
    requires Dispatch.Shaped(s.server) && s.client.alive && act.AppOpen? && act.fd > 0
    requires CheckLocked(s.client.entries, act.path).Some?
    requires Answer(c, s.server, act).1 == Dispatch.Reply(0, Dispatch.OpenedFile(dummy))
    ensures var t := EndToEnd.Step(c, s, act);
            && t.client.alive && t.client == Open(s.client, act.path, Some(dummy), act.fd)
            && OpenMade(s.client, t.client, act) ==
               [LiveOpen(act.path, dummy, act.fd, CheckLocked(s.client.entries, act.path).value)]
            && t.server == Answer(c, s.server, act).0
  {
  }

  lemma OpenReturnsNext(c: Config, pre: seq<Dispatch.Input>, acts: seq<Act>, act: Act, dummy: string)
    requires |c.flat| <= MAX_LOCKED_FILES && EndToEnd.After(c, pre, acts).client.alive && act.AppOpen? && act.fd > 0
    requires CheckLocked(EndToEnd.After(c, pre, acts).client.entries, act.path) == Some(0)
    requires Answer(c, EndToEnd.After(c, pre, acts).server, act).1 == Dispatch.Reply(0, Dispatch.OpenedFile(dummy))
    ensures var s, t := EndToEnd.After(c, pre, acts), EndToEnd.After(c, pre, acts + [act]);
            && t.client.alive && t.client == Open(s.client, act.path, Some(dummy), act.fd)
            && t.server.red == Answer(c, s.server, act).0.red
            && LiveOpens(c, pre, acts + [act]) == LiveOpens(c, pre, acts) + [LiveOpen(act.path, dummy, act.fd, 0)]
  {
    OneMore(c, pre, acts, act);
    OpenReturns(c, EndToEnd.After(c, pre, acts), act, dummy);
  }

  // ----- A daemon with a few locked paths -----

  function Locks(paths: seq<string>): Config {
    Config([Device(true, 0, "", DEVICE_TYPE_FILE_LOCK, paths)], paths, 1, 1)
  }

  /** One or two paths, which is all that the runs below need. */
  predicate Few(paths: seq<string>) {
    0 < |paths| <= 2
  }

  lemma LocksPath(paths: seq<string>, path: string)
    requires path in paths
    ensures Locked(Locks(paths).devs, path)
  {
    var k :| 0 <= k < |paths| && paths[k] == path;
    assert PathIndex(paths, path) <= k;
  }

  lemma LocksFlat(paths: seq<string>)
    requires Few(paths)
    ensures Flat(Locks(paths))
  {
    var devs := Locks(paths).devs;
    assert devs[..0] == [];
    assert Flatten(devs) == [] + paths == paths;
  }

  lemma LocksRegisters(paths: seq<string>)
    requires Few(paths)
    ensures Registers(Locks(paths), [])
  {
    LocksFlat(paths);
    FirstAccepted(Locks(paths), []);
  }

  lemma FirstAccepted(c: Config, pre: seq<Dispatch.Input>)
    requires pre == [] && c.pipe > 0
    ensures Accepted(c, pre)
  {
    Registry.InitialBijection();
    Registry.RegisterExactly(Registry.Initial(), c.pipe, c.pid);
    CountNone(Registry.Initial().tenants, (t: Registry.Tenant) => t.isActive);
  }

  lemma RegistrationRequestsNothing(s: Dispatch.Server, c: Config)
    requires Dispatch.Shaped(s)
    ensures var reg := Dispatch.Msg(c.pipe, Dispatch.RegisterClient(c.pid));
            Dispatch.RequestOf(s, reg) == [] && Dispatch.Next(s, c.devs, c.flat, reg).red == s.red
  {
  }

  lemma NothingOpenedYet(c: Config, pre: seq<Dispatch.Input>)
    requires |c.flat| <= MAX_LOCKED_FILES && pre == []
    ensures Start(c, pre).server.red == Redirection.INITIAL
  {
    RegistrationRequestsNothing(Dispatch.After(c.devs, c.flat, pre), c);
  }

  lemma NothingRequestedYet(c: Config, pre: seq<Dispatch.Input>, acts: seq<Act>)
    requires |c.flat| <= MAX_LOCKED_FILES && pre == [] && acts == []
    ensures AllRequests(c, pre, acts) == []
  {
    RegistrationRequestsNothing(Dispatch.After(c.devs, c.flat, pre), c);
    RequestsNext(c, pre, Dispatch.Msg(c.pipe, Dispatch.RegisterClient(c.pid)));
  }

  lemma RequestsNext(c: Config, inputs: seq<Dispatch.Input>, input: Dispatch.Input)
    ensures Dispatch.Requests(c.devs, c.flat, inputs + [input]) ==
            Dispatch.Requests(c.devs, c.flat, inputs)
            + Dispatch.RequestOf(Dispatch.After(c.devs, c.flat, inputs), input)
  {
    assert (inputs + [input])[..|inputs|] == inputs;
  }

  /** An open that is heard does to the redirection tables what its request does. */
  lemma HeardOpen(s: Dispatch.Server, c: Config, act: Act, red: Redirection.State, dummy: string)
    requires Dispatch.Shaped(s) && act.AppOpen?
    requires Dispatch.Heard(s, c.pipe, Dispatch.OpenFile(act.path, act.realFd, act.temp))
    requires Redirection.Step(s.red, c.devs, RequestOf(act)) == (red, Redirection.Opened(dummy))
    ensures Answer(c, s, act) == (s.(red := red), Dispatch.Reply(0, Dispatch.OpenedFile(dummy)))
  {
  }

  /** The request that an open of the application becomes. */
  function RequestOf(act: Act): Redirection.Request
    requires act.AppOpen?
  {
    Redirection.Open(act.path, act.realFd, act.temp)
  }

  /** An open with answers that the kernels can give, and a dummy file at hand. */
  predicate Proper(act: Act) {
    && act.AppOpen? && act.realFd != -1 && act.fd > 0
    && act.temp.Temp? && act.temp.fd > 0 && Redirection.TempOk(act.temp)
    && Redirection.PathReal(RequestOf(act))
  }

  /** The redirection tables after the first such open. */
  function FirstTables(act: Act): Redirection.State
    requires act.AppOpen? && act.temp.Temp?
  {
    Redirection.State([Redirection.MemoEntry(Redirection.Key(act.path), act.temp.name)],
                      [Redirection.OpenRecord(act.path, act.temp.name, act.realFd)], false)
  }

  lemma FirstHeard(paths: seq<string>, m: Dispatch.Message)
    requires Few(paths)
    ensures Dispatch.Heard(Start(Locks(paths), []).server, 1, m)
  {
    var c := Locks(paths);
    LocksRegisters(paths);
    NothingOpenedYet(c, []);
    var k := StartMapped(c, []);
    MappedIsHeard(Start(c, []).server, k, c, m);
  }

  lemma FirstReply(paths: seq<string>, act: Act)
    requires Few(paths) && Proper(act) && act.path == paths[0]
    ensures var (t, reply) := Answer(Locks(paths), Start(Locks(paths), []).server, act);
            reply == Dispatch.Reply(0, Dispatch.OpenedFile(act.temp.name)) && t.red == FirstTables(act)
  {
    var c := Locks(paths);
    FirstHeard(paths, Dispatch.OpenFile(act.path, act.realFd, act.temp));
    NothingOpenedYet(c, []);
    LocksPath(paths, act.path);
    Redirection.FirstOpen(c.devs, RequestOf(act));
    HeardOpen(Start(c, []).server, c, act, FirstTables(act), act.temp.name);
  }

  lemma FirstMatches(paths: seq<string>)
    requires Few(paths)
    ensures CheckLocked(Fill(paths).entries, paths[0]) == Some(0)
  {
    FreshTableAgrees(paths, paths[0]);
    assert PathIndex(paths, paths[0]) == 0;
  }

  lemma FirstAct(c: Config, act: Act)
    requires |c.flat| <= MAX_LOCKED_FILES
    ensures EndToEnd.After(c, [], [act]) == EndToEnd.Step(c, Start(c, []), act)
    ensures LiveOpens(c, [], [act]) == OpenMade(Fill(c.flat), EndToEnd.Step(c, Start(c, []), act).client, act)
  {
    assert [] + [act] == [act];
    OneMore(c, [], [], act);
  }

  lemma FirstOpenReturns(paths: seq<string>, act: Act)
    requires Few(paths) && Proper(act) && act.path == paths[0]
    ensures var c := Locks(paths);
            var s := EndToEnd.After(c, [], [act]);
            && s.client == Open(Fill(paths), act.path, Some(act.temp.name), act.fd) && s.client.alive
            && s.server.red == FirstTables(act)
            && LiveOpens(c, [], [act]) == [LiveOpen(act.path, act.temp.name, act.fd, 0)]
  {
    var c := Locks(paths);
    FirstReply(paths, act);
    FirstMatches(paths);
    OpenReturns(c, Start(c, []), act, act.temp.name);
    FirstAct(c, act);
  }

  /** Some of these two requests, in this order. */
  ghost predicate Among(reqs: seq<Redirection.Request>, r1: Redirection.Request, r2: Redirection.Request) {
    reqs == [] || reqs == [r1] || reqs == [r2] || reqs == [r1, r2]
  }

  lemma AmongIsReal(reqs: seq<Redirection.Request>, first: Act, second: Act)
    requires Proper(first) && Proper(second) && first.temp.name != second.temp.name
    requires Among(reqs, RequestOf(first), RequestOf(second))
    ensures Redirection.TempsFresh(reqs) && Redirection.PathsReal(reqs)
  {
  }

  lemma FirstRequests(c: Config, first: Act)
    requires |c.flat| <= MAX_LOCKED_FILES && first.AppOpen?
    ensures AllRequests(c, [], [first]) == [] || AllRequests(c, [], [first]) == [RequestOf(first)]
  {
    assert [] + [first] == [first];
    OneRequest(c, [], [], first);
  }

  lemma OneRequest(c: Config, pre: seq<Dispatch.Input>, acts: seq<Act>, act: Act)
    requires |c.flat| <= MAX_LOCKED_FILES && act.AppOpen? && pre == [] && acts == []
    ensures AllRequests(c, pre, acts + [act]) == [] || AllRequests(c, pre, acts + [act]) == [RequestOf(act)]
  {
    NothingRequestedYet(c, pre, acts);
    OneMoreRequest(c, pre, acts, act);
  }

  lemma TwoRequests(c: Config, first: Act, second: Act)
    requires |c.flat| <= MAX_LOCKED_FILES && first.AppOpen? && second.AppOpen?
    ensures Among(AllRequests(c, [], [first, second]), RequestOf(first), RequestOf(second))
  {
    FirstRequests(c, first);
    assert [first] + [second] == [first, second];
    OneMoreRequest(c, [], [first], second);
    AmongExtends(AllRequests(c, [], [first]), AllRequests(c, [], [first, second]), RequestOf(first), RequestOf(second));
  }

  lemma AmongExtends(before: seq<Redirection.Request>, reqs: seq<Redirection.Request>,
                     r1: Redirection.Request, r2: Redirection.Request)
    requires (before == [] || before == [r1]) && (reqs == before || reqs == before + [r2])
    ensures Among(reqs, r1, r2)
  {
    assert [] + [r2] == [r2] && [r1] + [r2] == [r1, r2];
  }

  /** For every path that an application may open alone there is a run in which it is opened and all
      assumptions of the end-to-end theorem hold. */
  lemma GoodRunsExist(path: string, realFd: int, temp: Redirection.Temp, fd: int)
    requires path != "" && Compatible(path, path) && realFd != -1 && fd > 0
    requires temp.Temp? && temp.fd > 0 && Redirection.TempOk(temp) && temp.name != path
    ensures var c, acts := Locks([path]), [AppOpen(path, realFd, temp, fd)];
            && Good(c, [], acts)
            && LiveOpens(c, [], acts) == [LiveOpen(path, temp.name, fd, 0)]
            && EndToEnd.After(c, [], acts).client.alive && !EndToEnd.After(c, [], acts).server.red.crashed
  {
    var c, act := Locks([path]), AppOpen(path, realFd, temp, fd);
    FirstOpenReturns([path], act);
    FirstOpenGood([path], act);
  }

  lemma FirstOpenGood(paths: seq<string>, act: Act)
    requires Few(paths) && Proper(act) && Compatible(act.path, act.path)
    ensures Good(Locks(paths), [], [act])
  {
    var c := Locks(paths);
    LocksRegisters(paths);
    FirstRequests(c, act);
    OneIsReal(AllRequests(c, [], [act]), act);
    OneOpenOrderly(c, act);
    MakesPossible(c, [], [act]);
  }

  lemma OneOpenOrderly(c: Config, act: Act)
    requires act.AppOpen? && Compatible(act.path, act.path)
    ensures Orderly(c, [act]) && Apart([act])
  {
  }

  lemma MakesPossible(c: Config, pre: seq<Dispatch.Input>, acts: seq<Act>)
    requires Registers(c, pre) && Orderly(c, acts)
    requires Redirection.TempsFresh(AllRequests(c, pre, acts)) && Redirection.PathsReal(AllRequests(c, pre, acts))
    ensures Possible(c, pre, acts)
  {
  }

  lemma OneIsReal(reqs: seq<Redirection.Request>, act: Act)
    requires Proper(act) && (reqs == [] || reqs == [RequestOf(act)])
    ensures Redirection.TempsFresh(reqs) && Redirection.PathsReal(reqs)
  {
  }

  // ----- The restriction on paths is exact -----

  /** Two opens, the second of a path that begins the dummy name of the first. */
  predicate Clash(paths: seq<string>, first: Act, second: Act) {
    && Few(paths) && Proper(first) && Proper(second) && first.path == paths[0] && second.path in paths
    && first.fd != second.fd && first.temp.name != second.temp.name && second.path <= first.temp.name
  }

  lemma StillHeard(paths: seq<string>, first: Act, m: Dispatch.Message)
    requires Few(paths) && first.AppOpen? && !EndToEnd.After(Locks(paths), [], [first]).server.red.crashed
    ensures Dispatch.Heard(EndToEnd.After(Locks(paths), [], [first]).server, 1, m)
  {
    var c := Locks(paths);
    LocksRegisters(paths);
    var k := RunMapped(c, [], [first]);
    MappedIsHeard(EndToEnd.After(c, [], [first]).server, k, c, m);
  }

  lemma SecondReply(paths: seq<string>, first: Act, second: Act) returns (dummy: string)
    requires Clash(paths, first, second)
    ensures var (t, reply) := Answer(Locks(paths), EndToEnd.After(Locks(paths), [], [first]).server, second);
            reply == Dispatch.Reply(0, Dispatch.OpenedFile(dummy)) && !t.red.crashed
  {
    var c, r := Locks(paths), RequestOf(second);
    var s := EndToEnd.After(c, [], [first]).server;
    FirstOpenReturns(paths, first);
    StillHeard(paths, first, Dispatch.OpenFile(second.path, second.realFd, second.temp));
    LocksPath(paths, second.path);
    Redirection.OpensExactly(s.red, c.devs, r);
    var (red, out) := Redirection.Step(s.red, c.devs, r);
    dummy := out.dummy;
    HeardOpen(s, c, second, red, dummy);
  }

  /** The client after the two opens: the second one took the entry of the first. */
  lemma SecondTakesEntry(paths: seq<string>, first: Act, second: Act, dummy: string)
    requires Clash(paths, first, second)
    ensures var once := Open(Fill(paths), first.path, Some(first.temp.name), first.fd);
            && CheckLocked(once.entries, second.path) == Some(0)
            && RouteOf(Open(once, second.path, Some(dummy), second.fd).entries, first.fd) == Local
  {
    FirstMatches(paths);
    var once := Open(Fill(paths), first.path, Some(first.temp.name), first.fd);
    assert once.entries == Fill(paths).entries[0 := Entry(Some(first.temp.name), first.fd)];
    assert MatchSlot(once.entries, second.path) == 0;
    var e := Open(once, second.path, Some(dummy), second.fd).entries;
    assert e == Fill(paths).entries[0 := Entry(Some(dummy), second.fd)];
    assert forall k :: 0 <= k < |e| ==> e[k].fd != first.fd;
  }

  lemma SecondOpenReturns(paths: seq<string>, first: Act, second: Act)
    requires Clash(paths, first, second)
    ensures var c := Locks(paths);
            var s := EndToEnd.After(c, [], [first, second]);
            && s.client.alive && !s.server.red.crashed
            && LiveOpen(first.path, first.temp.name, first.fd, 0) in LiveOpens(c, [], [first, second])
            && RouteOf(s.client.entries, first.fd) == Local
  {
    var c := Locks(paths);
    FirstOpenReturns(paths, first);
    var dummy := SecondReply(paths, first, second);
    SecondTakesEntry(paths, first, second, dummy);
    assert [first] + [second] == [first, second];
    OpenReturnsNext(c, [], [first], second, dummy);
  }

  lemma TwoOpensPossible(paths: seq<string>, first: Act, second: Act)
    requires Clash(paths, first, second)
    ensures Possible(Locks(paths), [], [first, second])
  {
    var c := Locks(paths);
    LocksRegisters(paths);
    TwoRequests(c, first, second);
    AmongIsReal(AllRequests(c, [], [first, second]), first, second);
    TwoOpensOrderly(c, first, second);
    MakesPossible(c, [], [first, second]);
  }

  lemma TwoOpensOrderly(c: Config, first: Act, second: Act)
    requires first.AppOpen? && second.AppOpen? && first.fd != second.fd
    ensures Orderly(c, [first, second])
  {
  }

  /** Every write to the descriptor of an open that returned reaches its file. */
  ghost predicate Delivered(c: Config, pre: seq<Dispatch.Input>, acts: seq<Act>)
    requires |c.flat| <= MAX_LOCKED_FILES
  {
    EndToEnd.After(c, pre, acts).client.alive && !EndToEnd.After(c, pre, acts).server.red.crashed ==>
      forall r: LiveOpen, data: seq<char>, written: int :: r in LiveOpens(c, pre, acts) ==>
        Reaches(c, pre, acts, r, data, written)
  }

  /** It does so in every possible run that opens only these paths. */
  ghost predicate AlwaysDelivered(paths: iset<string>) {
    forall c: Config, pre: seq<Dispatch.Input>, acts: seq<Act> ::
      Possible(c, pre, acts) && OpensOnly(acts, paths) ==> Delivered(c, pre, acts)
  }

  /** Any two of the paths are compatible: no nonempty one begins a dummy name, except that a single
      one may be as long as a dummy name. */
  ghost predicate Clear(paths: iset<string>) {
    forall p, q :: p in paths && q in paths ==> Compatible(p, q)
  }

  /**
   Writes reach their files in every run that opens only paths of a given set if and only if no
   nonempty path of the set begins a name that `mkstemp` can make, or the set has a single nonempty
   path and that is as long as such a name.
   */
  lemma DeliveredExactly(paths: iset<string>)
    ensures AlwaysDelivered(paths) <==> Clear(paths)
  {
    if Clear(paths) {
      forall c: Config, pre: seq<Dispatch.Input>, acts: seq<Act> | Possible(c, pre, acts) && OpensOnly(acts, paths)
        ensures Delivered(c, pre, acts)
      {
        GoodRunsDeliver(c, pre, acts);
      }
    } else {
      var p, q :| p in paths && q in paths && !Compatible(p, q);
      IncompatibleUndelivered(p, q, paths);
    }
  }

  lemma GoodRunsDeliver(c: Config, pre: seq<Dispatch.Input>, acts: seq<Act>)
    requires Good(c, pre, acts)
    ensures Delivered(c, pre, acts)
  {
    if EndToEnd.After(c, pre, acts).client.alive && !EndToEnd.After(c, pre, acts).server.red.crashed {
      forall r: LiveOpen, data: seq<char>, written: int | r in LiveOpens(c, pre, acts)
        ensures Reaches(c, pre, acts, r, data, written)
      {
        WriteReachesItsFile(c, pre, acts, r, data, written);
      }
    }
  }

  /**
   For any two paths that are not compatible, a run of the whole system in which a write to a
   descriptor of the application stays in its process.  A path shorter than a dummy name is opened
   twice; one as long as a dummy name is opened after the other path was given that very name.
   */
  lemma IncompatibleUndelivered(p: string, q: string, paths: iset<string>)
    requires !Compatible(p, q) && p in paths && q in paths
    ensures !AlwaysDelivered(paths)
  {
    var name := SomeName(p);
    var target := if |p| < Redirection.DUMMY_NAME_LEN then p else q;
    var first := AppOpen(target, 3, Redirection.Temp(4, name), 5);
    var second := AppOpen(p, 6, Redirection.Temp(7, NameBut(name, p)), 8);
    ClashUndelivered(if target == p then [p] else [target, p], first, second, paths);
  }

  /** A name that `mkstemp` can make, other than two given ones. */
  function NameBut(a: string, b: string): (name: string)
    ensures Redirection.TempNamed(name) && name != a && name != b
  {
    if "locked_aaaaaa" != a && "locked_aaaaaa" != b then "locked_aaaaaa"
    else if "locked_bbbbbb" != a && "locked_bbbbbb" != b then "locked_bbbbbb"
    else "locked_cccccc"
  }

  lemma ClashUndelivered(locked: seq<string>, first: Act, second: Act, paths: iset<string>)
    requires Clash(locked, first, second) && first.path in paths && second.path in paths
    ensures !AlwaysDelivered(paths)
  {
    TwoOpensPossible(locked, first, second);
    SecondOpenReturns(locked, first, second);
    TwoOpensOnly(first, second, paths);
    Refutes(Locks(locked), [first, second], LiveOpen(first.path, first.temp.name, first.fd, 0), paths);
  }

  lemma TwoOpensOnly(first: Act, second: Act, paths: iset<string>)
    requires first.AppOpen? && second.AppOpen? && first.path in paths && second.path in paths
    ensures OpensOnly([first, second], paths)
  {
  }

  /** A possible run in which a write to the descriptor of an open stays in the process. */
  lemma Refutes(c: Config, acts: seq<Act>, r: LiveOpen, paths: iset<string>)
    requires Possible(c, [], acts) && OpensOnly(acts, paths) && r in LiveOpens(c, [], acts)
    requires EndToEnd.After(c, [], acts).client.alive && !EndToEnd.After(c, [], acts).server.red.crashed
    requires RouteOf(EndToEnd.After(c, [], acts).client.entries, r.fd) == Local
    ensures !AlwaysDelivered(paths)
  {
    NotReached(c, acts, r);
    assert !Delivered(c, [], acts);
  }

  lemma NotReached(c: Config, acts: seq<Act>, r: LiveOpen)
    requires |c.flat| <= MAX_LOCKED_FILES && RouteOf(EndToEnd.After(c, [], acts).client.entries, r.fd) == Local
    ensures !Reaches(c, [], acts, r, [], 0)
  {
    assert InputOf(c, EndToEnd.After(c, [], acts).client, AppWrite(r.fd, [], 0)) == [];
  }

  // ----- With the loader in front -----

  /** The daemon after loading a directory of plug-ins. */
  function Loaded(dir: seq<DirEntry>, pipe: int, pid: int): Config {
    Config(LoadAll(dir).devs, LoadAll(dir).flat, pipe, pid)
  }

  lemma LoadedIsFlat(dir: seq<DirEntry>, pipe: int, pid: int)
    requires WithinCapacity(dir) && |LoadAll(dir).flat| < MAX_LOCKED_FILES
    ensures Flat(Loaded(dir, pipe, pid))
  {
    LoadAllIndexes(dir);
    FlatIsFlatten(LoadAll(dir), LoadedDevices(dir));
  }

  /**
   From the plug-in directory to the device file: a daemon that loaded any directory whose plug-ins
   fit, with fewer than 1024 paths, delivers every write of an application it registered, and every
   path that the application takes for locked is a path that a loaded plug-in locks.
   */
  lemma LoadedDaemonDelivers(dir: seq<DirEntry>, pipe: int, pid: int, pre: seq<Dispatch.Input>, acts: seq<Act>,
                             path: string)
    requires WithinCapacity(dir) && |LoadAll(dir).flat| < MAX_LOCKED_FILES
    requires Accepted(Loaded(dir, pipe, pid), pre) && Orderly(Loaded(dir, pipe, pid), acts)
    requires Redirection.TempsFresh(AllRequests(Loaded(dir, pipe, pid), pre, acts))
    requires Redirection.PathsReal(AllRequests(Loaded(dir, pipe, pid), pre, acts))
    requires Apart(acts) && !DummyLike(path)
    ensures Delivered(Loaded(dir, pipe, pid), pre, acts)
    ensures CheckLocked(EndToEnd.After(Loaded(dir, pipe, pid), pre, acts).client.entries, path).Some? ==>
              exists d, p :: d in LoadedDevices(dir) && p in d.paths && path <= p
  {
    var c := Loaded(dir, pipe, pid);
    LoadedIsFlat(dir, pipe, pid);
    GoodRunsDeliver(c, pre, acts);
    ClientTableAgrees(c, pre, acts, path);
    if CheckLocked(EndToEnd.After(c, pre, acts).client.entries, path).Some? {
      LockedByPlugin(dir, path);
    }
  }

  lemma LockedByPlugin(dir: seq<DirEntry>, path: string)
    requires WithinCapacity(dir) && Locked(LoadAll(dir).devs, path)
    ensures exists d, p :: d in LoadedDevices(dir) && p in d.paths && path <= p
  {
    LoadAllIndexes(dir);
    var st := LoadAll(dir);
    var k := LockerOf(st.devs, path);
    var d := st.devs[k];
    assert d == st.devs[..st.target][k] && d in LoadedDevices(dir);
    var p := d.paths[PathIndex(d.paths, path)];
    assert p in d.paths && path <= p;
  }

  // ----- An open consumes its entry -----

  /** The entries that a path begins and that no open of the run has taken. */
  ghost predicate EntryLeft(c: Config, log: seq<LiveOpen>, path: string) {
    exists k :: 0 <= k < |c.flat| && path <= c.flat[k] && !Taken(log, k)
  }

  lemma FindsUntouched(c: Config, client: Client, log: seq<LiveOpen>, path: string, k: nat)
    requires TableOk(c, client, log) && k < |c.flat| && path <= c.flat[k] && !Taken(log, k)
    ensures CheckLocked(client.entries, path).Some?
  {
    assert forall i :: 0 <= i < |c.flat| ==> client.entries[i].path.Some? by {
      forall i | 0 <= i < |c.flat| ensures client.entries[i].path.Some? {
        if client.entries[i].fd != 0 {
          assert Taken(log, i);
        }
      }
    }
    assert client.entries[k] == Entry(Some(c.flat[k]), 0);
    assert MatchSlot(client.entries, path) <= k;
  }

  /**
   Opening a path uses up an entry of the client's table.  In every run the opens that returned
   took distinct entries, each holding a path that the opened one begins; and an open of `path`
   reaches the daemon exactly while such an entry is left, otherwise it ends the application.
   */
  lemma OpensConsumeEntries(c: Config, pre: seq<Dispatch.Input>, acts: seq<Act>, path: string)
    requires Good(c, pre, acts) && !DummyLike(path)
    ensures var log := LiveOpens(c, pre, acts);
            && (forall a, b :: 0 <= a < b < |log| ==> log[a].slot != log[b].slot)
            && (forall a :: 0 <= a < |log| ==> log[a].slot < |c.flat| && log[a].path <= c.flat[log[a].slot])
            && (CheckLocked(EndToEnd.After(c, pre, acts).client.entries, path).Some? <==> EntryLeft(c, log, path))
  {
    var s, log := EndToEnd.After(c, pre, acts), LiveOpens(c, pre, acts);
    RunKeepsLinked(c, pre, acts);
    RunKeepsFds(c, pre, acts);
    RunTemplated(c, pre, acts);
    LogTakesDistinct(c, s.client, log);
    if CheckLocked(s.client.entries, path).Some? {
      PlainBeginsNone(path, log, s.server.red.opens);
      MatchesUntouched(c, s.client, log, path);
      NotTaken(c, s.client, log, CheckLocked(s.client.entries, path).value);
    } else if EntryLeft(c, log, path) {
      var k :| 0 <= k < |c.flat| && path <= c.flat[k] && !Taken(log, k);
      FindsUntouched(c, s.client, log, path, k);
    }
  }

  lemma LogTakesDistinct(c: Config, client: Client, log: seq<LiveOpen>)
    requires TableOk(c, client, log) && DistinctFds(log)
    ensures forall a, b :: 0 <= a < b < |log| ==> log[a].slot != log[b].slot
  {
  }

  lemma NotTaken(c: Config, client: Client, log: seq<LiveOpen>, k: nat)
    requires TableOk(c, client, log) && k < |client.entries| && client.entries[k].fd == 0
    ensures !Taken(log, k)
  {
  }

  /** Reopening a locked file once its entries are used up ends the application. */
  lemma ReopenIsFatal(c: Config, pre: seq<Dispatch.Input>, acts: seq<Act>, act: Act)
    requires Good(c, pre, acts) && act.AppOpen? && !DummyLike(act.path)
    requires !EntryLeft(c, LiveOpens(c, pre, acts), act.path)
    ensures !EndToEnd.After(c, pre, acts + [act]).client.alive
  {
    OpensConsumeEntries(c, pre, acts, act.path);
    OneMore(c, pre, acts, act);
  }
}
