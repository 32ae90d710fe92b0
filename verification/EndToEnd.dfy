/**
 One application under the overlay, the daemon, and everybody else.

 The application opens and writes files; each call may turn into a message to the daemon.  In
 between, other tenants send messages and the monitor sweeps.
 */
module EndToEnd {
  import opened Scan
  import opened Devices
  import opened ClientTable
  import Registry
  import Redirection
  import Dispatch

  /** The daemon's devices and flat path array, and the application's pipe and process. */
  datatype Config = Config(devs: seq<Device>, flat: seq<string>, pipe: int, pid: int)

  datatype Sys = Sys(server: Dispatch.Server, client: Client)

  /** A call of the application, with the answers of the two kernels it involves, or a step of
      the rest of the world. */
  datatype Act =
    | AppOpen(path: string, realFd: int, temp: Redirection.Temp, fd: int)
    | AppWrite(fd: int, data: seq<char>, written: int)
    | World(input: Dispatch.Input)

  /** The message, if any, that an act puts in front of the daemon. */
  function InputOf(c: Config, client: Client, act: Act): seq<Dispatch.Input> {
    match act
    case AppOpen(path, realFd, temp, _) =>
      if client.alive && CheckLocked(client.entries, path).Some?
      then [Dispatch.Msg(c.pipe, Dispatch.OpenFile(path, realFd, temp))] else []
    case AppWrite(fd, data, written) =>
      var route := RouteOf(client.entries, fd);
      if client.alive && route.Remote?
      then [Dispatch.Msg(c.pipe, Dispatch.WriteFile(route.name, Payload(data), written))] else []
    case World(input) => [input]
  }

  /** The daemon's reply to a message of the application. */
  function ReplyTo(c: Config, server: Dispatch.Server, inputs: seq<Dispatch.Input>): Dispatch.Reply
    requires Dispatch.Shaped(server)
  {
    if |inputs| == 1 && inputs[0].Msg?
    then Dispatch.Serve(server, c.devs, c.flat, inputs[0].pipe, inputs[0].m).1 else Dispatch.Silent
  }

  predicate Ok(r: Dispatch.Reply) {
    r.Reply? && r.status == 0
  }

  /** The client library gives up on every reply but a good one. */
  function ClientStep(client: Client, act: Act, reply: Dispatch.Reply): Client {
    if !client.alive then client
    else match act
      case AppOpen(path, _, _, fd) =>
        var answer := if Ok(reply) && reply.body.OpenedFile? then Some(reply.body.path) else None;
        Open(client, path, answer, fd)
      case AppWrite(fd, _, _) =>
        if RouteOf(client.entries, fd).Local? || Ok(reply) then client else client.(alive := false)
      case World(_) => client
  }

  function ServerStep(c: Config, server: Dispatch.Server, inputs: seq<Dispatch.Input>): (t: Dispatch.Server)
    requires Dispatch.Shaped(server)
    ensures Dispatch.Shaped(t)
  {
    if |inputs| == 0 then server else Dispatch.Next(server, c.devs, c.flat, inputs[0])
  }

  function Step(c: Config, s: Sys, act: Act): (t: Sys)
    requires Dispatch.Shaped(s.server)
    ensures Dispatch.Shaped(t.server) && |t.client.entries| == |s.client.entries|
  {
    var inputs := InputOf(c, s.client, act);
    Sys(ServerStep(c, s.server, inputs), ClientStep(s.client, act, ReplyTo(c, s.server, inputs)))
  }

  /** The daemon has served `pre`; then the application registers and fills its table. */
  function Start(c: Config, pre: seq<Dispatch.Input>): (s: Sys)
    requires |c.flat| <= MAX_LOCKED_FILES
    ensures Dispatch.Shaped(s.server)
  {
    Sys(Dispatch.Next(Dispatch.After(c.devs, c.flat, pre), c.devs, c.flat,
                      Dispatch.Msg(c.pipe, Dispatch.RegisterClient(c.pid))),
        Fill(c.flat))
  }

  function After(c: Config, pre: seq<Dispatch.Input>, acts: seq<Act>): (s: Sys)
    requires |c.flat| <= MAX_LOCKED_FILES
    ensures Dispatch.Shaped(s.server) && |s.client.entries| == MAX_LOCKED_FILES
  {
    if |acts| == 0 then Start(c, pre) else Step(c, After(c, pre, acts[..|acts| - 1]), acts[|acts| - 1])
  }

  /** Everything the daemon was sent. */
  function Inputs(c: Config, pre: seq<Dispatch.Input>, acts: seq<Act>): seq<Dispatch.Input>
    requires |c.flat| <= MAX_LOCKED_FILES
  {
    if |acts| == 0 then pre + [Dispatch.Msg(c.pipe, Dispatch.RegisterClient(c.pid))]
    else
      var init := acts[..|acts| - 1];
      Inputs(c, pre, init) + InputOf(c, After(c, pre, init).client, acts[|acts| - 1])
  }

  /** All redirection requests the daemon accepted, from anybody. */
  function AllRequests(c: Config, pre: seq<Dispatch.Input>, acts: seq<Act>): seq<Redirection.Request>
    requires |c.flat| <= MAX_LOCKED_FILES
  {
    Dispatch.Requests(c.devs, c.flat, Inputs(c, pre, acts))
  }

  lemma AfterOne(c: Config, inputs: seq<Dispatch.Input>, more: seq<Dispatch.Input>)
    requires |more| <= 1
    ensures Dispatch.After(c.devs, c.flat, inputs + more) ==
            ServerStep(c, Dispatch.After(c.devs, c.flat, inputs), more)
  {
    if more == [] {
      assert inputs + more == inputs;
    } else {
      assert (inputs + more)[..|inputs|] == inputs;
    }
  }

  /** The daemon's side of one more act. */
  lemma ServerNext(c: Config, pre: seq<Dispatch.Input>, acts: seq<Act>)
    requires |c.flat| <= MAX_LOCKED_FILES && |acts| > 0
    requires var init := acts[..|acts| - 1];
             After(c, pre, init).server == Dispatch.After(c.devs, c.flat, Inputs(c, pre, init))
    ensures After(c, pre, acts).server == Dispatch.After(c.devs, c.flat, Inputs(c, pre, acts))
  {
    var init, act := acts[..|acts| - 1], acts[|acts| - 1];
    AfterOne(c, Inputs(c, pre, init), InputOf(c, After(c, pre, init).client, act));
  }

  lemma {:induction false} ServerFollows(c: Config, pre: seq<Dispatch.Input>, acts: seq<Act>)
    requires |c.flat| <= MAX_LOCKED_FILES
    ensures After(c, pre, acts).server == Dispatch.After(c.devs, c.flat, Inputs(c, pre, acts))
  {
    if |acts| == 0 {
      AfterOne(c, pre, [Dispatch.Msg(c.pipe, Dispatch.RegisterClient(c.pid))]);
    } else {
      ServerFollows(c, pre, acts[..|acts| - 1]);
      ServerNext(c, pre, acts);
    }
  }

  /** The daemon cannot tell the application from any other sender: its state is that of its own
      run on everything it was sent. */
  lemma ServerRuns(c: Config, pre: seq<Dispatch.Input>, acts: seq<Act>)
    requires |c.flat| <= MAX_LOCKED_FILES
    ensures After(c, pre, acts).server == Dispatch.After(c.devs, c.flat, Inputs(c, pre, acts))
    ensures After(c, pre, acts).server.red == Redirection.After(c.devs, AllRequests(c, pre, acts))
  {
    ServerFollows(c, pre, acts);
    Dispatch.RunSplits(c.devs, c.flat, Inputs(c, pre, acts));
  }

  // ----- The application's opens -----

  /** An open that returned to the application: what was opened, the dummy path and descriptor it
      got, and the table entry it took. */
  datatype LiveOpen = LiveOpen(path: string, dummy: string, fd: int, slot: nat)

  /** The open that act makes, if it returns to the application. */
  function OpenMade(client: Client, after: Client, act: Act): seq<LiveOpen> {
    if client.alive && after.alive && act.AppOpen? && CheckLocked(client.entries, act.path).Some? then
      var k := CheckLocked(client.entries, act.path).value;
      if k < |after.entries| && after.entries[k].path.Some?
      then [LiveOpen(act.path, after.entries[k].path.value, act.fd, k)] else []
    else []
  }

  function LiveOpens(c: Config, pre: seq<Dispatch.Input>, acts: seq<Act>): seq<LiveOpen>
    requires |c.flat| <= MAX_LOCKED_FILES
  {
    if |acts| == 0 then []
    else
      var init := acts[..|acts| - 1];
      LiveOpens(c, pre, init) + OpenMade(After(c, pre, init).client, After(c, pre, acts).client, acts[|acts| - 1])
  }

  /** The path is the beginning of a possible dummy name; no absolute path is. */
  predicate DummyLike(path: string) {
    && |path| <= Redirection.DUMMY_NAME_LEN
    && (|| path <= Redirection.TEMPLATE
        || (Redirection.TEMPLATE <= path && Redirection.Portable(path[|Redirection.TEMPLATE|..])))
  }

  /** Exactly these paths begin some name that `mkstemp` can make from the template. */
  lemma DummyLikeExactly(path: string)
    ensures DummyLike(path) <==> exists name :: Redirection.TempNamed(name) && path <= name
    ensures forall name :: Redirection.TempNamed(name) <==>
                           |name| == 13 && "locked_" <= name && Redirection.Portable(name[7..])
  {
    if DummyLike(path) {
      var name := SomeName(path);
      assert Redirection.TempNamed(name) && path <= name;
    } else {
      forall name | Redirection.TempNamed(name) ensures !(path <= name) {
        BeginningIsDummyLike(path, name);
      }
    }
  }

  /** A name that `mkstemp` can make and that the path begins. */
  function SomeName(path: string): (name: string)
    requires DummyLike(path)
    ensures Redirection.TempNamed(name) && path <= name
  {
    var stem := if path <= Redirection.TEMPLATE then Redirection.TEMPLATE else path;
    stem + seq(Redirection.DUMMY_NAME_LEN - |stem|, _ => 'a')
  }

  // ----- Assumptions -----

  /** The flat array is the one the loader builds, with room for its terminator. */
  ghost predicate Flat(c: Config) {
    |c.flat| < MAX_LOCKED_FILES && c.flat == Flatten(c.devs)
  }

  /** The pipe is connected and the application's registration is accepted. */
  ghost predicate Accepted(c: Config, pre: seq<Dispatch.Input>) {
    && c.pipe > 0 && Dispatch.AllConnected(pre)
    && !Dispatch.After(c.devs, c.flat, pre).red.crashed
    && Registry.Register(Dispatch.After(c.devs, c.flat, pre).reg, c.pipe, c.pid).1.Registered?
  }

  ghost predicate Registers(c: Config, pre: seq<Dispatch.Input>) {
    Flat(c) && Accepted(c, pre)
  }

  /** Nobody else sends on the application's pipe, and the application's process exists. */
  predicate Foreign(c: Config, input: Dispatch.Input) {
    match input
    case Msg(pipe, _) => pipe > 0 && pipe != c.pipe
    case Visit(_, alive) => c.pid in alive
  }

  ghost predicate Orderly(c: Config, acts: seq<Act>) {
    && (forall i :: 0 <= i < |acts| && acts[i].World? ==> Foreign(c, acts[i].input))
    // the application's descriptors are not closed, so the kernel does not give one twice
    && (forall i, j :: 0 <= i < j < |acts| && acts[i].AppOpen? && acts[j].AppOpen? && acts[i].fd > 0
                       ==> acts[i].fd != acts[j].fd)
  }

  /** The application opens only these paths. */
  ghost predicate OpensOnly(acts: seq<Act>, paths: iset<string>) {
    forall i :: 0 <= i < |acts| && acts[i].AppOpen? ==> acts[i].path in paths
  }

  /** An application that opens `p` may open `q` as well: either `p` begins no dummy name, or it is
      as long as one and is opened alone.  The empty path can never be opened and does not matter. */
  predicate Compatible(p: string, q: string) {
    p != "" && q != "" && DummyLike(p) ==> |p| == Redirection.DUMMY_NAME_LEN && q == p
  }

  ghost predicate Apart(acts: seq<Act>) {
    forall i, j :: 0 <= i < |acts| && 0 <= j < |acts| && acts[i].AppOpen? && acts[j].AppOpen? ==>
      Compatible(acts[i].path, acts[j].path)
  }

  /** A run that the environment can bring about. */
  ghost predicate Possible(c: Config, pre: seq<Dispatch.Input>, acts: seq<Act>) {
    && Registers(c, pre) && Orderly(c, acts)
    && Redirection.TempsFresh(AllRequests(c, pre, acts)) && Redirection.PathsReal(AllRequests(c, pre, acts))
  }

  /** Such a run in which the paths that the application opens are compatible. */
  ghost predicate Good(c: Config, pre: seq<Dispatch.Input>, acts: seq<Act>) {
    Possible(c, pre, acts) && Apart(acts)
  }

  // ----- The application stays registered -----

  /** A slot maps the application's pipe to a tenant with the application's process. */
  ghost predicate Mapped(reg: Registry.State, k: nat, pipe: int, pid: int) {
    && Registry.Bijection(reg) && pipe > 0 && k < |reg.slots|
    && reg.slots[k].tenant.Some? && reg.slots[k].pipe == pipe
    && reg.tenants[reg.slots[k].tenant.value].pid == pid
  }

  predicate Harmless(e: Registry.Event, pipe: int, pid: int) {
    && Registry.Connected(e)
    && (e.Leave? ==> e.pipe != pipe)
    && (e.Visit? ==> pid in e.alive)
  }

  /** The slot `k` and the process of its tenant are as before. */
  ghost predicate Untouched(reg: Registry.State, reg': Registry.State, k: nat)
    requires Registry.Shaped(reg) && Registry.Shaped(reg')
  {
    k < |reg.slots| && reg'.slots[k] == reg.slots[k]
    && (reg.slots[k].tenant.Some? ==>
          reg'.tenants[reg.slots[k].tenant.value].pid == reg.tenants[reg.slots[k].tenant.value].pid)
  }

  lemma ArriveLeavesAlone(reg: Registry.State, e: Registry.Event, k: nat)
    requires Registry.Bijection(reg) && k < |reg.slots| && reg.slots[k].tenant.Some? && e.Arrive?
    ensures Untouched(reg, Registry.Step(reg, e).0, k)
  {
    Registry.SlotAlwaysFree(reg);
  }

  lemma LeaveLeavesAlone(reg: Registry.State, e: Registry.Event, k: nat)
    requires Registry.Bijection(reg) && k < |reg.slots| && e.Leave? && e.pipe > 0 && e.pipe != reg.slots[k].pipe
    ensures Untouched(reg, Registry.Step(reg, e).0, k)
  {
    Registry.SameSlot(reg, e.pipe);
  }

  lemma VisitLeavesAlone(reg: Registry.State, e: Registry.Event, k: nat)
    requires Registry.Bijection(reg) && k < |reg.slots| && e.Visit? && reg.slots[k].tenant.Some?
    requires reg.tenants[reg.slots[k].tenant.value].pid in e.alive
    ensures Untouched(reg, Registry.Step(reg, e).0, k)
  {
  }

  lemma StaysMapped(reg: Registry.State, e: Registry.Event, k: nat, pipe: int, pid: int)
    requires Mapped(reg, k, pipe, pid) && Harmless(e, pipe, pid)
    ensures Mapped(Registry.Step(reg, e).0, k, pipe, pid)
  {
    Registry.StepKeepsBijection(reg, e);
    assert Untouched(reg, Registry.Step(reg, e).0, k) by {
      match e
      case Arrive(_, _) => ArriveLeavesAlone(reg, e, k);
      case Leave(_) => LeaveLeavesAlone(reg, e, k);
      case Visit(_, _) => VisitLeavesAlone(reg, e, k);
    }
  }

  lemma MappedIsHeard(s: Dispatch.Server, k: nat, c: Config, m: Dispatch.Message)
    requires Mapped(s.reg, k, c.pipe, c.pid) && !s.red.crashed
    ensures Dispatch.Heard(s, c.pipe, m)
  {
    Registry.SameSlot(s.reg, c.pipe);
    assert s.reg.slots[k].pipe == c.pipe;
  }

  /** What a message of the application or of the world can do to the registry. */
  lemma ActsAreHarmless(c: Config, client: Client, s: Dispatch.Server, act: Act)
    requires act.World? ==> Foreign(c, act.input)
    requires c.pipe > 0
    ensures forall input :: input in InputOf(c, client, act) ==>
              forall e :: e in Dispatch.EventOf(s, input) ==> Harmless(e, c.pipe, c.pid)
  {
  }

  lemma StepStaysMapped(c: Config, s: Sys, act: Act, k: nat)
    requires Mapped(s.server.reg, k, c.pipe, c.pid) && (act.World? ==> Foreign(c, act.input))
    ensures Dispatch.Shaped(s.server) && Mapped(Step(c, s, act).server.reg, k, c.pipe, c.pid)
  {
    var inputs := InputOf(c, s.client, act);
    if inputs != [] {
      ActsAreHarmless(c, s.client, s.server, act);
      assert inputs[0] in inputs;
      Dispatch.NextSplits(s.server, c.devs, c.flat, inputs[0]);
      var e := Dispatch.EventOf(s.server, inputs[0]);
      if e != [] {
        assert e[0] in e;
        StaysMapped(s.server.reg, e[0], k, c.pipe, c.pid);
      }
    }
  }

  lemma StartMapped(c: Config, pre: seq<Dispatch.Input>) returns (k: nat)
    requires Registers(c, pre)
    ensures Mapped(Start(c, pre).server.reg, k, c.pipe, c.pid)
  {
    var s := Dispatch.After(c.devs, c.flat, pre);
    Dispatch.AnswersExactlyRegisteredPipes(c.devs, c.flat, pre, c.pipe, Dispatch.NotSet);
    Registry.RegisterKeepsBijection(s.reg, c.pipe, c.pid);
    Registry.SlotAlwaysFree(s.reg);
    k := Registry.FreeSlot(s.reg.slots);
  }

  lemma {:induction false} RunMapped(c: Config, pre: seq<Dispatch.Input>, acts: seq<Act>) returns (k: nat)
    requires Registers(c, pre) && Orderly(c, acts)
    ensures Mapped(After(c, pre, acts).server.reg, k, c.pipe, c.pid)
  {
    if |acts| == 0 {
      k := StartMapped(c, pre);
    } else {
      OrderlyShrinks(c, acts);
      k := RunMapped(c, pre, acts[..|acts| - 1]);
      MappedExtends(c, pre, acts, k);
    }
  }

  lemma MappedExtends(c: Config, pre: seq<Dispatch.Input>, acts: seq<Act>, k: nat)
    requires |c.flat| <= MAX_LOCKED_FILES && |acts| > 0
    requires acts[|acts| - 1].World? ==> Foreign(c, acts[|acts| - 1].input)
    requires Mapped(After(c, pre, acts[..|acts| - 1]).server.reg, k, c.pipe, c.pid)
    ensures Mapped(After(c, pre, acts).server.reg, k, c.pipe, c.pid)
  {
    StepStaysMapped(c, After(c, pre, acts[..|acts| - 1]), acts[|acts| - 1], k);
  }

  // ----- The client table against the daemon's tables -----

  /** Every entry is either untouched since registration, or was taken by exactly the logged open
      of a prefix of the path it held. */
  ghost predicate TableOk(c: Config, client: Client, log: seq<LiveOpen>) {
    && |client.entries| == MAX_LOCKED_FILES > |c.flat|
    && (forall a :: 0 <= a < |log| ==>
          && log[a].slot < |c.flat| && log[a].fd > 0 && log[a].path <= c.flat[log[a].slot]
          && client.entries[log[a].slot] == Entry(Some(log[a].dummy), log[a].fd))
    && (forall k :: 0 <= k < |client.entries| && client.entries[k].fd != 0 ==> Taken(log, k))
    && (forall k :: 0 <= k < |client.entries| && client.entries[k].fd == 0 ==>
          client.entries[k] == Fill(c.flat).entries[k])
  }

  ghost predicate Taken(log: seq<LiveOpen>, k: nat) {
    exists a :: 0 <= a < |log| && log[a].slot == k
  }

  /** The daemon's descriptor table has a record for the open. */
  ghost predicate ServedOpen(opens: seq<Redirection.OpenRecord>, r: LiveOpen) {
    exists b :: 0 <= b < |opens| && opens[b].path == r.path && opens[b].dummy == r.dummy
  }

  ghost predicate AllServed(opens: seq<Redirection.OpenRecord>, log: seq<LiveOpen>) {
    forall a :: 0 <= a < |log| ==> ServedOpen(opens, log[a])
  }

  ghost predicate Linked(c: Config, s: Sys, log: seq<LiveOpen>) {
    TableOk(c, s.client, log) && AllServed(s.server.red.opens, log)
  }

  ghost predicate Templated(opens: seq<Redirection.OpenRecord>) {
    forall b :: 0 <= b < |opens| ==> Redirection.TempNamed(opens[b].dummy)
  }

  /** The path begins no dummy name that the application was given. */
  ghost predicate BeginsNone(path: string, log: seq<LiveOpen>) {
    forall a :: 0 <= a < |log| ==> !(path <= log[a].dummy)
  }

  /** A path that begins no dummy name of the log can only match an untouched entry. */
  lemma MatchesUntouched(c: Config, client: Client, log: seq<LiveOpen>, path: string)
    requires TableOk(c, client, log) && BeginsNone(path, log) && CheckLocked(client.entries, path).Some?
    ensures var k := CheckLocked(client.entries, path).value;
            client.entries[k].fd == 0 && k < |c.flat| && path <= c.flat[k]
  {
  }

  lemma PlainBeginsNone(path: string, log: seq<LiveOpen>, opens: seq<Redirection.OpenRecord>)
    requires AllServed(opens, log) && Templated(opens) && !DummyLike(path)
    ensures BeginsNone(path, log)
  {
    forall a | 0 <= a < |log| ensures !(path <= log[a].dummy) {
      assert ServedOpen(opens, log[a]);
      BeginningIsDummyLike(path, log[a].dummy);
    }
  }

  /** A path as long as a dummy name is not its own dummy name. */
  lemma LoneBeginsNone(path: string, log: seq<LiveOpen>, red: Redirection.State)
    requires AllServed(red.opens, log) && Templated(red.opens) && Redirection.Named(red)
    requires |path| == Redirection.DUMMY_NAME_LEN && forall a :: 0 <= a < |log| ==> log[a].path == path
    ensures BeginsNone(path, log)
  {
    forall a | 0 <= a < |log| ensures !(path <= log[a].dummy) {
      assert ServedOpen(red.opens, log[a]);
    }
  }

  lemma BeginningIsDummyLike(path: string, dummy: string)
    requires Redirection.TempNamed(dummy)
    ensures path <= dummy ==> DummyLike(path)
  {
    var n := |Redirection.TEMPLATE|;
    if path <= dummy {
      if |path| <= n {
        assert path == dummy[..n][..|path|];
      } else {
        assert path[..n] == dummy[..n];
        assert forall i :: 0 <= i < |path| - n ==> path[n..][i] == dummy[n..][i];
      }
    }
  }

  lemma OpensGrow(c: Config, s: Sys, act: Act)
    requires Dispatch.Shaped(s.server)
    ensures s.server.red.opens <= Step(c, s, act).server.red.opens
  {
    var inputs := InputOf(c, s.client, act);
    if inputs != [] {
      Dispatch.NextSplits(s.server, c.devs, c.flat, inputs[0]);
      var r := Dispatch.RequestOf(s.server, inputs[0]);
      if r != [] {
        Redirection.StepAppends(s.server.red, c.devs, r[0]);
      }
    }
  }

  /** A good reply to an open stands for a record appended to the descriptor table. */
  lemma GoodReplyIsRecorded(c: Config, server: Dispatch.Server, path: string, realFd: int, temp: Redirection.Temp)
    requires Dispatch.Shaped(server)
    requires Ok(Dispatch.Serve(server, c.devs, c.flat, c.pipe, Dispatch.OpenFile(path, realFd, temp)).1)
    ensures var (t, reply) := Dispatch.Serve(server, c.devs, c.flat, c.pipe, Dispatch.OpenFile(path, realFd, temp));
            && reply.body.OpenedFile?
            && t.red.opens == server.red.opens + [Redirection.OpenRecord(path, reply.body.path, realFd)]
  {
  }

  lemma ServedGrows(opens: seq<Redirection.OpenRecord>, more: seq<Redirection.OpenRecord>, log: seq<LiveOpen>)
    requires AllServed(opens, log) && opens <= more
    ensures AllServed(more, log)
  {
    forall a | 0 <= a < |log| ensures ServedOpen(more, log[a]) {
      assert ServedOpen(opens, log[a]);
      var b :| 0 <= b < |opens| && opens[b].path == log[a].path && opens[b].dummy == log[a].dummy;
      assert more[b] == opens[b];
    }
  }

  /** Taking an untouched entry. */
  lemma TakeEntry(c: Config, client: Client, log: seq<LiveOpen>, r: LiveOpen)
    requires TableOk(c, client, log) && r.slot < |c.flat| && r.fd > 0 && r.path <= c.flat[r.slot]
    requires client.entries[r.slot].fd == 0
    ensures TableOk(c, client.(entries := client.entries[r.slot := Entry(Some(r.dummy), r.fd)]), log + [r])
  {
    var t := client.entries[r.slot := Entry(Some(r.dummy), r.fd)];
    forall k | 0 <= k < |t| && t[k].fd != 0 ensures Taken(log + [r], k) {
      if k == r.slot {
        assert (log + [r])[|log|].slot == k;
      } else {
        var a :| 0 <= a < |log| && log[a].slot == k;
        assert (log + [r])[a].slot == k;
      }
    }
  }

  /** Nothing that the application has opened so far stands in the way of opening `path`. */
  ghost predicate Fits(path: string, log: seq<LiveOpen>) {
    path != "" && DummyLike(path) ==>
      |path| == Redirection.DUMMY_NAME_LEN && forall a :: 0 <= a < |log| ==> log[a].path == path
  }

  lemma FitsBeginsNone(path: string, log: seq<LiveOpen>, red: Redirection.State)
    requires AllServed(red.opens, log) && Templated(red.opens) && Redirection.Named(red)
    requires Fits(path, log) && path != ""
    ensures BeginsNone(path, log)
  {
    if DummyLike(path) {
      LoneBeginsNone(path, log, red);
    } else {
      PlainBeginsNone(path, log, red.opens);
    }
  }

  lemma StepKeepsLinked(c: Config, s: Sys, act: Act, log: seq<LiveOpen>)
    requires Dispatch.Shaped(s.server) && Linked(c, s, log) && Templated(s.server.red.opens)
    requires Redirection.Named(s.server.red) && Redirection.Named(Step(c, s, act).server.red)
    requires act.AppOpen? ==> Fits(act.path, log)
    ensures Linked(c, Step(c, s, act), log + OpenMade(s.client, Step(c, s, act).client, act))
  {
    var t := Step(c, s, act);
    OpensGrow(c, s, act);
    ServedGrows(s.server.red.opens, t.server.red.opens, log);
    var made := OpenMade(s.client, t.client, act);
    if made == [] {
      assert log + made == log;
    } else {
      OpenWasNamed(c, s, act);
      FitsBeginsNone(act.path, log, s.server.red);
      OpenKeepsLinked(c, s, act, log);
    }
  }

  /** An open that returns was not of the empty path. */
  lemma OpenWasNamed(c: Config, s: Sys, act: Act)
    requires Dispatch.Shaped(s.server) && OpenMade(s.client, Step(c, s, act).client, act) != []
    requires Redirection.Named(Step(c, s, act).server.red)
    ensures act.path != ""
  {
    GoodReplyIsRecorded(c, s.server, act.path, act.realFd, act.temp);
    var opens := Step(c, s, act).server.red.opens;
    assert opens[|opens| - 1].path == act.path;
  }

  lemma OpenKeepsLinked(c: Config, s: Sys, act: Act, log: seq<LiveOpen>)
    requires Dispatch.Shaped(s.server) && Linked(c, s, log)
    requires act.AppOpen? && BeginsNone(act.path, log) && OpenMade(s.client, Step(c, s, act).client, act) != []
    requires AllServed(Step(c, s, act).server.red.opens, log)
    ensures Linked(c, Step(c, s, act), log + OpenMade(s.client, Step(c, s, act).client, act))
  {
    var t := Step(c, s, act);
    MatchesUntouched(c, s.client, log, act.path);
    GoodReplyIsRecorded(c, s.server, act.path, act.realFd, act.temp);
    var r := OpenMade(s.client, t.client, act)[0];
    TakeEntry(c, s.client, log, r);
    var opens := t.server.red.opens;
    assert opens[|opens| - 1].path == r.path && opens[|opens| - 1].dummy == r.dummy;
    assert ServedOpen(opens, r);
  }

  lemma RequestsOne(c: Config, inputs: seq<Dispatch.Input>, more: seq<Dispatch.Input>)
    requires |more| <= 1
    ensures Dispatch.Requests(c.devs, c.flat, inputs) <= Dispatch.Requests(c.devs, c.flat, inputs + more)
  {
    if more == [] {
      assert inputs + more == inputs;
    } else {
      assert (inputs + more)[..|inputs|] == inputs;
    }
  }

  lemma OrderlyShrinks(c: Config, acts: seq<Act>)
    requires Orderly(c, acts) && |acts| > 0
    ensures Orderly(c, acts[..|acts| - 1])
  {
    assert forall i :: 0 <= i < |acts| - 1 ==> acts[..|acts| - 1][i] == acts[i];
  }

  lemma PrefixFresh(reqs: seq<Redirection.Request>, before: seq<Redirection.Request>)
    requires before <= reqs && Redirection.TempsFresh(reqs) && Redirection.PathsReal(reqs)
    ensures Redirection.TempsFresh(before) && Redirection.PathsReal(before)
  {
    assert reqs[..|before|] == before;
    Redirection.FreshShrinks(reqs, |before|);
    assert forall i :: 0 <= i < |before| ==> before[i] == reqs[i];
  }

  lemma ApartShrinks(acts: seq<Act>)
    requires Apart(acts) && |acts| > 0
    ensures Apart(acts[..|acts| - 1])
  {
    assert forall i :: 0 <= i < |acts| - 1 ==> acts[..|acts| - 1][i] == acts[i];
  }

  lemma GoodShrinks(c: Config, pre: seq<Dispatch.Input>, acts: seq<Act>)
    requires Good(c, pre, acts) && |acts| > 0
    ensures Good(c, pre, acts[..|acts| - 1])
  {
    var init := acts[..|acts| - 1];
    OrderlyShrinks(c, acts);
    ApartShrinks(acts);
    RequestsOne(c, Inputs(c, pre, init), InputOf(c, After(c, pre, init).client, acts[|acts| - 1]));
    PrefixFresh(AllRequests(c, pre, acts), AllRequests(c, pre, init));
  }

  /** The daemon's tables satisfy the redirection invariant for the requests of the run. */
  lemma RunRedirects(c: Config, pre: seq<Dispatch.Input>, acts: seq<Act>)
    requires Good(c, pre, acts)
    ensures Redirection.Inv(After(c, pre, acts).server.red, AllRequests(c, pre, acts))
  {
    ServerRuns(c, pre, acts);
    Redirection.RunKeepsInv(c.devs, AllRequests(c, pre, acts));
  }

  lemma RunTemplated(c: Config, pre: seq<Dispatch.Input>, acts: seq<Act>)
    requires Good(c, pre, acts)
    ensures Templated(After(c, pre, acts).server.red.opens)
  {
    RunRedirects(c, pre, acts);
    InvTemplated(After(c, pre, acts).server.red, AllRequests(c, pre, acts));
  }

  lemma InvTemplated(red: Redirection.State, reqs: seq<Redirection.Request>)
    requires Redirection.Inv(red, reqs) && Redirection.TempsFresh(reqs)
    ensures Templated(red.opens)
  {
    forall b | 0 <= b < |red.opens| ensures Redirection.TempNamed(red.opens[b].dummy) {
      assert Redirection.Issued(reqs, red.opens[b].dummy);
    }
  }

  lemma RunNamed(c: Config, pre: seq<Dispatch.Input>, acts: seq<Act>)
    requires Good(c, pre, acts)
    ensures Redirection.Named(After(c, pre, acts).server.red)
  {
    ServerRuns(c, pre, acts);
    Redirection.RunKeepsNamed(c.devs, AllRequests(c, pre, acts));
  }

  /** The next open fits, because everything in the log was opened by the application. */
  lemma NextFits(acts: seq<Act>, log: seq<LiveOpen>, red: Redirection.State)
    requires |acts| > 0 && Apart(acts) && FdsOk(acts[..|acts| - 1], log)
    requires AllServed(red.opens, log) && Redirection.Named(red)
    ensures acts[|acts| - 1].AppOpen? ==> Fits(acts[|acts| - 1].path, log)
  {
    var n := |acts| - 1;
    if acts[n].AppOpen? && acts[n].path != "" && DummyLike(acts[n].path) {
      assert Compatible(acts[n].path, acts[n].path);
      forall a | 0 <= a < |log| ensures log[a].path == acts[n].path {
        assert ServedOpen(red.opens, log[a]) && OpenedBy(acts[..n], log[a]);
        var i :| 0 <= i < n && acts[..n][i].AppOpen? && acts[..n][i].fd == log[a].fd
                 && acts[..n][i].path == log[a].path;
        assert Compatible(acts[n].path, acts[i].path);
      }
    }
  }

  lemma {:induction false} RunKeepsLinked(c: Config, pre: seq<Dispatch.Input>, acts: seq<Act>)
    requires Good(c, pre, acts)
    ensures Linked(c, After(c, pre, acts), LiveOpens(c, pre, acts))
  {
    if |acts| == 0 {
      StartLinked(c, pre);
    } else {
      var init := acts[..|acts| - 1];
      GoodShrinks(c, pre, acts);
      RunKeepsLinked(c, pre, init);
      RunTemplated(c, pre, init);
      RunNamed(c, pre, init);
      RunNamed(c, pre, acts);
      RunKeepsFds(c, pre, init);
      NextFits(acts, LiveOpens(c, pre, init), After(c, pre, init).server.red);
      LinkedExtends(c, pre, acts);
    }
  }

  lemma StartLinked(c: Config, pre: seq<Dispatch.Input>)
    requires |c.flat| < MAX_LOCKED_FILES
    ensures Linked(c, Start(c, pre), [])
  {
  }

  lemma LinkedExtends(c: Config, pre: seq<Dispatch.Input>, acts: seq<Act>)
    requires |c.flat| <= MAX_LOCKED_FILES && |acts| > 0
    requires acts[|acts| - 1].AppOpen? ==> Fits(acts[|acts| - 1].path, LiveOpens(c, pre, acts[..|acts| - 1]))
    requires Templated(After(c, pre, acts[..|acts| - 1]).server.red.opens)
    requires Redirection.Named(After(c, pre, acts[..|acts| - 1]).server.red)
    requires Redirection.Named(After(c, pre, acts).server.red)
    requires Linked(c, After(c, pre, acts[..|acts| - 1]), LiveOpens(c, pre, acts[..|acts| - 1]))
    ensures Linked(c, After(c, pre, acts), LiveOpens(c, pre, acts))
  {
    var init := acts[..|acts| - 1];
    StepKeepsLinked(c, After(c, pre, init), acts[|acts| - 1], LiveOpens(c, pre, init));
  }

  /** In every run the client's table agrees with the daemon's index: an entry is the locked path
      it was sent, or the dummy path that an open of a prefix of it returned; so a path, not
      itself the beginning of a dummy name, that the client takes for locked is locked on the daemon. */
  lemma ClientTableAgrees(c: Config, pre: seq<Dispatch.Input>, acts: seq<Act>, path: string)
    requires Good(c, pre, acts) && !DummyLike(path)
    ensures var entries := After(c, pre, acts).client.entries;
            && (forall k :: 0 <= k < |c.flat| ==>
                  || entries[k] == Entry(Some(c.flat[k]), 0)
                  || (exists r :: r in LiveOpens(c, pre, acts) && r.slot == k
                                  && entries[k] == Entry(Some(r.dummy), r.fd) && r.path <= c.flat[k]))
            && (CheckLocked(entries, path).Some? ==> Locked(c.devs, path))
  {
    RunKeepsLinked(c, pre, acts);
    RunTemplated(c, pre, acts);
    var s := After(c, pre, acts);
    var log := LiveOpens(c, pre, acts);
    forall k | 0 <= k < |c.flat| && s.client.entries[k] != Entry(Some(c.flat[k]), 0)
      ensures exists r :: r in log && r.slot == k
                          && s.client.entries[k] == Entry(Some(r.dummy), r.fd) && r.path <= c.flat[k]
    {
      assert Taken(log, k);
      var a :| 0 <= a < |log| && log[a].slot == k;
      assert log[a] in log;
    }
    if CheckLocked(s.client.entries, path).Some? {
      PlainBeginsNone(path, log, s.server.red.opens);
      MatchesUntouched(c, s.client, log, path);
      FlatAgreesWithNested(c.devs, path);
    }
  }

  // ----- Descriptors of the application -----

  ghost predicate OpenedBy(acts: seq<Act>, r: LiveOpen) {
    exists i :: 0 <= i < |acts| && acts[i].AppOpen? && acts[i].fd == r.fd && acts[i].path == r.path
  }

  ghost predicate DistinctFds(log: seq<LiveOpen>) {
    forall a, b :: 0 <= a < b < |log| ==> log[a].fd != log[b].fd
  }

  ghost predicate FdsOk(acts: seq<Act>, log: seq<LiveOpen>) {
    DistinctFds(log) && forall a :: 0 <= a < |log| ==> log[a].fd > 0 && OpenedBy(acts, log[a])
  }

  lemma FdsExtend(c: Config, acts: seq<Act>, log: seq<LiveOpen>, made: seq<LiveOpen>)
    requires Orderly(c, acts) && |acts| > 0 && FdsOk(acts[..|acts| - 1], log) && |made| <= 1
    requires made != [] ==> IsOpenOf(acts[|acts| - 1], made[0])
    ensures FdsOk(acts, log + made)
  {
    var n := |acts| - 1;
    forall a | 0 <= a < |log| ensures OpenedBy(acts, log[a]) && (made != [] ==> log[a].fd != made[0].fd) {
      assert OpenedBy(acts[..n], log[a]);
      var i :| 0 <= i < n && acts[..n][i].AppOpen? && acts[..n][i].fd == log[a].fd
               && acts[..n][i].path == log[a].path;
      assert acts[i] == acts[..n][i];
    }
  }

  predicate IsOpenOf(act: Act, r: LiveOpen) {
    act.AppOpen? && r.fd == act.fd && r.path == act.path && r.fd > 0
  }

  lemma MadeFd(c: Config, s: Sys, act: Act)
    requires Dispatch.Shaped(s.server)
    ensures var made := OpenMade(s.client, Step(c, s, act).client, act);
            |made| <= 1 && (made != [] ==> IsOpenOf(act, made[0]))
  {
  }

  lemma {:induction false} RunKeepsFds(c: Config, pre: seq<Dispatch.Input>, acts: seq<Act>)
    requires |c.flat| <= MAX_LOCKED_FILES && Orderly(c, acts)
    ensures FdsOk(acts, LiveOpens(c, pre, acts))
  {
    if |acts| > 0 {
      var init := acts[..|acts| - 1];
      var s := After(c, pre, init);
      OrderlyShrinks(c, acts);
      RunKeepsFds(c, pre, init);
      MadeFd(c, s, acts[|acts| - 1]);
      FdsExtend(c, acts, LiveOpens(c, pre, init), OpenMade(s.client, After(c, pre, acts).client, acts[|acts| - 1]));
    }
  }

  /** A write to a descriptor that an open returned is sent to the dummy path of that open. */
  lemma RoutesToOwnOpen(c: Config, client: Client, log: seq<LiveOpen>, a: nat)
    requires TableOk(c, client, log) && DistinctFds(log) && a < |log|
    ensures RouteOf(client.entries, log[a].fd) == Remote(log[a].dummy)
  {
    var k := FdSlot(client.entries, log[a].fd);
    assert client.entries[log[a].slot].fd == log[a].fd;
    assert Taken(log, k);
    var b :| 0 <= b < |log| && log[b].slot == k;
    assert log[b].fd == log[a].fd;
    assert b == a;
  }

  /** The first successful open of the daemon whose path agrees with `path` on 128 characters. */
  ghost predicate EarliestAgreeing(opens: seq<Redirection.OpenRecord>, k: nat, path: string) {
    && k < |opens| && Redirection.Key(opens[k].path) == Redirection.Key(path)
    && forall e :: 0 <= e < k ==> Redirection.Key(opens[e].path) != Redirection.Key(path)
  }

  /** A write to the descriptor of the open `r`, after these acts: it leaves the process as one
      message naming the dummy path and carrying the copied data, the daemon hears it, and it lands
      on the descriptor of an open that agrees with the path. */
  ghost predicate Reaches(c: Config, pre: seq<Dispatch.Input>, acts: seq<Act>, r: LiveOpen,
                          data: seq<char>, written: int)
    requires |c.flat| <= MAX_LOCKED_FILES
  {
    var s := After(c, pre, acts);
    var m := Dispatch.WriteFile(r.dummy, Payload(data), written);
    && InputOf(c, s.client, AppWrite(r.fd, data, written)) == [Dispatch.Msg(c.pipe, m)]
    && Dispatch.RequestOf(s.server, Dispatch.Msg(c.pipe, m)) == [Redirection.Write(r.dummy, Payload(data))]
    && LandsRight(Redirection.Log(c.devs, AllRequests(c, pre, acts)), r.path,
                  Redirection.Step(s.server.red, c.devs, Redirection.Write(r.dummy, Payload(data))).1,
                  Payload(data), Redirection.TempsPositive(AllRequests(c, pre, acts)))
  }

  /**
   End to end.  Whatever the application, the other tenants and the monitor have done, a write to
   a descriptor that the application got by opening `r.path` leaves the process as one message, is
   accepted by the daemon while it is up, and is performed, with the copied data, on a descriptor
   that the daemon opened for a path agreeing with `r.path` on its first 128 characters, the first
   such one unless `mkstemp` gave descriptor 0; for a shorter path that is the very path.
   */
  lemma WriteReachesItsFile(c: Config, pre: seq<Dispatch.Input>, acts: seq<Act>, r: LiveOpen,
                            data: seq<char>, written: int)
    requires Good(c, pre, acts) && r in LiveOpens(c, pre, acts)
    requires After(c, pre, acts).client.alive && !After(c, pre, acts).server.red.crashed
    ensures Reaches(c, pre, acts, r, data, written)
  {
    WriteIsHeard(c, pre, acts, r, data, written);
    WriteLands(c, pre, acts, r, Payload(data));
  }

  /** The outcome of a write: performed, with this data, on the descriptor of a successful open
      that agrees with `path`. */
  ghost predicate LandsRight(opens: seq<Redirection.OpenRecord>, path: string, out: Redirection.Outcome,
                             data: seq<char>, first: bool) {
    exists k ::
      && 0 <= k < |opens| && Redirection.Key(opens[k].path) == Redirection.Key(path)
      && out == Redirection.WriteTo(opens[k].fd, data)
      && (|path| < 128 ==> opens[k].path == path)
      && (first ==> EarliestAgreeing(opens, k, path))
  }

  lemma WriteIsHeard(c: Config, pre: seq<Dispatch.Input>, acts: seq<Act>, r: LiveOpen,
                     data: seq<char>, written: int)
    requires Good(c, pre, acts) && r in LiveOpens(c, pre, acts)
    requires After(c, pre, acts).client.alive && !After(c, pre, acts).server.red.crashed
    ensures var m := Dispatch.WriteFile(r.dummy, Payload(data), written);
            && InputOf(c, After(c, pre, acts).client, AppWrite(r.fd, data, written)) == [Dispatch.Msg(c.pipe, m)]
            && Dispatch.Heard(After(c, pre, acts).server, c.pipe, m)
  {
    WriteIsSent(c, pre, acts, r, data, written);
    var slot := RunMapped(c, pre, acts);
    MappedIsHeard(After(c, pre, acts).server, slot, c, Dispatch.WriteFile(r.dummy, Payload(data), written));
  }

  lemma WriteIsSent(c: Config, pre: seq<Dispatch.Input>, acts: seq<Act>, r: LiveOpen,
                    data: seq<char>, written: int)
    requires Good(c, pre, acts) && r in LiveOpens(c, pre, acts) && After(c, pre, acts).client.alive
    ensures InputOf(c, After(c, pre, acts).client, AppWrite(r.fd, data, written)) ==
            [Dispatch.Msg(c.pipe, Dispatch.WriteFile(r.dummy, Payload(data), written))]
    ensures RouteOf(After(c, pre, acts).client.entries, r.fd) == Remote(r.dummy)
  {
    var s, log := After(c, pre, acts), LiveOpens(c, pre, acts);
    var a :| 0 <= a < |log| && log[a] == r;
    RunKeepsLinked(c, pre, acts);
    RunKeepsFds(c, pre, acts);
    RoutesToOwnOpen(c, s.client, log, a);
  }

  lemma WriteLands(c: Config, pre: seq<Dispatch.Input>, acts: seq<Act>, r: LiveOpen, data: seq<char>)
    requires Good(c, pre, acts) && r in LiveOpens(c, pre, acts) && !After(c, pre, acts).server.red.crashed
    ensures LandsRight(Redirection.Log(c.devs, AllRequests(c, pre, acts)), r.path,
                       Redirection.Step(After(c, pre, acts).server.red, c.devs, Redirection.Write(r.dummy, data)).1,
                       data, Redirection.TempsPositive(AllRequests(c, pre, acts)))
  {
    var reqs := AllRequests(c, pre, acts);
    var red := After(c, pre, acts).server.red;
    RunKeepsLinked(c, pre, acts);
    RunRedirects(c, pre, acts);
    assert ServedOpen(red.opens, r);
    LandsOnAgreeing(red, c.devs, reqs, r, data);
    LogIsTable(c, pre, acts);
  }

  lemma LogIsTable(c: Config, pre: seq<Dispatch.Input>, acts: seq<Act>)
    requires |c.flat| <= MAX_LOCKED_FILES
    ensures Redirection.Log(c.devs, AllRequests(c, pre, acts)) == After(c, pre, acts).server.red.opens
  {
    ServerRuns(c, pre, acts);
    Redirection.TableIsLog(c.devs, AllRequests(c, pre, acts));
  }

  lemma LandsOnAgreeing(red: Redirection.State, devs: seq<Device>, reqs: seq<Redirection.Request>, r: LiveOpen,
                        data: seq<char>)
    requires Redirection.Inv(red, reqs) && ServedOpen(red.opens, r) && !red.crashed
    ensures LandsRight(red.opens, r.path, Redirection.Step(red, devs, Redirection.Write(r.dummy, data)).1,
                       data, Redirection.TempsPositive(reqs))
  {
    var b :| 0 <= b < |red.opens| && red.opens[b].path == r.path && red.opens[b].dummy == r.dummy;
    Redirection.ExactLookup(red, reqs, r.dummy, b);
    var k := Redirection.FdIndex(red.opens, r.dummy);
    if Redirection.TempsPositive(reqs) {
      forall e | 0 <= e < k ensures Redirection.Key(red.opens[e].path) != Redirection.Key(r.path) {
        if Redirection.Key(red.opens[e].path) == Redirection.Key(r.path) {
          Redirection.SameKeySameDummy(red, reqs, e, b);
        }
      }
      assert EarliestAgreeing(red.opens, k, r.path);
    }
  }
}
