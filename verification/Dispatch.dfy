/**
 The request dispatcher of the listener: which pipes are served, what each request does to the
 tenants and to the redirection tables, and what is replied.
 */
module Dispatch {
  import opened Scan
  import opened Devices
  import Registry
  import Redirection

  /** A request, with the answers the kernel gives while it is served. */
  datatype Message =
    | NotSet
    | RegisterClient(pid: int)
    | UnregisterClient
    | OpenFile(path: string, realFd: int, temp: Redirection.Temp)
    | WriteFile(name: string, data: seq<char>, written: int)
    | Unsupported

  datatype Body =
    | NoBody
    | Generic
    | Registration(paths: seq<string>)
    | OpenedFile(path: string)
    | Written(bytes: nat)

  /** `Gone`: the daemon crashed. */
  datatype Reply = Silent | Reply(status: int, body: Body) | Gone

  datatype Server = Server(reg: Registry.State, red: Redirection.State)

  function Initial(): Server {
    Server(Registry.Initial(), Redirection.INITIAL)
  }

  ghost predicate Shaped(s: Server) {
    Registry.Shaped(s.reg)
  }

  function ServeRegister(s: Server, flat: seq<string>, pipe: int, pid: int): (Server, Reply) {
    var (reg, out) := Registry.Register(s.reg, pipe, pid);
    (s.(reg := reg), if out.Registered? then Reply(0, Registration(flat)) else Reply(1, Registration([])))
  }

  function ServeUnregister(s: Server, pipe: int, tenant: nat): (Server, Reply)
    requires tenant < |s.reg.tenants|
  {
    var (reg, out) := Registry.ServeUnregister(s.reg, pipe, tenant);
    (s.(reg := reg), if out.Unregistered? then Reply(0, Generic) else Reply(1, NoBody))
  }

  function ServeOpen(s: Server, devs: seq<Device>, path: string, realFd: int, temp: Redirection.Temp): (Server, Reply) {
    var (red, out) := Redirection.ServeOpen(s.red, devs, path, realFd, temp);
    (s.(red := red),
     match out
     case Opened(dummy) => Reply(0, OpenedFile(dummy))
     case Crashed => Gone
     case _ => Reply(1, OpenedFile("")))
  }

  /** The reply carries the result of `write` in an unsigned 64-bit field. */
  function Unsigned64(n: int): nat {
    n % 0x1_0000_0000_0000_0000
  }

  /** Writing to descriptor -1 fails. */
  function ServeWrite(s: Server, name: string, written: int): Reply {
    var n := if Redirection.FdOf(s.red.opens, name) == -1 then -1 else written;
    Reply(if n < 0 then 1 else 0, Written(Unsigned64(n)))
  }

  /** The dispatcher listens to a pipe only if it is mapped to a tenant or is registering. */
  predicate Heard(s: Server, pipe: int, m: Message) {
    !s.red.crashed && (m.RegisterClient? || Registry.TenantOfPipe(s.reg.slots, pipe).Some?)
  }

  function Serve(s: Server, devs: seq<Device>, flat: seq<string>, pipe: int, m: Message): (r: (Server, Reply))
    requires Shaped(s)
    ensures Shaped(r.0)
  {
    if s.red.crashed then (s, Gone)
    else
      var tenant := Registry.TenantOfPipe(s.reg.slots, pipe);
      if tenant.None? && !m.RegisterClient? then (s, Silent)
      else match m
        case RegisterClient(pid) => ServeRegister(s, flat, pipe, pid)
        case UnregisterClient => ServeUnregister(s, pipe, tenant.value)
        case OpenFile(path, realFd, temp) => ServeOpen(s, devs, path, realFd, temp)
        case WriteFile(name, _, written) => (s, ServeWrite(s, name, written))
        case _ => (s, Reply(-1, NoBody))
  }

  /** The response type the client library insists on. */
  predicate Expected(m: Message, b: Body) {
    match m
    case RegisterClient(_) => b.Registration?
    case UnregisterClient => b.Generic?
    case OpenFile(_, _, _) => b.OpenedFile?
    case WriteFile(_, _, _) => b.Written?
    case _ => false
  }

  /** Every reply with status 0 has the type the client insists on, and every pipe that is not
      heard is met with silence and leaves the tables as they are. */
  lemma RepliesAsExpected(s: Server, devs: seq<Device>, flat: seq<string>, pipe: int, m: Message)
    requires Shaped(s)
    ensures var (t, r) := Serve(s, devs, flat, pipe, m);
            && (r.Reply? && r.status == 0 ==> Expected(m, r.body))
            && (!Heard(s, pipe, m) ==> t == s && !r.Reply?)
            && (r.Reply? ==> Heard(s, pipe, m))
  {
  }

  /** The reply to every heard message in a state with both invariants. */
  lemma AnswersInState(s: Server, devs: seq<Device>, flat: seq<string>, pipe: int, m: Message)
    requires Registry.Bijection(s.reg) && Redirection.Coupled(s.red) && Redirection.FdsReal(s.red)
    requires pipe > 0 && Heard(s, pipe, m)
    ensures AnswerIs(s, devs, flat, m, Serve(s, devs, flat, pipe, m).1)
  {
    match m
    case RegisterClient(pid) => Registry.RegisterExactly(s.reg, pipe, pid);
    case UnregisterClient => Registry.UnregisterSucceeds(s.reg, pipe);
    case OpenFile(path, realFd, temp) => OpenAnswered(s, devs, path, realFd, temp);
    case WriteFile(name, _, written) => WriteAnswered(s, name, written);
    case _ =>
  }

  /**
   What a message is answered: registration fails exactly when four tenants are active and
   otherwise carries the locked paths; unregistration never fails; an open succeeds exactly for a
   locked path that the kernel opens while the descriptor table has room, is answered with the
   remembered or the new dummy file, and takes the daemon down exactly when it then needs a dummy
   file and `mkstemp` fails; a write succeeds exactly when the name begins a recorded dummy name and
   the kernel writes, and is answered with what the kernel returned.
   */
  ghost predicate AnswerIs(s: Server, devs: seq<Device>, flat: seq<string>, m: Message, reply: Reply) {
    match m
    case RegisterClient(_) =>
      reply == if Registry.NumTenants(s.reg.tenants) == 4
               then Reply(1, Registration([])) else Reply(0, Registration(flat))
    case UnregisterClient => reply == Reply(0, Generic)
    case OpenFile(path, realFd, temp) => OpenAnswerIs(s.red, devs, path, realFd, temp, reply)
    case WriteFile(name, _, written) => WriteAnswerIs(s.red, name, written, reply)
    case _ => reply == Reply(-1, NoBody)
  }

  /** The open gets as far as needing a dummy file. */
  predicate Tried(red: Redirection.State, devs: seq<Device>, path: string, realFd: int) {
    Locked(devs, path) && realFd != -1 && |red.opens| < 1024
  }

  ghost predicate OpenAnswerIs(red: Redirection.State, devs: seq<Device>, path: string, realFd: int,
                               temp: Redirection.Temp, reply: Reply) {
    if !Tried(red, devs, path, realFd) then reply == Reply(1, OpenedFile(""))
    else if Redirection.HasDummy(red, path)
    then exists m :: 0 <= m < |red.memo| && red.memo[m].key == Redirection.Key(path)
                     && reply == Reply(0, OpenedFile(red.memo[m].dummy))
    else if temp.Temp? then reply == Reply(0, OpenedFile(Redirection.Key(temp.name)))
    else reply == Gone
  }

  ghost predicate WriteAnswerIs(red: Redirection.State, name: string, written: int, reply: Reply) {
    && (Recorded(red, name) && 0 <= written < 0x1_0000_0000_0000_0000 ==> reply == Reply(0, Written(written)))
    && (Recorded(red, name) && written == -1 ==> reply == Reply(1, Written(0xFFFF_FFFF_FFFF_FFFF)))
    && (!Recorded(red, name) ==> reply == Reply(1, Written(0xFFFF_FFFF_FFFF_FFFF)))
    && reply.Reply? && (reply.status == 0 <==> Recorded(red, name) && written >= 0)
  }

  /** The name begins the dummy name of some slot of the descriptor table. */
  ghost predicate Recorded(red: Redirection.State, name: string) {
    exists k :: 0 <= k < |red.opens| && name <= red.opens[k].dummy
  }

  lemma WriteAnswered(s: Server, name: string, written: int)
    requires Redirection.FdsReal(s.red)
    ensures WriteAnswerIs(s.red, name, written, ServeWrite(s, name, written))
  {
    var k := Redirection.FdIndex(s.red.opens, name);
    assert Recorded(s.red, name) <==> k < |s.red.opens|;
    assert 0 <= written < 0x1_0000_0000_0000_0000 ==> Unsigned64(written) == written;
  }

  lemma OpenAnswered(s: Server, devs: seq<Device>, path: string, realFd: int, temp: Redirection.Temp)
    requires Redirection.Coupled(s.red) && !s.red.crashed
    ensures OpenAnswerIs(s.red, devs, path, realFd, temp, ServeOpen(s, devs, path, realFd, temp).1)
  {
    Redirection.OpensExactly(s.red, devs, Redirection.Open(path, realFd, temp));
    var k := Redirection.MemoIndex(s.red.memo, Redirection.Key(path));
    assert k < |s.red.memo| ==> s.red.memo[k].key == Redirection.Key(path);
  }

  /** What every heard message does to the tables in a state with both invariants: a registration
      adds a tenant and a slot of the pipe unless four tenants are active, an unregistration takes
      one of each away, an open may add to the redirection tables, and nothing else changes anything. */
  lemma EffectsInState(s: Server, devs: seq<Device>, flat: seq<string>, pipe: int, m: Message)
    requires Registry.Bijection(s.reg) && Redirection.Coupled(s.red)
    requires pipe > 0 && Heard(s, pipe, m)
    ensures EffectIs(s, devs, pipe, m, Serve(s, devs, flat, pipe, m).0)
  {
    match m
    case RegisterClient(pid) => RegisterEffect(s, flat, pipe, pid);
    case UnregisterClient => UnregisterEffect(s, devs, flat, pipe);
    case OpenFile(path, realFd, temp) => OpenEffect(s, devs, path, realFd, temp);
    case _ =>
  }

  ghost predicate EffectIs(s: Server, devs: seq<Device>, pipe: int, m: Message, t: Server) {
    match m
    case RegisterClient(_) =>
      && t.red == s.red
      && if Registry.NumTenants(s.reg.tenants) == 4 then t.reg == s.reg else Moved(s.reg, t.reg, pipe, 1)
    case UnregisterClient => t.red == s.red && Moved(s.reg, t.reg, pipe, -1)
    case OpenFile(path, realFd, temp) =>
      && t.reg == s.reg
      && if Tried(s.red, devs, path, realFd) && (Redirection.HasDummy(s.red, path) || temp.Temp?)
         then exists dummy :: t.red.opens == s.red.opens + [Redirection.OpenRecord(path, dummy, realFd)]
         else t.red.opens == s.red.opens
    case _ => t == s
  }

  /** The pipe holds so many slots more, and so many tenants more are active. */
  ghost predicate Moved(reg: Registry.State, reg': Registry.State, pipe: int, d: int) {
    && Registry.Held(reg'.slots, pipe) == Registry.Held(reg.slots, pipe) + d
    && Registry.NumTenants(reg'.tenants) == Registry.NumTenants(reg.tenants) + d
  }

  lemma RegisterEffect(s: Server, flat: seq<string>, pipe: int, pid: int)
    requires Registry.Bijection(s.reg) && pipe > 0
    ensures var t := ServeRegister(s, flat, pipe, pid).0;
            && t.red == s.red
            && if Registry.NumTenants(s.reg.tenants) == 4 then t.reg == s.reg else Moved(s.reg, t.reg, pipe, 1)
  {
    Registry.RegisterExactly(s.reg, pipe, pid);
    Registry.ArriveGains(s.reg, Registry.Arrive(pipe, pid), pipe);
    var t := Registry.FreeTenant(s.reg.tenants);
    if t < |s.reg.tenants| {
      Registry.ActiveUpdate(s.reg.tenants, t, s.reg.tenants[t].(pid := pid, isActive := true));
    }
  }

  lemma UnregisterEffect(s: Server, devs: seq<Device>, flat: seq<string>, pipe: int)
    requires Registry.Bijection(s.reg) && pipe > 0 && Heard(s, pipe, UnregisterClient)
    ensures var t := Serve(s, devs, flat, pipe, UnregisterClient).0;
            t.red == s.red && Moved(s.reg, t.reg, pipe, -1)
  {
    Registry.UnregisterSucceeds(s.reg, pipe);
    Registry.LeaveGains(s.reg, Registry.Leave(pipe), pipe);
  }

  lemma OpenEffect(s: Server, devs: seq<Device>, path: string, realFd: int, temp: Redirection.Temp)
    requires Redirection.Coupled(s.red) && !s.red.crashed
    ensures var t := ServeOpen(s, devs, path, realFd, temp).0;
            && t.reg == s.reg
            && if Tried(s.red, devs, path, realFd) && (Redirection.HasDummy(s.red, path) || temp.Temp?)
               then exists dummy :: t.red.opens == s.red.opens + [Redirection.OpenRecord(path, dummy, realFd)]
               else t.red.opens == s.red.opens
  {
    var r := Redirection.Open(path, realFd, temp);
    Redirection.OpensExactly(s.red, devs, r);
    Redirection.OpenChangesExactly(s.red, devs, r);
    assert s.red.opens + [] == s.red.opens;
  }

  // ----- Whole runs -----

  /** A message, or one iteration of the monitor's sweep. */
  datatype Input = Msg(pipe: int, m: Message) | Visit(tenant: nat, alive: set<int>)

  function Next(s: Server, devs: seq<Device>, flat: seq<string>, input: Input): (t: Server)
    requires Shaped(s)
    ensures Shaped(t)
  {
    match input
    case Msg(pipe, m) => Serve(s, devs, flat, pipe, m).0
    case Visit(t, alive) =>
      if s.red.crashed then s else s.(reg := Registry.Step(s.reg, Registry.Visit(t, alive)).0)
  }

  function After(devs: seq<Device>, flat: seq<string>, inputs: seq<Input>): (s: Server)
    ensures Shaped(s)
  {
    if |inputs| == 0 then Initial()
    else Next(After(devs, flat, inputs[..|inputs| - 1]), devs, flat, inputs[|inputs| - 1])
  }

  /** The registry event an input amounts to in state `s`, if any. */
  function EventOf(s: Server, input: Input): seq<Registry.Event> {
    if s.red.crashed then []
    else match input
      case Msg(pipe, RegisterClient(pid)) => [Registry.Arrive(pipe, pid)]
      case Msg(pipe, UnregisterClient) => [Registry.Leave(pipe)]
      case Visit(t, alive) => [Registry.Visit(t, alive)]
      case _ => []
  }

  /** The redirection request an input amounts to in state `s`, if any. */
  function RequestOf(s: Server, input: Input): seq<Redirection.Request> {
    if input.Visit? || !Heard(s, input.pipe, input.m) then []
    else match input.m
      case OpenFile(path, realFd, temp) => [Redirection.Open(path, realFd, temp)]
      case WriteFile(name, data, _) => [Redirection.Write(name, data)]
      case _ => []
  }

  /** The call of `write` that serving a message makes. */
  function WriteCall(s: Server, devs: seq<Device>, pipe: int, m: Message): Option<Redirection.Outcome> {
    var reqs := RequestOf(s, Msg(pipe, m));
    if reqs != [] && reqs[0].Write? then Some(Redirection.Step(s.red, devs, reqs[0]).1) else None
  }

  function Events(devs: seq<Device>, flat: seq<string>, inputs: seq<Input>): seq<Registry.Event> {
    if |inputs| == 0 then []
    else
      var init := inputs[..|inputs| - 1];
      Events(devs, flat, init) + EventOf(After(devs, flat, init), inputs[|inputs| - 1])
  }

  function Requests(devs: seq<Device>, flat: seq<string>, inputs: seq<Input>): seq<Redirection.Request> {
    if |inputs| == 0 then []
    else
      var init := inputs[..|inputs| - 1];
      Requests(devs, flat, init) + RequestOf(After(devs, flat, init), inputs[|inputs| - 1])
  }

  lemma RegAfter(events: seq<Registry.Event>, more: seq<Registry.Event>)
    requires |more| <= 1
    ensures Registry.After(events + more) ==
            if more == [] then Registry.After(events) else Registry.Step(Registry.After(events), more[0]).0
  {
    if more == [] {
      assert events + more == events;
    } else {
      assert (events + more)[..|events|] == events;
    }
  }

  lemma RedAfter(devs: seq<Device>, reqs: seq<Redirection.Request>, more: seq<Redirection.Request>)
    requires |more| <= 1
    ensures Redirection.After(devs, reqs + more) ==
            if more == [] then Redirection.After(devs, reqs)
            else Redirection.Step(Redirection.After(devs, reqs), devs, more[0]).0
  {
    if more == [] {
      assert reqs + more == reqs;
    } else {
      assert (reqs + more)[..|reqs|] == reqs;
    }
  }

  /** One input does to each half of the daemon exactly what its event or request does. */
  lemma NextSplits(s: Server, devs: seq<Device>, flat: seq<string>, input: Input)
    requires Shaped(s)
    ensures var t := Next(s, devs, flat, input);
            var e, r := EventOf(s, input), RequestOf(s, input);
            && t.reg == (if e == [] then s.reg else Registry.Step(s.reg, e[0]).0)
            && t.red == (if r == [] then s.red else Redirection.Step(s.red, devs, r[0]).0)
  {
  }

  lemma RegSplits(s: Server, devs: seq<Device>, flat: seq<string>, input: Input, events: seq<Registry.Event>)
    requires Shaped(s) && s.reg == Registry.After(events)
    ensures Next(s, devs, flat, input).reg == Registry.After(events + EventOf(s, input))
  {
    NextSplits(s, devs, flat, input);
    RegAfter(events, EventOf(s, input));
  }

  lemma RedSplits(s: Server, devs: seq<Device>, flat: seq<string>, input: Input, reqs: seq<Redirection.Request>)
    requires Shaped(s) && s.red == Redirection.After(devs, reqs)
    ensures Next(s, devs, flat, input).red == Redirection.After(devs, reqs + RequestOf(s, input))
  {
    NextSplits(s, devs, flat, input);
    RedAfter(devs, reqs, RequestOf(s, input));
  }

  /**
   The daemon's run splits: the tenants evolve as in the run of the registration events, and the
   redirection tables as in the run of the requests that came from registered pipes.
   */
  lemma {:induction false} RunSplits(devs: seq<Device>, flat: seq<string>, inputs: seq<Input>)
    ensures After(devs, flat, inputs) ==
            Server(Registry.After(Events(devs, flat, inputs)), Redirection.After(devs, Requests(devs, flat, inputs)))
  {
    if |inputs| > 0 {
      var n := |inputs| - 1;
      var init, s := inputs[..n], After(devs, flat, inputs[..n]);
      RunSplits(devs, flat, init);
      RegSplits(s, devs, flat, inputs[n], Events(devs, flat, init));
      RedSplits(s, devs, flat, inputs[n], Requests(devs, flat, init));
    }
  }

  ghost predicate AllConnected(inputs: seq<Input>) {
    forall i :: 0 <= i < |inputs| && inputs[i].Msg? ==> inputs[i].pipe > 0
  }

  lemma EventConnected(s: Server, input: Input)
    requires input.Msg? ==> input.pipe > 0
    ensures Registry.AllConnected(EventOf(s, input))
  {
  }

  lemma {:induction false} EventsConnected(devs: seq<Device>, flat: seq<string>, inputs: seq<Input>)
    requires AllConnected(inputs)
    ensures Registry.AllConnected(Events(devs, flat, inputs))
  {
    if |inputs| > 0 {
      var init := inputs[..|inputs| - 1];
      assert forall i :: 0 <= i < |init| ==> init[i] == inputs[i];
      EventsConnected(devs, flat, init);
      EventConnected(After(devs, flat, init), inputs[|inputs| - 1]);
    }
  }

  /** Through every mixture of messages and sweeps the pipe slots and the tenants stay in
      bijection, and a running daemon answers a request other than a registration exactly when
      the pipe has been registered more often than unregistered or swept away. */
  lemma AnswersExactlyRegisteredPipes(devs: seq<Device>, flat: seq<string>, inputs: seq<Input>, pipe: int, m: Message)
    requires AllConnected(inputs) && pipe > 0 && !m.RegisterClient?
    ensures var s := After(devs, flat, inputs);
            && Registry.Bijection(s.reg)
            && (!s.red.crashed ==>
                  (Heard(s, pipe, m) <==> Registry.Net(Events(devs, flat, inputs), pipe) > 0))
  {
    RunSplits(devs, flat, inputs);
    EventsConnected(devs, flat, inputs);
    Registry.RunKeepsBijection(Events(devs, flat, inputs));
    Registry.HoldsItsNetRegistrations(Events(devs, flat, inputs), pipe);
  }

  /** The answer to every message that is heard, in any state the daemon can reach. */
  lemma AnswersExactly(devs: seq<Device>, flat: seq<string>, inputs: seq<Input>, pipe: int, m: Message)
    requires AllConnected(inputs) && pipe > 0 && Heard(After(devs, flat, inputs), pipe, m)
    ensures AnswerIs(After(devs, flat, inputs), devs, flat, m, Serve(After(devs, flat, inputs), devs, flat, pipe, m).1)
  {
    RunSplits(devs, flat, inputs);
    EventsConnected(devs, flat, inputs);
    Registry.RunKeepsBijection(Events(devs, flat, inputs));
    Redirection.RunKeepsCoupled(devs, Requests(devs, flat, inputs));
    AnswersInState(After(devs, flat, inputs), devs, flat, pipe, m);
  }

  /** The effect of every message that is heard, in any state the daemon can reach. */
  lemma EffectsExactly(devs: seq<Device>, flat: seq<string>, inputs: seq<Input>, pipe: int, m: Message)
    requires AllConnected(inputs) && pipe > 0 && Heard(After(devs, flat, inputs), pipe, m)
    ensures EffectIs(After(devs, flat, inputs), devs, pipe, m, After(devs, flat, inputs + [Msg(pipe, m)]))
  {
    RunSplits(devs, flat, inputs);
    EventsConnected(devs, flat, inputs);
    Registry.RunKeepsBijection(Events(devs, flat, inputs));
    Redirection.RunKeepsCoupled(devs, Requests(devs, flat, inputs));
    EffectsInState(After(devs, flat, inputs), devs, flat, pipe, m);
    assert (inputs + [Msg(pipe, m)])[..|inputs|] == inputs;
  }

  /** A visit of the monitor, in any state that a running daemon can reach: exactly a lost tenant is
      released, with its slot; the redirection tables stay. */
  lemma VisitExactly(devs: seq<Device>, flat: seq<string>, inputs: seq<Input>, t: nat, alive: set<int>)
    requires AllConnected(inputs) && t < 4 && !After(devs, flat, inputs).red.crashed
    ensures var s, s' := After(devs, flat, inputs), After(devs, flat, inputs + [Visit(t, alive)]);
            && s'.red == s.red
            && |s.reg.tenants| == |s'.reg.tenants| == 4 && |s.reg.slots| == |s'.reg.slots| == 512
            && (forall u :: 0 <= u < 4 ==>
                  s'.reg.tenants[u] == if u == t && s.reg.tenants[t].pid !in alive
                                       then s.reg.tenants[t].(isActive := false) else s.reg.tenants[u])
            && (forall k :: 0 <= k < 512 ==>
                  s'.reg.slots[k] == if s.reg.slots[k].tenant == Some(t) && s.reg.tenants[t].pid !in alive
                                     then Registry.Slot(None, 0) else s.reg.slots[k])
  {
    RunSplits(devs, flat, inputs);
    EventsConnected(devs, flat, inputs);
    Registry.RunKeepsBijection(Events(devs, flat, inputs));
    Registry.VisitReleases(After(devs, flat, inputs).reg, t, alive);
    assert (inputs + [Visit(t, alive)])[..|inputs|] == inputs;
  }
}
