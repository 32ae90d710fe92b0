/**
 Tenants and the pipes they talk through.

 Two tables of different capacity, both filled first-fit: registration takes a tenant and a pipe
 slot, unregistration and the monitor's sweep give them back.  A step is one served request or one
 iteration of the sweep.
 */
module Registry {
  import opened Scan

  const MAX_TENANTS: nat := 4
  const SUNNEED_MAX_IPC_CLIENTS: nat := 512
  /** Identifier of an initialised but unconnected pipe. */
  const NO_PIPE: int := 0

  datatype Tenant = Tenant(id: nat, pid: int, isActive: bool)

  /** `tenant` is the index of the tenant pointed to. */
  datatype Slot = Slot(tenant: Option<nat>, pipe: int)

  datatype State = State(tenants: seq<Tenant>, slots: seq<Slot>)

  const EMPTY_SLOT := Slot(None, NO_PIPE)

  function Initial(): State {
    State(seq(MAX_TENANTS, i requires 0 <= i => Tenant(i, 0, false)), seq(SUNNEED_MAX_IPC_CLIENTS, _ => EMPTY_SLOT))
  }

  ghost predicate Shaped(s: State) {
    && |s.tenants| == MAX_TENANTS && |s.slots| == SUNNEED_MAX_IPC_CLIENTS
    && (forall t :: 0 <= t < MAX_TENANTS ==> s.tenants[t].id == t)
    && (forall k :: 0 <= k < |s.slots| && s.slots[k].tenant.Some? ==> s.slots[k].tenant.value < MAX_TENANTS)
  }

  // ----- Scans -----

  function FreeTenant(tenants: seq<Tenant>): (t: nat)
    ensures t <= |tenants|
    ensures t < |tenants| ==> !tenants[t].isActive
    ensures forall i :: 0 <= i < t ==> tenants[i].isActive
  {
    First(tenants, (t: Tenant) => !t.isActive)
  }

  function FreeSlot(slots: seq<Slot>): (k: nat)
    ensures k <= |slots|
    ensures k < |slots| ==> slots[k].tenant == None
    ensures forall i :: 0 <= i < k ==> slots[i].tenant != None
  {
    First(slots, (sl: Slot) => sl.tenant == None)
  }

  /** `nng_pipe_id`: the identifier of a connected pipe, otherwise -1. */
  function NngPipeId(pipe: int): int {
    if pipe > 0 then pipe else -1
  }

  function PipeSlot(slots: seq<Slot>, pipe: int): (k: nat)
    ensures k <= |slots|
    ensures k < |slots| ==> slots[k].pipe == pipe
    ensures forall i :: 0 <= i < k ==> slots[i].pipe != pipe
  {
    First(slots, (sl: Slot) => sl.pipe == pipe)
  }

  function TenantSlot(slots: seq<Slot>, t: nat): (k: nat)
    ensures k <= |slots|
    ensures k < |slots| ==> slots[k].tenant == Some(t)
    ensures forall i :: 0 <= i < k ==> slots[i].tenant != Some(t)
  {
    First(slots, (sl: Slot) => sl.tenant == Some(t))
  }

  /** First slot whose reported pipe identifier is `pipe`. */
  function LookupSlot(slots: seq<Slot>, pipe: int): (k: nat)
    ensures k <= |slots|
    ensures k < |slots| ==> NngPipeId(slots[k].pipe) == pipe
    ensures forall i :: 0 <= i < k ==> NngPipeId(slots[i].pipe) != pipe
  {
    First(slots, (sl: Slot) => NngPipeId(sl.pipe) == pipe)
  }

  function TenantOfPipe(slots: seq<Slot>, pipe: int): Option<nat> {
    var k := LookupSlot(slots, pipe);
    if k < |slots| then slots[k].tenant else None
  }

  function NumTenants(tenants: seq<Tenant>): nat {
    Count(tenants, (t: Tenant) => t.isActive)
  }

  function NumSlots(slots: seq<Slot>): nat {
    Count(slots, (sl: Slot) => sl.tenant.Some?)
  }

  /** Number of slots a pipe holds. */
  function Held(slots: seq<Slot>, pipe: int): nat {
    Count(slots, (sl: Slot) => sl.pipe == pipe)
  }

  // ----- Steps -----

  datatype Outcome =
    | Registered(tenant: nat)
    | Full
    | Unregistered(tenant: nat)
    | UnknownPipe           // no reply is sent
    | Failed                // one of the error returns of the unregistration
    | Removed(pipe: int)
    | Kept

  function Register(s: State, pipe: int, pid: int): (State, Outcome) {
    var t := FreeTenant(s.tenants);
    if t == |s.tenants| then (s, Full)
    else
      var k := FreeSlot(s.slots);
      (State(s.tenants[t := s.tenants[t].(pid := pid, isActive := true)],
             if k < |s.slots| then s.slots[k := Slot(Some(t), pipe)] else s.slots),
       Registered(t))
  }

  /** The body of `serve_unregister_client`, for the tenant `t` that the dispatcher looked up. */
  function ServeUnregister(s: State, pipe: int, t: nat): (State, Outcome)
    requires t < |s.tenants|
  {
    var k := PipeSlot(s.slots, pipe);
    if k == |s.slots| then (s, Failed)
    else
      var cleared := s.(slots := s.slots[k := EMPTY_SLOT]);
      if !s.tenants[t].isActive then (cleared, Failed)
      else (cleared.(tenants := s.tenants[t := s.tenants[t].(isActive := false)]), Unregistered(t))
  }

  function Unregister(s: State, pipe: int): (State, Outcome)
    requires Shaped(s)
  {
    match TenantOfPipe(s.slots, pipe)
    case None => (s, UnknownPipe)
    case Some(t) => ServeUnregister(s, pipe, t)
  }

  /** Releases the slot and the tenant of a process that is gone. */
  function Lose(s: State, t: nat): (State, Outcome)
    requires t < |s.tenants|
  {
    var k := TenantSlot(s.slots, t);
    if k == |s.slots| then (s, Kept)
    else
      (State(if s.tenants[t].isActive then s.tenants[t := s.tenants[t].(isActive := false)] else s.tenants,
             s.slots[k := EMPTY_SLOT]),
       Removed(s.slots[k].pipe))
  }

  /** One iteration of the sweep: an active tenant without a process is released. */
  function Check(s: State, t: nat, alive: set<int>): (State, Outcome)
    requires t < |s.tenants|
  {
    if !s.tenants[t].isActive || s.tenants[t].pid in alive then (s, Kept) else Lose(s, t)
  }

  datatype Event = Arrive(pipe: int, pid: int) | Leave(pipe: int) | Visit(tenant: nat, alive: set<int>)

  function Step(s: State, e: Event): (r: (State, Outcome))
    requires Shaped(s)
    ensures Shaped(r.0)
  {
    match e
    case Arrive(pipe, pid) => Register(s, pipe, pid)
    case Leave(pipe) => Unregister(s, pipe)
    case Visit(t, alive) => if t < |s.tenants| then Check(s, t, alive) else (s, Kept)
  }

  /** Connected pipes have positive identifiers. */
  predicate Connected(e: Event) {
    e.Arrive? || e.Leave? ==> e.pipe > 0
  }

  // ----- Bijection -----

  /** Occupied slots and active tenants are in one-to-one correspondence. */
  ghost predicate Bijection(s: State) {
    Paired(s) && NumSlots(s.slots) == NumTenants(s.tenants)
  }

  ghost predicate Paired(s: State) {
    && Shaped(s)
    && (forall k :: 0 <= k < |s.slots| && s.slots[k].tenant.Some? ==>
          s.tenants[s.slots[k].tenant.value].isActive && s.slots[k].pipe > 0)
    && (forall k :: 0 <= k < |s.slots| && s.slots[k].tenant.None? ==> s.slots[k].pipe == NO_PIPE)
    && (forall k, l :: 0 <= k < l < |s.slots| && s.slots[k].tenant.Some? ==> s.slots[k].tenant != s.slots[l].tenant)
    && (forall t :: 0 <= t < |s.tenants| && s.tenants[t].isActive ==> TenantSlot(s.slots, t) < |s.slots|)
  }

  lemma ActiveUpdate(tenants: seq<Tenant>, t: nat, x: Tenant)
    requires t < |tenants|
    ensures NumTenants(tenants[t := x]) ==
            NumTenants(tenants) - (if tenants[t].isActive then 1 else 0) + (if x.isActive then 1 else 0)
  {
    CountUpdate(tenants, (t: Tenant) => t.isActive, t, x);
  }

  lemma SlotsUpdate(slots: seq<Slot>, k: nat, x: Slot)
    requires k < |slots|
    ensures NumSlots(slots[k := x]) ==
            NumSlots(slots) - (if slots[k].tenant.Some? then 1 else 0) + (if x.tenant.Some? then 1 else 0)
  {
    CountUpdate(slots, (sl: Slot) => sl.tenant.Some?, k, x);
  }

  lemma HeldUpdate(slots: seq<Slot>, k: nat, x: Slot, pipe: int)
    requires k < |slots|
    ensures Held(slots[k := x], pipe) ==
            Held(slots, pipe) - (if slots[k].pipe == pipe then 1 else 0) + (if x.pipe == pipe then 1 else 0)
  {
    CountUpdate(slots, (sl: Slot) => sl.pipe == pipe, k, x);
  }

  /** At most 4 of the 512 slots are taken, so a slot is always free. */
  lemma SlotAlwaysFree(s: State)
    requires Bijection(s)
    ensures FreeSlot(s.slots) < |s.slots|
  {
    CountRoom(s.slots, (sl: Slot) => sl.tenant.Some?);
  }

  lemma InitialBijection()
    ensures Bijection(Initial())
    ensures forall t :: 0 <= t < 4 ==> Initial().tenants[t] == Tenant(t, 0, false)
    ensures forall k :: 0 <= k < 512 ==> Initial().slots[k] == Slot(None, 0)
  {
    CountNone(Initial().tenants, (t: Tenant) => t.isActive);
    CountNone(Initial().slots, (sl: Slot) => sl.tenant.Some?);
  }

  /** A tenant that keeps its slot is still found. */
  lemma StillFound(slots: seq<Slot>, u: nat, l: nat)
    requires l < |slots| && slots[l].tenant == Some(u)
    ensures TenantSlot(slots, u) < |slots|
  {
  }

  lemma RegisterKeepsBijection(s: State, pipe: int, pid: int)
    requires Bijection(s) && pipe > 0
    ensures Bijection(Register(s, pipe, pid).0)
  {
    var t := FreeTenant(s.tenants);
    if t < |s.tenants| {
      SlotAlwaysFree(s);
      var k := FreeSlot(s.slots);
      MapKeepsBijection(s, k, t, Slot(Some(t), pipe), s.tenants[t].(pid := pid, isActive := true));
    }
  }

  /** Filling slot `k` for the tenant `t`. */
  lemma MapKeepsBijection(s: State, k: nat, t: nat, sl: Slot, x: Tenant)
    requires Bijection(s) && k < |s.slots| && s.slots[k].tenant.None? && t < |s.tenants| && !s.tenants[t].isActive
    requires sl.tenant == Some(t) && sl.pipe > 0 && x.id == t && x.isActive
    ensures Bijection(State(s.tenants[t := x], s.slots[k := sl]))
  {
    ActiveUpdate(s.tenants, t, x);
    SlotsUpdate(s.slots, k, sl);
    MapKeepsPaired(s, k, t, sl, x);
  }

  lemma MapKeepsPaired(s: State, k: nat, t: nat, sl: Slot, x: Tenant)
    requires Paired(s) && k < |s.slots| && s.slots[k].tenant.None? && t < |s.tenants| && !s.tenants[t].isActive
    requires sl.tenant == Some(t) && sl.pipe > 0 && x.id == t && x.isActive
    ensures Paired(State(s.tenants[t := x], s.slots[k := sl]))
  {
    var slots, tenants := s.slots[k := sl], s.tenants[t := x];
    forall u | 0 <= u < |tenants| && tenants[u].isActive ensures TenantSlot(slots, u) < |slots| {
      StillFound(slots, u, if u == t then k else TenantSlot(s.slots, u));
    }
  }

  /** Clearing slot `k` together with its tenant. */
  lemma ReleaseKeepsBijection(s: State, k: nat)
    requires Bijection(s) && k < |s.slots| && s.slots[k].tenant.Some?
    ensures var t := s.slots[k].tenant.value;
            Bijection(State(s.tenants[t := s.tenants[t].(isActive := false)], s.slots[k := EMPTY_SLOT]))
  {
    var t := s.slots[k].tenant.value;
    var x := s.tenants[t].(isActive := false);
    ActiveUpdate(s.tenants, t, x);
    SlotsUpdate(s.slots, k, EMPTY_SLOT);
    ReleaseKeepsPaired(s, k, t, x);
  }

  lemma ReleaseKeepsPaired(s: State, k: nat, t: nat, x: Tenant)
    requires Paired(s) && k < |s.slots| && s.slots[k].tenant == Some(t) && x == s.tenants[t].(isActive := false)
    ensures Paired(State(s.tenants[t := x], s.slots[k := EMPTY_SLOT]))
  {
    var slots, tenants := s.slots[k := EMPTY_SLOT], s.tenants[t := x];
    forall u | 0 <= u < |tenants| && tenants[u].isActive ensures TenantSlot(slots, u) < |slots| {
      StillFound(slots, u, TenantSlot(s.slots, u));
    }
  }

  /** A connected pipe is looked up and cleared in the same slot. */
  lemma SameSlot(s: State, pipe: int)
    requires Bijection(s) && pipe > 0
    ensures PipeSlot(s.slots, pipe) == LookupSlot(s.slots, pipe)
    ensures TenantOfPipe(s.slots, pipe).Some? <==> PipeSlot(s.slots, pipe) < |s.slots|
  {
  }

  /** A recognised pipe unregisters without error, releasing exactly the tenant looked up and the
      first slot of the pipe. */
  lemma UnregisterSucceeds(s: State, pipe: int)
    requires Bijection(s) && pipe > 0
    ensures Unregister(s, pipe).1 ==
            match TenantOfPipe(s.slots, pipe) case None => UnknownPipe case Some(t) => Unregistered(t)
    ensures TenantOfPipe(s.slots, pipe).Some? ==>
              NumTenants(Unregister(s, pipe).0.tenants) == NumTenants(s.tenants) - 1
    ensures TenantOfPipe(s.slots, pipe).None? ==> Unregister(s, pipe).0 == s
    ensures TenantOfPipe(s.slots, pipe).Some? ==>
              var t := TenantOfPipe(s.slots, pipe).value;
              exists k :: 0 <= k < |s.slots| && s.slots[k] == Slot(Some(t), pipe)
                          && (forall i :: 0 <= i < k ==> s.slots[i].pipe != pipe)
                          && Unregister(s, pipe).0 == State(s.tenants[t := s.tenants[t].(isActive := false)],
                                                            s.slots[k := Slot(None, 0)])
    ensures Bijection(Unregister(s, pipe).0)
  {
    SameSlot(s, pipe);
    if TenantOfPipe(s.slots, pipe).Some? {
      var k := PipeSlot(s.slots, pipe);
      var t := s.slots[k].tenant.value;
      ReleaseKeepsBijection(s, k);
      ActiveUpdate(s.tenants, t, s.tenants[t].(isActive := false));
    }
  }

  lemma CheckKeepsBijection(s: State, t: nat, alive: set<int>)
    requires Bijection(s) && t < |s.tenants|
    ensures Bijection(Check(s, t, alive).0)
  {
    var k := TenantSlot(s.slots, t);
    if s.tenants[t].isActive && s.tenants[t].pid !in alive {
      ReleaseKeepsBijection(s, k);
    }
  }

  lemma StepKeepsBijection(s: State, e: Event)
    requires Bijection(s) && Connected(e)
    ensures Bijection(Step(s, e).0)
  {
    match e
    case Arrive(pipe, pid) => RegisterKeepsBijection(s, pipe, pid);
    case Leave(pipe) => UnregisterSucceeds(s, pipe);
    case Visit(t, alive) => if t < |s.tenants| { CheckKeepsBijection(s, t, alive); }
  }

  // ----- Whole runs -----

  function After(events: seq<Event>): (s: State)
    ensures Shaped(s)
  {
    if |events| == 0 then Initial() else Step(After(events[..|events| - 1]), events[|events| - 1]).0
  }

  ghost predicate AllConnected(events: seq<Event>) {
    forall i :: 0 <= i < |events| ==> Connected(events[i])
  }

  /** Under every interleaving of registrations, unregistrations and sweep iterations, the
      occupied slots and the active tenants stay in one-to-one correspondence. */
  lemma {:induction false} RunKeepsBijection(events: seq<Event>)
    requires AllConnected(events)
    ensures Bijection(After(events)) && |After(events).tenants| == 4 && |After(events).slots| == 512
  {
    if |events| == 0 {
      InitialBijection();
    } else {
      var n := |events| - 1;
      RunKeepsBijection(events[..n]);
      StepKeepsBijection(After(events[..n]), events[n]);
    }
  }

  /** Registration fails exactly when four tenants are active, and then changes nothing; otherwise
      a slot that was free now maps the pipe to a tenant that was inactive. */
  lemma RegisterExactly(s: State, pipe: int, pid: int)
    requires Bijection(s)
    ensures Register(s, pipe, pid).1 == Full <==> NumTenants(s.tenants) == 4
    ensures Register(s, pipe, pid).1 == Full ==> Register(s, pipe, pid).0 == s
    ensures Register(s, pipe, pid).1 != Full ==>
              var (s', out) := Register(s, pipe, pid);
              exists k :: 0 <= k < |s.slots| && s.slots[k].tenant == None && out.Registered?
                          && s' == State(s.tenants[out.tenant := Tenant(out.tenant, pid, true)],
                                         s.slots[k := Slot(Some(out.tenant), pipe)])
                          && !s.tenants[out.tenant].isActive
  {
    SlotAlwaysFree(s);
    var t := FreeTenant(s.tenants);
    if NumTenants(s.tenants) == MAX_TENANTS {
      CountFull(s.tenants, (t: Tenant) => t.isActive);
    } else {
      CountRoom(s.tenants, (t: Tenant) => t.isActive);
    }
  }

  /** What one step adds to the number of slots a pipe holds. */
  function Gain(e: Event, out: Outcome, pipe: int): int {
    match out
    case Registered(_) => if e.Arrive? && e.pipe == pipe then 1 else 0
    case Unregistered(_) => if e.Leave? && e.pipe == pipe then -1 else 0
    case Removed(p) => if p == pipe then -1 else 0
    case _ => 0
  }

  /** Accepted registrations minus accepted unregistrations minus sweep removals, over a run. */
  function Net(events: seq<Event>, pipe: int): int {
    if |events| == 0 then 0
    else
      var n := |events| - 1;
      Net(events[..n], pipe) + Gain(events[n], Step(After(events[..n]), events[n]).1, pipe)
  }

  lemma ArriveGains(s: State, e: Event, pipe: int)
    requires Bijection(s) && e.Arrive? && pipe > 0
    ensures Held(Step(s, e).0.slots, pipe) == Held(s.slots, pipe) + Gain(e, Step(s, e).1, pipe)
  {
    SlotAlwaysFree(s);
    HeldUpdate(s.slots, FreeSlot(s.slots), Slot(Some(FreeTenant(s.tenants)), e.pipe), pipe);
  }

  lemma LeaveGains(s: State, e: Event, pipe: int)
    requires Bijection(s) && e.Leave? && e.pipe > 0 && pipe > 0
    ensures Held(Step(s, e).0.slots, pipe) == Held(s.slots, pipe) + Gain(e, Step(s, e).1, pipe)
  {
    UnregisterSucceeds(s, e.pipe);
    SameSlot(s, e.pipe);
    if TenantOfPipe(s.slots, e.pipe).Some? {
      HeldUpdate(s.slots, PipeSlot(s.slots, e.pipe), EMPTY_SLOT, pipe);
    }
  }

  lemma VisitGains(s: State, e: Event, pipe: int)
    requires Bijection(s) && e.Visit? && pipe > 0
    ensures Held(Step(s, e).0.slots, pipe) == Held(s.slots, pipe) + Gain(e, Step(s, e).1, pipe)
  {
    if e.tenant < |s.tenants| && s.tenants[e.tenant].isActive {
      HeldUpdate(s.slots, TenantSlot(s.slots, e.tenant), EMPTY_SLOT, pipe);
    }
  }

  lemma StepGains(s: State, e: Event, pipe: int)
    requires Bijection(s) && Connected(e) && pipe > 0
    ensures Held(Step(s, e).0.slots, pipe) == Held(s.slots, pipe) + Gain(e, Step(s, e).1, pipe)
  {
    match e
    case Arrive(_, _) => ArriveGains(s, e, pipe);
    case Leave(_) => LeaveGains(s, e, pipe);
    case Visit(_, _) => VisitGains(s, e, pipe);
  }

  /** Per-pipe accounting over every run, also for a pipe that registers several times: the slots
      a pipe holds are its net registrations, and the dispatcher recognises it exactly when there
      are any. */
  lemma {:induction false} HoldsItsNetRegistrations(events: seq<Event>, pipe: int)
    requires AllConnected(events) && pipe > 0
    ensures Held(After(events).slots, pipe) == Net(events, pipe)
    ensures TenantOfPipe(After(events).slots, pipe).Some? <==> Net(events, pipe) > 0
  {
    if |events| == 0 {
      CountNone(Initial().slots, (sl: Slot) => sl.pipe == pipe);
    } else {
      var n := |events| - 1;
      var s := After(events[..n]);
      RunKeepsBijection(events[..n]);
      HoldsItsNetRegistrations(events[..n], pipe);
      StepGains(s, events[n], pipe);
    }
    RunKeepsBijection(events);
    RecognisedExactlyIfHeld(After(events), pipe);
  }

  /** A pipe is recognised exactly when it is connected and holds a slot; the slots of no pipe stand
      for no pipe. */
  lemma RecognisedExactlyIfHeld(s: State, pipe: int)
    requires Bijection(s)
    ensures TenantOfPipe(s.slots, pipe).Some? <==> pipe > 0 && Held(s.slots, pipe) > 0
  {
    if pipe > 0 {
      SameSlot(s, pipe);
      CountFirst(s.slots, (sl: Slot) => sl.pipe == pipe);
    }
  }

  // ----- The sweep -----

  function SweepTo(s: State, n: nat, alive: set<int>): (s': State)
    requires |s.tenants| == MAX_TENANTS && n <= MAX_TENANTS
    ensures |s'.tenants| == MAX_TENANTS
  {
    if n == 0 then s else Check(SweepTo(s, n - 1, alive), n - 1, alive).0
  }

  function Sweep(s: State, alive: set<int>): State
    requires |s.tenants| == MAX_TENANTS
  {
    SweepTo(s, MAX_TENANTS, alive)
  }

  predicate Lost(s: State, t: nat, alive: set<int>) {
    t < |s.tenants| && s.tenants[t].isActive && s.tenants[t].pid !in alive
  }

  /** `s'` is `s` with exactly the lost tenants below `n` and their slots released. */
  ghost predicate Purged(s: State, s': State, n: nat, alive: set<int>) {
    && |s'.tenants| == |s.tenants| && |s'.slots| == |s.slots|
    && (forall t :: 0 <= t < |s.tenants| ==>
          s'.tenants[t] == if t < n && Lost(s, t, alive) then s.tenants[t].(isActive := false) else s.tenants[t])
    && (forall k :: 0 <= k < |s.slots| ==>
          s'.slots[k] ==
          if s.slots[k].tenant.Some? && s.slots[k].tenant.value < n && Lost(s, s.slots[k].tenant.value, alive)
          then EMPTY_SLOT else s.slots[k])
  }

  lemma {:induction false} SweepPurges(s: State, n: nat, alive: set<int>)
    requires Bijection(s) && n <= MAX_TENANTS
    ensures Bijection(SweepTo(s, n, alive)) && Purged(s, SweepTo(s, n, alive), n, alive)
  {
    if n > 0 {
      SweepPurges(s, n - 1, alive);
      var m := SweepTo(s, n - 1, alive);
      CheckKeepsBijection(m, n - 1, alive);
      CheckPurges(s, m, n - 1, alive);
    }
  }

  lemma CheckPurges(s: State, m: State, t: nat, alive: set<int>)
    requires Bijection(s) && Bijection(m) && t < |s.tenants| && Purged(s, m, t, alive)
    ensures Purged(s, Check(m, t, alive).0, t + 1, alive)
  {
    if Lost(s, t, alive) {
      var k := TenantSlot(m.slots, t);
      assert m.slots[k].tenant == Some(t);
      assert s.slots[k].tenant == Some(t);
    }
  }

  /** One iteration of the sweep, told of the tenants and slots one by one. */
  lemma VisitReleases(s: State, t: nat, alive: set<int>)
    requires Bijection(s) && t < |s.tenants|
    ensures var s' := Step(s, Visit(t, alive)).0;
            && |s'.tenants| == |s.tenants| && |s'.slots| == |s.slots|
            && (forall u :: 0 <= u < |s.tenants| ==>
                  s'.tenants[u] == if u == t && s.tenants[t].pid !in alive
                                   then s.tenants[t].(isActive := false) else s.tenants[u])
            && (forall k :: 0 <= k < |s.slots| ==>
                  s'.slots[k] == if s.slots[k].tenant == Some(t) && s.tenants[t].pid !in alive
                                 then Slot(None, 0) else s.slots[k])
  {
  }

  /** After a full sweep every active tenant has a live process, tenants with live processes and
      their slots are untouched, and each released tenant has lost exactly its own slot. */
  lemma SweepReleasesExactlyTheLost(s: State, alive: set<int>)
    requires Bijection(s)
    ensures Bijection(Sweep(s, alive)) && Purged(s, Sweep(s, alive), MAX_TENANTS, alive)
    ensures forall t :: 0 <= t < MAX_TENANTS && Sweep(s, alive).tenants[t].isActive ==>
              s.tenants[t].isActive && Sweep(s, alive).tenants[t].pid in alive
  {
    SweepPurges(s, MAX_TENANTS, alive);
  }

  // ----- The scan for a lost tenant without a guard -----

  /** The loop of the source reads the tenant of every slot it passes: `None` when it meets an
      empty slot and dereferences NULL, otherwise where it stops. */
  function UnguardedScan(slots: seq<Slot>, t: nat): Option<nat>
  {
    if |slots| == 0 then Some(0)
    else if slots[0].tenant.None? then None
    else if slots[0].tenant == Some(t) then Some(0)
    else
      match UnguardedScan(slots[1..], t)
      case None => None
      case Some(k) => Some(k + 1)
  }

  /** The guarded scan stands for the source's exactly when no empty slot precedes the tenant's;
      otherwise the source dereferences NULL. */
  lemma {:induction false} GuardNeededExactly(slots: seq<Slot>, t: nat)
    requires TenantSlot(slots, t) < |slots|
    ensures UnguardedScan(slots, t) ==
            if TenantSlot(slots, t) < FreeSlot(slots) then Some(TenantSlot(slots, t)) else None
  {
    var rest := slots[1..];
    if slots[0].tenant.Some? && slots[0].tenant != Some(t) {
      var k, f := TenantSlot(slots, t), FreeSlot(slots);
      assert k > 0 && f > 0 && rest[k - 1] == slots[k];
      assert f < |slots| ==> rest[f - 1] == slots[f];
      assert TenantSlot(rest, t) == k - 1 && FreeSlot(rest) == f - 1;
      GuardNeededExactly(rest, t);
    }
  }

  /** That situation is ordinary: it arises whenever the pipe of an earlier slot unregisters. */
  lemma UnregisterExposesNull(s: State, pipe: int, t: nat)
    requires Bijection(s) && pipe > 0 && TenantOfPipe(s.slots, pipe).Some?
    requires t < MAX_TENANTS && PipeSlot(s.slots, pipe) < TenantSlot(s.slots, t) < |s.slots|
    ensures UnguardedScan(Unregister(s, pipe).0.slots, t) == None
  {
    SameSlot(s, pipe);
    UnregisterSucceeds(s, pipe);
    var k := PipeSlot(s.slots, pipe);
    var slots := s.slots[k := EMPTY_SLOT];
    assert slots[TenantSlot(s.slots, t)].tenant == Some(t);
    assert slots[k].tenant == None;
    GuardNeededExactly(slots, t);
  }

  lemma AfterOne(events: seq<Event>, e: Event)
    ensures After(events + [e]) == Step(After(events), e).0
  {
    assert (events + [e])[..|events|] == events;
  }

  /** Registering into a table whose first `t` tenants and slots are taken. */
  lemma RegisterNext(s: State, t: nat, pipe: int, pid: int)
    requires Shaped(s) && t < MAX_TENANTS && !s.tenants[t].isActive && s.slots[t].tenant == None
    requires forall i :: 0 <= i < t ==> s.tenants[i].isActive && s.slots[i].tenant.Some?
    ensures Register(s, pipe, pid) ==
            (State(s.tenants[t := Tenant(t, pid, true)], s.slots[t := Slot(Some(t), pipe)]), Registered(t))
  {
    assert FreeTenant(s.tenants) == t && FreeSlot(s.slots) == t;
  }

  /** A run that brings the daemon to the NULL dereference: two pipes register and the first one
      leaves; if the process behind the second is then found gone, the scan of the source for its
      tenant meets the empty slot first. */
  lemma NullIsReachable(first: int, second: int, pid: int, lost: int)
    requires first > 0 && second > 0 && first != second
    ensures var events := [Arrive(first, pid), Arrive(second, lost), Leave(first)];
            var s := After(events);
            && AllConnected(events) && s.tenants[1] == Tenant(1, lost, true)
            && UnguardedScan(s.slots, 1) == None
  {
    var e1, e2, e3 := Arrive(first, pid), Arrive(second, lost), Leave(first);
    assert [] + [e1] == [e1] && [e1] + [e2] == [e1, e2] && [e1, e2] + [e3] == [e1, e2, e3];
    AfterOne([], e1);
    AfterOne([e1], e2);
    AfterOne([e1, e2], e3);
    var s0 := Initial();
    RegisterNext(s0, 0, first, pid);
    var s1 := After([e1]);
    RegisterNext(s1, 1, second, lost);
    var s2 := After([e1, e2]);
    assert s2.slots[0] == Slot(Some(0), first) && s2.slots[1] == Slot(Some(1), second);
    assert LookupSlot(s2.slots, first) == 0 && PipeSlot(s2.slots, first) == 0;
  }

  // ----- The tables in place -----

  class Tables {
    const tenants: array<Tenant>
    const pipes: array<Slot>

    ghost function Abs(): State
      reads this, tenants, pipes
    {
      State(tenants[..], pipes[..])
    }

    ghost predicate Valid()
      reads this, tenants, pipes
    {
      Shaped(Abs())
    }

    constructor ()
      ensures Valid() && Abs() == Initial() && fresh(tenants) && fresh(pipes)
    {
      tenants := new Tenant[MAX_TENANTS](i => Tenant(if i >= 0 then i else 0, 0, false));
      pipes := new Slot[SUNNEED_MAX_IPC_CLIENTS](_ => EMPTY_SLOT);
      new;
      assert tenants[..] == Initial().tenants;
      assert pipes[..] == Initial().slots;
    }

    method TenantRegister(pid: int) returns (t: nat)
      requires Valid()
      modifies tenants
      ensures Valid()
      ensures t == FreeTenant(old(tenants[..]))
      ensures tenants[..] == if t == MAX_TENANTS then old(tenants[..])
                             else old(tenants[..])[t := Tenant(t, pid, true)]
    {
      t := 0;
      while t < MAX_TENANTS && tenants[t].isActive
        invariant 0 <= t <= MAX_TENANTS
        invariant forall i :: 0 <= i < t ==> tenants[i].isActive
      {
        t := t + 1;
      }
      if t < MAX_TENANTS {
        tenants[t] := tenants[t].(pid := pid, isActive := true);
      }
    }

    method TenantUnregister(t: nat) returns (ok: bool)
      requires Valid() && t < MAX_TENANTS
      modifies tenants
      ensures Valid()
      ensures ok <==> old(tenants[t].isActive)
      ensures tenants[..] == if ok then old(tenants[..])[t := old(tenants[t]).(isActive := false)]
                             else old(tenants[..])
    {
      ok := tenants[t].isActive;
      if ok {
        tenants[t] := tenants[t].(isActive := false);
      }
    }

    method RegisterClient(pipe: int, pid: int) returns (out: Outcome)
      requires Valid()
      modifies tenants, pipes
      ensures Valid()
      ensures (Abs(), out) == Register(old(Abs()), pipe, pid)
    {
      var t := TenantRegister(pid);
      if t == MAX_TENANTS {
        return Full;
      }
      var i := 0;
      while i < SUNNEED_MAX_IPC_CLIENTS && pipes[i].tenant != None
        invariant 0 <= i <= SUNNEED_MAX_IPC_CLIENTS
        invariant forall k :: 0 <= k < i ==> pipes[k].tenant != None
      {
        i := i + 1;
      }
      assert i == FreeSlot(pipes[..]);
      if i < SUNNEED_MAX_IPC_CLIENTS {
        pipes[i] := Slot(Some(t), pipe);
      }
      out := Registered(t);
    }

    method FindTenant(pipe: int) returns (t: Option<nat>)
      requires Valid()
      ensures t == TenantOfPipe(pipes[..], pipe)
    {
      var i := 0;
      while i < SUNNEED_MAX_IPC_CLIENTS
        invariant 0 <= i <= SUNNEED_MAX_IPC_CLIENTS
        invariant forall k :: 0 <= k < i ==> NngPipeId(pipes[k].pipe) != pipe
      {
        if NngPipeId(pipes[i].pipe) == pipe {
          return pipes[i].tenant;
        }
        i := i + 1;
      }
      t := None;
    }

    method UnregisterClient(pipe: int, t: nat) returns (out: Outcome)
      requires Valid() && t < MAX_TENANTS
      modifies tenants, pipes
      ensures Valid()
      ensures (Abs(), out) == ServeUnregister(old(Abs()), pipe, t)
    {
      var i := 0;
      while i < SUNNEED_MAX_IPC_CLIENTS && pipes[i].pipe != pipe
        invariant 0 <= i <= SUNNEED_MAX_IPC_CLIENTS
        invariant forall k :: 0 <= k < i ==> pipes[k].pipe != pipe
      {
        i := i + 1;
      }
      assert i == PipeSlot(pipes[..], pipe);
      if i == SUNNEED_MAX_IPC_CLIENTS {
        return Failed;
      }
      pipes[i] := EMPTY_SLOT;
      assert pipes[..] == old(pipes[..])[i := EMPTY_SLOT];
      var ok := TenantUnregister(t);
      out := if ok then Unregistered(t) else Failed;
    }

    /** Tenants are told apart by their `id` field here, and not by their place in the table. */
    method UnregisterLostTenant(t: nat) returns (out: Outcome)
      requires Valid() && t < MAX_TENANTS
      modifies tenants, pipes
      ensures Valid()
      ensures (Abs(), out) == Lose(old(Abs()), t)
    {
      var i := 0;
      while i < SUNNEED_MAX_IPC_CLIENTS
            && (pipes[i].tenant == None || tenants[pipes[i].tenant.value].id != tenants[t].id)
        invariant 0 <= i <= SUNNEED_MAX_IPC_CLIENTS
        invariant forall k :: 0 <= k < i ==> pipes[k].tenant != Some(t)
      {
        i := i + 1;
      }
      assert i == TenantSlot(pipes[..], t);
      if i == SUNNEED_MAX_IPC_CLIENTS {
        return Kept;
      }
      out := Removed(pipes[i].pipe);
      pipes[i] := EMPTY_SLOT;
      assert pipes[..] == old(pipes[..])[i := EMPTY_SLOT];
      var _ := TenantUnregister(t);
    }

    method GetNumTenants() returns (n: nat)
      requires Valid()
      ensures n == NumTenants(tenants[..])
    {
      n := 0;
      var i := 0;
      while i < MAX_TENANTS
        invariant 0 <= i <= MAX_TENANTS && n == NumTenants(tenants[..i])
      {
        assert tenants[..i + 1][..i] == tenants[..i];
        if tenants[i].isActive {
          n := n + 1;
        }
        i := i + 1;
      }
      assert tenants[..MAX_TENANTS] == tenants[..];
    }

    /** The monitor's sweep; `alive` are the processes that have a procfs entry. */
    method UpdateTenants(alive: set<int>)
      requires Valid()
      modifies tenants, pipes
      ensures Valid()
      ensures Abs() == Sweep(old(Abs()), alive)
    {
      var t := 0;
      while t < MAX_TENANTS
        invariant 0 <= t <= MAX_TENANTS && Valid()
        invariant Abs() == SweepTo(old(Abs()), t, alive)
      {
        if tenants[t].isActive && tenants[t].pid !in alive {
          var _ := UnregisterLostTenant(t);
        }
        t := t + 1;
      }
    }
  }
}
