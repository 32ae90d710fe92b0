/**
 The begin / record / end cycle of the quantum worker, and the heap list of events behind it.
 */
module QuantumEngine {
  import opened Scan
  import opened Registry
  import opened Power

  /** `alloc` tells whether `malloc` succeeds. */
  datatype Op = Begin(power: int, alloc: bool) | Record(ev: PowerEvent, alloc: bool) | End

  /** `events` is absent while the list has no head node, `shares` once a share is not a number. */
  datatype QState = QState(
    id: int, power: int, isActive: bool, hasPowerEvent: bool,
    events: Option<seq<PowerEvent>>, shares: Option<seq<real>>)

  predicate Shares(s: QState) {
    s.shares.Some? ==> |s.shares.value| == MAX_TENANTS
  }

  /** The events the accounting loop visits: none unless the flag is set. */
  function Charged(s: QState): seq<PowerEvent> {
    if s.hasPowerEvent && s.events.Some? then s.events.value else []
  }

  function BeginQuantum(s: QState, power: int, alloc: bool): (QState, bool) {
    (s.(id := s.id + 1, power := power, events := if alloc then Some([]) else None,
        isActive := s.isActive || alloc), alloc)
  }

  function RecordEvent(s: QState, ev: PowerEvent, alloc: bool): (QState, bool) {
    if !s.isActive || s.events.None? || !alloc then (s, false)
    else (s.(events := Some(s.events.value + [ev]), hasPowerEvent := true), true)
  }

  function EndQuantum(s: QState, cost: PowerEvent -> real): QState
    requires Shares(s)
  {
    s.(isActive := false,
       shares := if s.shares.None? then None
                 else Rescale(Totals(Charged(s), cost), s.shares.value, s.power))
  }

  function Next(s: QState, op: Op, cost: PowerEvent -> real): (t: QState)
    requires Shares(s)
    ensures Shares(t)
  {
    match op
    case Begin(power, alloc) => BeginQuantum(s, power, alloc).0
    case Record(ev, alloc) => RecordEvent(s, ev, alloc).0
    case End => EndQuantum(s, cost)
  }

  function Start(shares: seq<real>): QState {
    QState(-1, 0, false, false, None, Some(shares))
  }

  function After(shares: seq<real>, ops: seq<Op>, cost: PowerEvent -> real): (s: QState)
    requires |shares| == MAX_TENANTS
    ensures Shares(s)
  {
    if |ops| == 0 then Start(shares)
    else Next(After(shares, ops[..|ops| - 1], cost), ops[|ops| - 1], cost)
  }

  lemma AfterOne(shares: seq<real>, ops: seq<Op>, op: Op, cost: PowerEvent -> real)
    requires |shares| == MAX_TENANTS
    ensures After(shares, ops + [op], cost) == Next(After(shares, ops, cost), op, cost)
  {
    assert (ops + [op])[..|ops|] == ops;
  }

  // ----- What the list holds -----

  /** The events that could be allocated, in order. */
  function Allocated(ops: seq<Op>): seq<PowerEvent> {
    if |ops| == 0 then []
    else
      var op := ops[|ops| - 1];
      Allocated(ops[..|ops| - 1]) + if op.Record? && op.alloc then [op.ev] else []
  }

  function EndIndex(ops: seq<Op>): (k: nat)
    ensures k <= |ops|
    ensures k < |ops| ==> ops[k].End?
    ensures forall i :: 0 <= i < k ==> !ops[i].End?
  {
    First(ops, (op: Op) => op.End?)
  }

  ghost predicate NoBegin(ops: seq<Op>) {
    forall i :: 0 <= i < |ops| ==> !ops[i].Begin?
  }

  /**
   In every run, the list holds exactly the events recorded between the latest begin and the end
   that follows it, in order; and the quantum is active exactly until that end.
   */
  lemma {:induction false} ListHoldsQuantum(shares: seq<real>, pre: seq<Op>, power: int, post: seq<Op>,
                                            cost: PowerEvent -> real)
    requires |shares| == MAX_TENANTS && NoBegin(post)
    ensures var s := After(shares, pre + [Begin(power, true)] + post, cost);
            && s.events == Some(Allocated(post[..EndIndex(post)]))
            && (s.isActive <==> EndIndex(post) == |post|)
            && s.power == power
    decreases |post|
  {
    var start := pre + [Begin(power, true)];
    var n := |post|;
    if n == 0 {
      assert start + post == start;
      AfterOne(shares, pre, Begin(power, true), cost);
    } else {
      var init, op := post[..n - 1], post[n - 1];
      ListHoldsQuantum(shares, pre, power, init, cost);
      assert start + post == (start + init) + [op];
      AfterOne(shares, start + init, op, cost);
      EndExtends(post);
      StepInQuantum(After(shares, start + init, cost), op, cost);
    }
  }

  /** What a step other than a begin does to an allocated list. */
  lemma StepInQuantum(s: QState, op: Op, cost: PowerEvent -> real)
    requires Shares(s) && s.events.Some? && !op.Begin?
    ensures var t := Next(s, op, cost);
            && t.events == Some(s.events.value + if s.isActive && op.Record? && op.alloc then [op.ev] else [])
            && (t.isActive <==> s.isActive && !op.End?)
            && t.power == s.power
  {
    assert s.events.value + [] == s.events.value;
  }

  lemma EndExtends(ops: seq<Op>)
    requires |ops| > 0
    ensures var n := |ops| - 1;
            var k := EndIndex(ops[..n]);
            && EndIndex(ops) == (if k < n then k else if ops[n].End? then n else n + 1)
            && Allocated(ops[..EndIndex(ops)]) ==
               Allocated(ops[..n][..k]) +
               if k == n && ops[n].Record? && ops[n].alloc then [ops[n].ev] else []
  {
    var n := |ops| - 1;
    var k := EndIndex(ops[..n]);
    assert forall i :: 0 <= i < n ==> ops[..n][i] == ops[i];
    if k < n {
      assert ops[..n][..k] == ops[..k];
    } else {
      assert ops[..n][..k] == ops[..n];
      assert ops[..n + 1] == ops;
    }
  }

  /** Quanta are numbered from 0 in the order of their begins. */
  lemma {:induction false} NumbersQuanta(shares: seq<real>, ops: seq<Op>, cost: PowerEvent -> real)
    requires |shares| == MAX_TENANTS
    ensures After(shares, ops, cost).id == Count(ops, (op: Op) => op.Begin?) - 1
  {
    if |ops| > 0 {
      NumbersQuanta(shares, ops[..|ops| - 1], cost);
    }
  }

  /** In every run the accounting loop reaches the whole list: its early exit never skips an
      event, because a non-empty list implies the flag. */
  lemma {:induction false} NothingSkipped(shares: seq<real>, ops: seq<Op>, cost: PowerEvent -> real)
    requires |shares| == MAX_TENANTS
    ensures var s := After(shares, ops, cost);
            Charged(s) == if s.events.Some? then s.events.value else []
  {
    if |ops| > 0 {
      NothingSkipped(shares, ops[..|ops| - 1], cost);
    }
  }

  /** A begin that got its memory has happened, and neither a begin nor an end since. */
  ghost predicate InQuantum(ops: seq<Op>) {
    exists b :: 0 <= b < |ops| && OpenSince(ops, b)
  }

  ghost predicate OpenSince(ops: seq<Op>, b: nat)
    requires b < |ops|
  {
    ops[b].Begin? && ops[b].alloc && forall i :: b < i < |ops| ==> ops[i].Record?
  }

  lemma InQuantumExtends(ops: seq<Op>)
    requires |ops| > 0
    ensures var n := |ops| - 1;
            InQuantum(ops) <==> (ops[n].Begin? && ops[n].alloc) || (ops[n].Record? && InQuantum(ops[..n]))
  {
    var n := |ops| - 1;
    assert forall i :: 0 <= i < n ==> ops[..n][i] == ops[i];
    if ops[n].Begin? && ops[n].alloc {
      assert OpenSince(ops, n);
    }
    if ops[n].Record? && InQuantum(ops[..n]) {
      var b :| 0 <= b < n && OpenSince(ops[..n], b);
      assert OpenSince(ops, b);
    }
    if InQuantum(ops) {
      var b :| 0 <= b < |ops| && OpenSince(ops, b);
      assert b == n || (ops[n].Record? && OpenSince(ops[..n], b));
    }
  }

  lemma {:induction false} ListIsOpenExactly(shares: seq<real>, ops: seq<Op>, cost: PowerEvent -> real)
    requires |shares| == MAX_TENANTS
    ensures var s := After(shares, ops, cost); s.isActive && s.events.Some? <==> InQuantum(ops)
  {
    if |ops| > 0 {
      ListIsOpenExactly(shares, ops[..|ops| - 1], cost);
      InQuantumExtends(ops);
    }
  }

  /**
   After any run, a record is accepted exactly when its memory can be allocated and the latest
   begin, which there must be, got its memory and no end has followed it; a refused record changes
   nothing.  A begin that fails inside a quantum leaves the quantum active but without a list.
   */
  lemma RecordAcceptedExactly(shares: seq<real>, ops: seq<Op>, ev: PowerEvent, alloc: bool, cost: PowerEvent -> real)
    requires |shares| == MAX_TENANTS
    ensures var (t, ok) := RecordEvent(After(shares, ops, cost), ev, alloc);
            (ok <==> alloc && InQuantum(ops)) && (!ok ==> t == After(shares, ops, cost))
  {
    ListIsOpenExactly(shares, ops, cost);
  }

  /**
   After any run, a begin reports success exactly when it opens a quantum, and so exactly when a
   record with memory right after it is accepted.
   */
  lemma BeginReportsExactly(shares: seq<real>, ops: seq<Op>, power: int, alloc: bool, ev: PowerEvent,
                            cost: PowerEvent -> real)
    requires |shares| == MAX_TENANTS
    ensures var (s, ok) := BeginQuantum(After(shares, ops, cost), power, alloc);
            && s == After(shares, ops + [Begin(power, alloc)], cost)
            && (ok <==> InQuantum(ops + [Begin(power, alloc)]))
            && (ok <==> RecordEvent(s, ev, true).1)
  {
    var more := ops + [Begin(power, alloc)];
    AfterOne(shares, ops, Begin(power, alloc), cost);
    InQuantumExtends(more);
    RecordAcceptedExactly(shares, more, ev, true, cost);
  }

  /** A begin that got its memory has happened, and no end since. */
  ghost predicate Active(ops: seq<Op>) {
    exists b :: 0 <= b < |ops| && ActiveSince(ops, b)
  }

  ghost predicate ActiveSince(ops: seq<Op>, b: nat)
    requires b < |ops|
  {
    ops[b].Begin? && ops[b].alloc && forall i :: b < i < |ops| ==> !ops[i].End?
  }

  lemma ActiveExtends(ops: seq<Op>)
    requires |ops| > 0
    ensures var n := |ops| - 1;
            Active(ops) <==> (ops[n].Begin? && ops[n].alloc) || (!ops[n].End? && Active(ops[..n]))
  {
    var n := |ops| - 1;
    assert forall i :: 0 <= i < n ==> ops[..n][i] == ops[i];
    if ops[n].Begin? && ops[n].alloc {
      assert ActiveSince(ops, n);
    }
    if !ops[n].End? && Active(ops[..n]) {
      var b :| 0 <= b < n && ActiveSince(ops[..n], b);
      assert ActiveSince(ops, b);
    }
    if Active(ops) {
      var b :| 0 <= b < |ops| && ActiveSince(ops, b);
      assert b == n || (!ops[n].End? && ActiveSince(ops[..n], b));
    }
  }

  /** The quantum is active exactly when some begin that got its memory has had no end since: a
      begin that fails does not close the quantum it fails in. */
  lemma {:induction false} ActiveExactly(shares: seq<real>, ops: seq<Op>, cost: PowerEvent -> real)
    requires |shares| == MAX_TENANTS
    ensures After(shares, ops, cost).isActive <==> Active(ops)
  {
    if |ops| > 0 {
      ActiveExactly(shares, ops[..|ops| - 1], cost);
      ActiveExtends(ops);
    }
  }

  /** The `i`-th operation is a record that is accepted. */
  ghost predicate AcceptedAt(ops: seq<Op>, i: nat) {
    i < |ops| && ops[i].Record? && ops[i].alloc && InQuantum(ops[..i])
  }

  /** Some record from the `b`-th operation on is accepted. */
  ghost predicate RecordedFrom(ops: seq<Op>, b: nat) {
    exists i :: b <= i < |ops| && AcceptedAt(ops, i)
  }

  /** What is accepted depends only on what came before. */
  lemma AcceptedBefore(ops: seq<Op>, n: nat, i: nat)
    requires i < n <= |ops|
    ensures AcceptedAt(ops[..n], i) <==> AcceptedAt(ops, i)
  {
    assert ops[..n][..i] == ops[..i];
  }

  lemma RecordedSplits(ops: seq<Op>, n: nat)
    requires n <= |ops|
    ensures RecordedFrom(ops, 0) <==> RecordedFrom(ops[..n], 0) || RecordedFrom(ops, n)
  {
    forall i: nat | i < n ensures AcceptedAt(ops[..n], i) <==> AcceptedAt(ops, i) {
      AcceptedBefore(ops, n, i);
    }
  }

  /** The flag is never cleared: it is set exactly when some record of the whole run was accepted. */
  lemma {:induction false} FlagIsNeverCleared(shares: seq<real>, ops: seq<Op>, cost: PowerEvent -> real)
    requires |shares| == MAX_TENANTS
    ensures After(shares, ops, cost).hasPowerEvent <==> RecordedFrom(ops, 0)
  {
    if |ops| > 0 {
      var n := |ops| - 1;
      FlagIsNeverCleared(shares, ops[..n], cost);
      ListIsOpenExactly(shares, ops[..n], cost);
      RecordedSplits(ops, n);
      assert RecordedFrom(ops, n) <==> AcceptedAt(ops, n);
    }
  }

  /**
   When the flag says what its description says: with the latest begin at place `b`, the flag means
   that a record was accepted since that begin if and only if none was accepted before it or one
   was after it.
   */
  lemma FlagDescribesQuantumExactly(shares: seq<real>, ops: seq<Op>, b: nat, cost: PowerEvent -> real)
    requires |shares| == MAX_TENANTS && b < |ops| && ops[b].Begin? && NoBegin(ops[b + 1..])
    ensures (After(shares, ops, cost).hasPowerEvent <==> RecordedFrom(ops, b)) <==>
            !RecordedFrom(ops[..b], 0) || RecordedFrom(ops, b)
  {
    FlagIsNeverCleared(shares, ops, cost);
    RecordedSplits(ops, b);
  }

  /** A quantum that begins after one with an accepted record: the list is empty, nothing has been
      recorded in the quantum, and the flag is set. */
  lemma FlagOutlivesQuantum(shares: seq<real>, p: int, q: int, ev: PowerEvent, cost: PowerEvent -> real)
    requires |shares| == MAX_TENANTS
    ensures var s := After(shares, [Begin(p, true), Record(ev, true), End, Begin(q, true)], cost);
            s.isActive && s.events == Some([]) && s.hasPowerEvent
  {
    AfterFour(shares, Begin(p, true), Record(ev, true), End, Begin(q, true), cost);
  }

  lemma AfterFour(shares: seq<real>, a: Op, b: Op, c: Op, d: Op, cost: PowerEvent -> real)
    requires |shares| == MAX_TENANTS
    ensures After(shares, [a, b, c, d], cost) ==
            Next(Next(Next(Next(Start(shares), a, cost), b, cost), c, cost), d, cost)
  {
    AfterOne(shares, [], a, cost);
    AfterOne(shares, [a], b, cost);
    AfterOne(shares, [a, b], c, cost);
    AfterOne(shares, [a, b, c], d, cost);
    assert [] + [a] == [a] && [a] + [b] == [a, b] && [a, b] + [c] == [a, b, c] && [a, b, c] + [d] == [a, b, c, d];
  }

  /** The accounting loop of the source enters the list at its sentinel, whose payload was never
      set: it reads the payload when there is a sentinel and the flag is set. */
  predicate ReadsSentinel(s: QState) {
    s.events.Some? && s.hasPowerEvent
  }

  /** The latest begin of the run got its memory. */
  ghost predicate ListAllocated(ops: seq<Op>) {
    |ops| > 0 && if ops[|ops| - 1].Begin? then ops[|ops| - 1].alloc else ListAllocated(ops[..|ops| - 1])
  }

  lemma {:induction false} ListAllocatedExactly(shares: seq<real>, ops: seq<Op>, cost: PowerEvent -> real)
    requires |shares| == MAX_TENANTS
    ensures After(shares, ops, cost).events.Some? <==> ListAllocated(ops)
  {
    if |ops| > 0 {
      ListAllocatedExactly(shares, ops[..|ops| - 1], cost);
    }
  }

  /** After any run, an end reads the sentinel exactly when the latest begin got its memory and some
      record of the run was accepted. */
  lemma SentinelReadExactly(shares: seq<real>, ops: seq<Op>, cost: PowerEvent -> real)
    requires |shares| == MAX_TENANTS
    ensures ReadsSentinel(After(shares, ops, cost)) <==> ListAllocated(ops) && RecordedFrom(ops, 0)
  {
    ListAllocatedExactly(shares, ops, cost);
    FlagIsNeverCleared(shares, ops, cost);
  }

  // ----- The worker loop -----

  /** One turn of the worker: begin, whatever is recorded meanwhile, end. */
  datatype Turn = Turn(power: int, alloc: bool, records: seq<Op>)

  predicate OnlyRecords(ops: seq<Op>) {
    forall i :: 0 <= i < |ops| ==> ops[i].Record?
  }

  ghost predicate Recorded(turns: seq<Turn>) {
    forall i :: 0 <= i < |turns| ==> OnlyRecords(turns[i].records)
  }

  predicate Stopped(turns: seq<Turn>) {
    exists i :: 0 <= i < |turns| && !turns[i].alloc
  }

  function TurnOps(t: Turn): seq<Op> {
    if t.alloc then [Begin(t.power, true)] + t.records + [End] else [Begin(t.power, false)] + t.records
  }

  /** The operations of the worker, and whether it is still running: it stops at the first begin that
      reports a failure. */
  function Worker(shares: seq<real>, turns: seq<Turn>, cost: PowerEvent -> real): (seq<Op>, bool)
    requires |shares| == MAX_TENANTS
  {
    if |turns| == 0 then ([], true)
    else
      var (ops, running) := Worker(shares, turns[..|turns| - 1], cost);
      var t := turns[|turns| - 1];
      if !running then (ops, false)
      else
        var begun := ops + [Begin(t.power, t.alloc)] + t.records;
        if BeginQuantum(After(shares, ops, cost), t.power, t.alloc).1 then (begun + [End], true)
        else (begun, false)
  }

  /** One more turn of the worker. */
  lemma WorkerTurn(shares: seq<real>, turns: seq<Turn>, cost: PowerEvent -> real)
    requires |shares| == MAX_TENANTS && |turns| > 0
    ensures var (ops, running) := Worker(shares, turns[..|turns| - 1], cost);
            var t := turns[|turns| - 1];
            Worker(shares, turns, cost) == if running then (ops + TurnOps(t), t.alloc) else (ops, false)
  {
    TurnJoins(Worker(shares, turns[..|turns| - 1], cost).0, turns[|turns| - 1]);
  }

  lemma TurnJoins(ops: seq<Op>, t: Turn)
    ensures ops + TurnOps(t) == ops + [Begin(t.power, t.alloc)] + t.records + if t.alloc then [End] else []
    ensures !t.alloc ==> ops + TurnOps(t) == ops + [Begin(t.power, t.alloc)] + t.records
  {
  }

  /** The worker is running exactly as long as memory was there at the beginning of every turn. */
  lemma {:induction false} WorkerRunsExactly(shares: seq<real>, turns: seq<Turn>, cost: PowerEvent -> real)
    requires |shares| == MAX_TENANTS
    ensures Worker(shares, turns, cost).1 <==> !Stopped(turns)
  {
    if |turns| > 0 {
      WorkerRunsExactly(shares, turns[..|turns| - 1], cost);
      WorkerTurn(shares, turns, cost);
      StoppedExtends(turns);
    }
  }

  lemma StoppedExtends(turns: seq<Turn>)
    requires |turns| > 0
    ensures Stopped(turns) <==> Stopped(turns[..|turns| - 1]) || !turns[|turns| - 1].alloc
  {
    var init := turns[..|turns| - 1];
    assert forall i :: 0 <= i < |init| ==> init[i] == turns[i];
  }

  /** The quanta that the worker completes. */
  function QuantaOf(turns: seq<Turn>): seq<Quantum> {
    if |turns| == 0 then []
    else
      var init, t := turns[..|turns| - 1], turns[|turns| - 1];
      QuantaOf(init) + if Stopped(init) then [] else QuantumOf(t)
  }

  /** Only an end changes the shares. */
  lemma {:induction false} SharesUntouched(shares: seq<real>, pre: seq<Op>, ops: seq<Op>, cost: PowerEvent -> real)
    requires |shares| == MAX_TENANTS && forall i :: 0 <= i < |ops| ==> !ops[i].End?
    ensures After(shares, pre + ops, cost).shares == After(shares, pre, cost).shares
    decreases |ops|
  {
    if |ops| == 0 {
      assert pre + ops == pre;
    } else {
      var n := |ops| - 1;
      SharesUntouched(shares, pre, ops[..n], cost);
      assert pre + ops == (pre + ops[..n]) + [ops[n]];
      AfterOne(shares, pre + ops[..n], ops[n], cost);
    }
  }

  /** Before the end of a turn, the events to be charged are those recorded in it. */
  lemma MidTurn(shares: seq<real>, pre: seq<Op>, t: Turn, cost: PowerEvent -> real)
    requires |shares| == MAX_TENANTS && OnlyRecords(t.records)
    ensures var s := After(shares, pre + [Begin(t.power, true)] + t.records, cost);
            Charged(s) == Allocated(t.records) && s.power == t.power
  {
    ListHoldsQuantum(shares, pre, t.power, t.records, cost);
    assert t.records[..EndIndex(t.records)] == t.records;
    NothingSkipped(shares, pre + [Begin(t.power, true)] + t.records, cost);
  }

  lemma MidShares(shares: seq<real>, pre: seq<Op>, t: Turn, cost: PowerEvent -> real)
    requires |shares| == MAX_TENANTS && OnlyRecords(t.records)
    ensures After(shares, pre + [Begin(t.power, true)] + t.records, cost).shares == After(shares, pre, cost).shares
  {
    assert pre + [Begin(t.power, true)] + t.records == pre + ([Begin(t.power, true)] + t.records);
    SharesUntouched(shares, pre, [Begin(t.power, true)] + t.records, cost);
  }

  /** The shares after a quantum with these events, if they were numbers before. */
  function Settled(before: Option<seq<real>>, evs: seq<PowerEvent>, power: int,
                   cost: PowerEvent -> real): Option<seq<real>>
    requires before.Some? ==> |before.value| == MAX_TENANTS
  {
    if before.None? then None else Rescale(Totals(evs, cost), before.value, power)
  }

  /** An end settles what is charged in the state before it. */
  lemma EndSettles(shares: seq<real>, mid: seq<Op>, evs: seq<PowerEvent>, power: int, before: Option<seq<real>>,
                   cost: PowerEvent -> real)
    requires |shares| == MAX_TENANTS && Charged(After(shares, mid, cost)) == evs
    requires After(shares, mid, cost).power == power && After(shares, mid, cost).shares == before
    ensures After(shares, mid + [End], cost).shares == Settled(before, evs, power, cost)
  {
    AfterOne(shares, mid, End, cost);
  }

  /** The power in force is the one measured at the latest begin, whether or not that begin failed. */
  lemma {:induction false} PowerIsLatest(shares: seq<real>, ops: seq<Op>, b: nat, cost: PowerEvent -> real)
    requires |shares| == MAX_TENANTS && b < |ops| && ops[b].Begin? && NoBegin(ops[b + 1..])
    ensures After(shares, ops, cost).power == ops[b].power
    decreases |ops|
  {
    var n := |ops| - 1;
    if b < n {
      assert ops[b + 1..] == ops[..n][b + 1..] + [ops[n]];
      assert !ops[b + 1..][n - b - 1].Begin?;
      assert ops[..n][b] == ops[b];
      PowerIsLatest(shares, ops[..n], b, cost);
    }
  }

  lemma {:induction false} NoPowerBeforeBegin(shares: seq<real>, ops: seq<Op>, cost: PowerEvent -> real)
    requires |shares| == MAX_TENANTS && NoBegin(ops)
    ensures After(shares, ops, cost).power == 0
  {
    if |ops| > 0 {
      NoPowerBeforeBegin(shares, ops[..|ops| - 1], cost);
    }
  }

  /** An end before any begin divides by a power of 0, so that no share is a number any more. */
  lemma EndBeforeBeginBreaks(shares: seq<real>, ops: seq<Op>, cost: PowerEvent -> real)
    requires |shares| == MAX_TENANTS && NoBegin(ops)
    ensures After(shares, ops + [End], cost).shares == None
  {
    NoPowerBeforeBegin(shares, ops, cost);
    AfterOne(shares, ops, End, cost);
    var s := After(shares, ops, cost);
    if s.shares.Some? {
      DivisibleExactly(s.shares.value, 0);
    }
  }

  lemma {:induction false} UnallocatedSince(ops: seq<Op>, b: nat)
    requires b < |ops| && ops[b].Begin? && NoBegin(ops[b + 1..])
    ensures ListAllocated(ops) <==> ops[b].alloc
    decreases |ops|
  {
    var n := |ops| - 1;
    if b < n {
      assert ops[b + 1..] == ops[..n][b + 1..] + [ops[n]];
      assert !ops[b + 1..][n - b - 1].Begin?;
      assert ops[..n][b] == ops[b];
      UnallocatedSince(ops[..n], b);
    }
  }

  /** What is charged after any run: with a begin that got its memory, the events recorded before the
      end that follows it; without memory, none. */
  lemma ChargesLatestQuantum(shares: seq<real>, pre: seq<Op>, power: int, alloc: bool, post: seq<Op>,
                             cost: PowerEvent -> real)
    requires |shares| == MAX_TENANTS && NoBegin(post)
    ensures var s := After(shares, pre + [Begin(power, alloc)] + post, cost);
            s.power == power && Charged(s) == if alloc then Allocated(post[..EndIndex(post)]) else []
  {
    var ops := pre + [Begin(power, alloc)] + post;
    assert ops[|pre|] == Begin(power, alloc) && ops[|pre| + 1..] == post;
    PowerIsLatest(shares, ops, |pre|, cost);
    UnallocatedSince(ops, |pre|);
    ListAllocatedExactly(shares, ops, cost);
    NothingSkipped(shares, ops, cost);
    if alloc {
      ListHoldsQuantum(shares, pre, power, post, cost);
    }
  }

  /** An end, after any run and even when one has already been, settles the events of the latest
      quantum against the power measured at its begin. */
  lemma EndSettlesLatestQuantum(shares: seq<real>, pre: seq<Op>, power: int, alloc: bool, post: seq<Op>,
                                cost: PowerEvent -> real)
    requires |shares| == MAX_TENANTS && NoBegin(post)
    ensures var ops := pre + [Begin(power, alloc)] + post;
            var evs := if alloc then Allocated(post[..EndIndex(post)]) else [];
            After(shares, ops + [End], cost).shares == Settled(After(shares, ops, cost).shares, evs, power, cost)
  {
    var ops := pre + [Begin(power, alloc)] + post;
    ChargesLatestQuantum(shares, pre, power, alloc, post, cost);
    EndSettles(shares, ops, if alloc then Allocated(post[..EndIndex(post)]) else [], power,
               After(shares, ops, cost).shares, cost);
  }

  lemma TurnEnds(pre: seq<Op>, t: Turn)
    requires t.alloc
    ensures pre + TurnOps(t) == (pre + [Begin(t.power, true)] + t.records) + [End]
  {
  }

  lemma TurnCharges(shares: seq<real>, pre: seq<Op>, t: Turn, cost: PowerEvent -> real)
    requires |shares| == MAX_TENANTS && OnlyRecords(t.records) && t.alloc
    ensures After(shares, pre + TurnOps(t), cost).shares ==
            Settled(After(shares, pre, cost).shares, Allocated(t.records), t.power, cost)
  {
    MidTurn(shares, pre, t, cost);
    MidShares(shares, pre, t, cost);
    TurnEnds(pre, t);
    EndSettles(shares, pre + [Begin(t.power, true)] + t.records, Allocated(t.records), t.power,
               After(shares, pre, cost).shares, cost);
  }

  lemma QuantaSettle(shares: seq<real>, quanta: seq<Quantum>, q: Quantum, cost: PowerEvent -> real)
    requires |shares| == MAX_TENANTS
    ensures SharesAfter(shares, quanta + [q], cost) == Settled(SharesAfter(shares, quanta, cost), q.evs, q.power, cost)
  {
    assert (quanta + [q])[..|quanta|] == quanta;
  }

  /** The worker refines the plain run of quanta: each completed turn charges exactly what was
      recorded in it, and a begin that fails stops the worker and leaves the shares for good. */
  lemma {:induction false} WorkerRefinesQuanta(shares: seq<real>, turns: seq<Turn>, cost: PowerEvent -> real)
    requires |shares| == MAX_TENANTS && Recorded(turns)
    ensures After(shares, Worker(shares, turns, cost).0, cost).shares == SharesAfter(shares, QuantaOf(turns), cost)
  {
    if |turns| > 0 {
      var init, t := turns[..|turns| - 1], turns[|turns| - 1];
      WorkerRefinesQuanta(shares, init, cost);
      WorkerTurn(shares, turns, cost);
      WorkerRunsExactly(shares, init, cost);
      if Stopped(init) {
        assert QuantaOf(turns) == QuantaOf(init);
      } else {
        TurnRefines(shares, Worker(shares, init, cost).0, QuantaOf(init), t, cost);
      }
    }
  }

  function QuantumOf(t: Turn): seq<Quantum> {
    if t.alloc then [Quantum(t.power, Allocated(t.records))] else []
  }

  lemma TurnRefines(shares: seq<real>, pre: seq<Op>, quanta: seq<Quantum>, t: Turn, cost: PowerEvent -> real)
    requires |shares| == MAX_TENANTS && OnlyRecords(t.records)
    requires After(shares, pre, cost).shares == SharesAfter(shares, quanta, cost)
    ensures After(shares, pre + TurnOps(t), cost).shares == SharesAfter(shares, quanta + QuantumOf(t), cost)
  {
    if t.alloc {
      TurnCharges(shares, pre, t, cost);
      QuantaSettle(shares, quanta, Quantum(t.power, Allocated(t.records)), cost);
    } else {
      assert quanta + QuantumOf(t) == quanta;
      SharesUntouched(shares, pre, TurnOps(t), cost);
    }
  }

  /** While every tenant stays within budget, the worker keeps all shares positive and adding up
      to exactly 1. */
  lemma WorkerStaysFair(shares: seq<real>, turns: seq<Turn>, cost: PowerEvent -> real)
    requires Fair(shares) && Thrifty(shares, QuantaOf(turns), cost) && Recorded(turns)
    ensures var s := After(shares, Worker(shares, turns, cost).0, cost); s.shares.Some? && Fair(s.shares.value)
  {
    WorkerRefinesQuanta(shares, turns, cost);
    FairForever(shares, QuantaOf(turns), cost);
  }

  lemma {:induction false} CompletesExactly(turns: seq<Turn>)
    ensures QuantaOf(turns) == [] <==> |turns| == 0 || !turns[0].alloc
  {
    var n := |turns| - 1;
    if n > 0 {
      CompletesExactly(turns[..n]);
      assert !turns[0].alloc ==> Stopped(turns[..n]);
    }
  }

  /** Tenants start with a share of 0.0.  From there the worker has shares that are not numbers,
      whatever is recorded and whatever it costs, exactly once its first turn is complete. */
  lemma InitialSharesBreakExactly(turns: seq<Turn>, cost: PowerEvent -> real)
    requires Recorded(turns)
    ensures var zero := [0.0, 0.0, 0.0, 0.0];
            After(zero, Worker(zero, turns, cost).0, cost).shares == None <==> |turns| > 0 && turns[0].alloc
  {
    WorkerRefinesQuanta([0.0, 0.0, 0.0, 0.0], turns, cost);
    CompletesExactly(turns);
    if QuantaOf(turns) != [] {
      ZeroSharesBreak([0.0, 0.0, 0.0, 0.0], QuantaOf(turns), cost);
    }
  }

  lemma ZeroSharesBreak(shares: seq<real>, quanta: seq<Quantum>, cost: PowerEvent -> real)
    requires |shares| == MAX_TENANTS && shares[0] == 0.0 && |quanta| > 0
    ensures SharesAfter(shares, quanta, cost) == None
  {
    if SharesAfter(shares, quanta, cost).Some? {
      NumbersNeedSharesAndPower(shares, quanta, cost);
    }
  }

  lemma TotalOfOne(evs: seq<PowerEvent>, i: nat, cost: PowerEvent -> real)
    requires i < |evs|
    ensures forall t: nat :: TotalOf(evs[..i + 1], t, cost) ==
                             TotalOf(evs[..i], t, cost) + if evs[i].tenant == t then cost(evs[i]) else 0.0
  {
    assert evs[..i + 1][..i] == evs[..i];
  }

  // ----- The engine in place -----

  class Node {
    var ev: PowerEvent
    var next: Node?

    constructor (ev: PowerEvent, next: Node?)
      ensures this.ev == ev && this.next == next
    {
      this.ev := ev;
      this.next := next;
    }
  }

  ghost function NodeAt(nodes: seq<Node>, i: nat): Node? {
    if i < |nodes| then nodes[i] else null
  }

  /** `nodes` is the list starting at `head`, without repetition, and `events` are the payloads
      of the nodes behind the sentinel. */
  ghost predicate Chain(head: Node?, nodes: seq<Node>, events: seq<PowerEvent>)
    reads nodes
  {
    && head == NodeAt(nodes, 0)
    && (forall i {:trigger nodes[i].next} :: 0 <= i < |nodes| ==> nodes[i].next == NodeAt(nodes, i + 1))
    && (forall i, j :: 0 <= i < j < |nodes| ==> nodes[i] != nodes[j])
    && (|nodes| > 0 ==> |nodes| == |events| + 1)
    && (forall i :: 0 <= i < |events| && i + 1 < |nodes| ==> nodes[i + 1].ev == events[i])
    && Owned(events)
  }

  /** A list with nothing but a sentinel, whose payload is not meant to be read. */
  method NewList() returns (sentinel: Node)
    ensures fresh(sentinel) && Chain(sentinel, [sentinel], [])
  {
    sentinel := new Node(PowerEvent(0, None), null);
  }

  /** A copy of the event on the heap, attached to the last node.  The copy takes over the `next`
      of the caller's record, so the list is extended by one node exactly when that is NULL. */
  method LinkBehind(head: Node, tail: Node, ev: PowerEvent, next: Node?,
                    ghost nodes: seq<Node>, ghost events: seq<PowerEvent>)
    returns (node: Node)
    requires Chain(head, nodes, events) && |nodes| > 0 && tail == nodes[|nodes| - 1] && ev.tenant < MAX_TENANTS
    modifies tail`next
    ensures fresh(node) && tail.next == node
    ensures Chain(head, nodes + [node], events + [ev]) <==> next == null
  {
    node := new Node(ev, next);
    ghost var last := |nodes| - 1;
    assert forall i :: 0 <= i < last ==> nodes[i] != tail && nodes[i].next == nodes[i + 1];
    tail.next := node;
    ghost var longer := nodes + [node];
    assert forall i :: 0 <= i < last ==> longer[i].next == longer[i + 1];
    assert longer[last].next == node == longer[last + 1];
    assert longer[last + 1].next == next;
  }

  class Engine {
    var id: int
    var power: int
    var isActive: bool
    var hasPowerEvent: bool
    /** A sentinel; the events are in the nodes after it. */
    var head: Node?
    const shares: array<real>
    /** False once a share is not a number. */
    var numeric: bool
    /** The list from its head on. */
    ghost var nodes: seq<Node>
    ghost var events: seq<PowerEvent>

    ghost predicate Valid()
      reads this, nodes, shares
    {
      shares.Length == MAX_TENANTS && Chain(head, nodes, events)
    }

    ghost function Abs(): QState
      reads this, nodes, shares
    {
      QState(id, power, isActive, hasPowerEvent, if |nodes| == 0 then None else Some(events),
             Numbers())
    }

    /** The shares, while all of them are numbers. */
    ghost function Numbers(): Option<seq<real>>
      reads this`numeric, shares
    {
      if numeric then Some(shares[..]) else None
    }

    constructor (initial: seq<real>)
      requires |initial| == MAX_TENANTS
      ensures Valid() && Abs() == Start(initial) && fresh(shares)
    {
      id, power, isActive, hasPowerEvent := -1, 0, false, false;
      head, numeric, nodes, events := null, true, [], [];
      shares := new real[MAX_TENANTS](i requires 0 <= i < |initial| => initial[i]);
      new;
      assert shares[..] == initial;
    }

    /** Walks the list, freeing each node exactly once and reading none after it is freed. */
    method FreeList() returns (ghost freed: seq<Node>)
      requires Valid()
      ensures freed == nodes
    {
      var cur := head;
      freed := [];
      while cur != null
        invariant |freed| <= |nodes| && freed == nodes[..|freed|]
        invariant cur == NodeAt(nodes, |freed|)
        decreases |nodes| - |freed|
      {
        var next := cur.next;
        freed := freed + [cur];
        cur := next;
      }
    }

    /** Frees the old list and starts a new one. */
    method Begin(present: int, alloc: bool) returns (ok: bool, ghost freed: seq<Node>)
      requires Valid()
      modifies this
      ensures Valid()
      ensures (Abs(), ok) == BeginQuantum(old(Abs()), present, alloc)
      ensures freed == old(nodes) && fresh(nodes)
    {
      freed := FreeList();
      id := id + 1;
      power := present;
      if !alloc {
        head, nodes, events := null, [], [];
        return false, freed;
      }
      isActive := true;
      var sentinel := NewList();
      head, nodes, events := sentinel, [sentinel], [];
      ok := true;
    }

    method FindTail() returns (cur: Node)
      requires Valid() && head != null
      ensures |nodes| > 0 && cur == nodes[|nodes| - 1]
    {
      cur := head;
      ghost var i := 0;
      while cur.next != null
        invariant 0 <= i < |nodes| && cur == nodes[i]
        decreases |nodes| - i
      {
        cur := cur.next;
        i := i + 1;
      }
    }

    method Attach(ev: PowerEvent, next: Node?, tail: Node)
      requires Valid() && |nodes| > 0 && tail == nodes[|nodes| - 1] && ev.tenant < MAX_TENANTS
      modifies this`nodes, this`events, tail`next
      ensures Valid() <==> next == null
      ensures |nodes| > 0 && events == old(events) + [ev]
    {
      ghost var ns, es := nodes, events;
      var node := LinkBehind(head, tail, ev, next, ns, es);
      nodes, events := ns + [node], es + [ev];
    }

    /** Appends the event behind the last node.  An accepted record that arrives with another
        `next` than NULL spoils the list. */
    method Record(ev: PowerEvent, next: Node?, alloc: bool) returns (ok: bool)
      requires Valid() && ev.tenant < MAX_TENANTS
      modifies this, nodes
      ensures (Abs(), ok) == RecordEvent(old(Abs()), ev, alloc)
      ensures Valid() <==> !ok || next == null
    {
      if !isActive || head == null {
        return false;
      }
      var tail := FindTail();
      if !alloc {
        return false;
      }
      Attach(ev, next, tail);
      hasPowerEvent := true;
      ok := true;
    }

    /** Charges the events to their tenants, by walking the list behind the sentinel. */
    method Charge(cost: PowerEvent -> real) returns (consumed: array<real>)
      requires Valid()
      ensures fresh(consumed)
      ensures consumed[..] == Totals(if hasPowerEvent && |nodes| > 0 then events else [], cost)
    {
      consumed := new real[MAX_TENANTS](_ => 0.0);
      if !hasPowerEvent || head == null {
        assert consumed[..] == Totals([], cost);
        return;
      }
      var cur := head.next;
      ghost var i := 0;
      while cur != null
        invariant 0 <= i <= |events|
        invariant cur == NodeAt(nodes, i + 1)
        invariant forall t :: 0 <= t < MAX_TENANTS ==> consumed[t] == TotalOf(events[..i], t, cost)
        decreases |events| - i
        modifies consumed
      {
        assert cur.ev == events[i];
        TotalOfOne(events, i, cost);
        consumed[cur.ev.tenant] := consumed[cur.ev.tenant] + cost(cur.ev);
        cur := cur.next;
        i := i + 1;
      }
      assert events[..|events|] == events;
    }

    /** Ends the quantum: charges its events and rescales the shares.  Where the source would
        divide by zero, `numeric` is cleared instead and the shares are left alone. */
    method End(cost: PowerEvent -> real)
      requires Valid()
      modifies this`isActive, this`numeric, shares
      ensures Valid()
      ensures Abs() == EndQuantum(old(Abs()), cost)
    {
      isActive := false;
      var consumed := Charge(cost);
      UpdateShares(consumed);
    }

    method UpdateShares(consumed: array<real>)
      requires Valid() && consumed.Length == MAX_TENANTS && consumed != shares
      modifies this`numeric, shares
      ensures Numbers() ==
              if old(Numbers()).None? then None else Rescale(consumed[..], old(Numbers()).value, power)
    {
      if !numeric {
        return;
      }
      var divisible, unscaled, sum := UnusedFractions(consumed, shares, power);
      if !divisible || sum == 0.0 {
        numeric := false;
        return;
      }
      assert unscaled[..] == Unused(consumed[..], shares[..], power);
      Scale(unscaled, 1.0 / sum, shares);
      assert shares[..] == Rescale(consumed[..], old(shares[..]), power).value;
    }
  }

  /** Multiplies by the scaling factor. */
  method Scale(unscaled: array<real>, factor: real, shares: array<real>)
    requires unscaled.Length == shares.Length && unscaled != shares
    modifies shares
    ensures shares[..] == Scaled(unscaled[..], factor)
  {
    var i := 0;
    while i < shares.Length
      invariant 0 <= i <= shares.Length
      invariant forall k :: 0 <= k < i ==> shares[k] == Scaled(unscaled[..], factor)[k]
      modifies shares
    {
      shares[i] := unscaled[i] * factor;
      i := i + 1;
    }
  }

  /** The fraction of its budget that each tenant left unused, and their sum. */
  method UnusedFractions(consumed: array<real>, shares: array<real>, power: int)
    returns (divisible: bool, unscaled: array<real>, sum: real)
    requires consumed.Length == shares.Length == MAX_TENANTS
    ensures fresh(unscaled) && unscaled.Length == MAX_TENANTS
    ensures divisible <==> Divisible(shares[..], power)
    ensures divisible ==> unscaled[..] == Unused(consumed[..], shares[..], power) && sum == Sum(unscaled[..])
  {
    unscaled := new real[MAX_TENANTS](_ => 0.0);
    sum := 0.0;
    var i := 0;
    while i < MAX_TENANTS
      invariant 0 <= i <= MAX_TENANTS
      invariant forall k :: 0 <= k < i ==> Budget(power, shares[k]) != 0.0
      invariant forall k :: 0 <= k < i ==> unscaled[k] == 1.0 - consumed[k] / Budget(power, shares[k])
      invariant sum == Sum(unscaled[..i])
      modifies unscaled
    {
      if Budget(power, shares[i]) == 0.0 {
        assert shares[..][i] == shares[i];
        return false, unscaled, sum;
      }
      unscaled[i] := 1.0 - consumed[i] / Budget(power, shares[i]);
      sum := sum + unscaled[i];
      assert unscaled[..i + 1][..i] == unscaled[..i];
      i := i + 1;
    }
    divisible := true;
    assert unscaled[..MAX_TENANTS] == unscaled[..];
  }
}
