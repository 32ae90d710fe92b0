/**
 Open and write redirection on the server: a locked path is exchanged for the name of a dummy file,
 and a write naming the dummy file is carried out on the descriptor of the real one.

 Two append-only tables compose: real path to dummy name, and dummy name to real descriptor.
 */
module Redirection {
  import opened Scan
  import opened CStrings
  import opened Devices

  const DUMMY_FILE_PATH_LEN: nat := 128
  /** The fixed part of the template given to `mkstemp`, and the length of the whole. */
  const TEMPLATE: string := "locked_"
  const DUMMY_NAME_LEN: nat := 13

  /** The part of a path that the dummy-file table keeps. */
  function Key(path: string): string {
    Take(path, DUMMY_FILE_PATH_LEN)
  }

  /** Two paths are kept alike exactly when they are the same or agree on their first 128
      characters. */
  lemma KeptAlikeExactly(p: string, q: string)
    ensures Key(p) == Key(q) <==> p == q || (|p| >= 128 && |q| >= 128 && p[..128] == q[..128])
  {
  }

  /** Answer of `mkstemp`: failure, or a descriptor and the name of a new file. */
  datatype Temp = NoTemp | Temp(fd: int, name: string)

  datatype MemoEntry = MemoEntry(key: string, dummy: string)

  /** A filled slot of the descriptor table, with the path it was opened for. */
  datatype OpenRecord = OpenRecord(path: string, dummy: string, fd: int)

  datatype State = State(memo: seq<MemoEntry>, opens: seq<OpenRecord>, crashed: bool)

  const INITIAL := State([], [], false)

  datatype Request =
    | Open(path: string, realFd: int, temp: Temp)   // with the answers of `open` and `mkstemp`
    | Write(name: string, data: seq<char>)

  datatype Outcome =
    | Opened(dummy: string)
    | Refused
    | Crashed                                // a NULL dummy path is dereferenced
    | WriteTo(fd: int, data: seq<char>)      // `write` is called with these arguments
    | Dead                                   // the daemon crashed earlier

  function MemoIndex(memo: seq<MemoEntry>, key: string): (k: nat)
    ensures k <= |memo|
    ensures k < |memo| ==> memo[k].key == key
    ensures forall i :: 0 <= i < k ==> memo[i].key != key
  {
    First(memo, (e: MemoEntry) => e.key == key)
  }

  /** Dummy file of a path.  A new entry counts as filled only when the descriptor of the new
      file is nonzero, because the source stores that descriptor in the `init` flag. */
  function GetDummy(memo: seq<MemoEntry>, path: string, temp: Temp): (r: (seq<MemoEntry>, Option<string>))
    ensures memo <= r.0
  {
    var k := MemoIndex(memo, Key(path));
    if k < |memo| then (memo, Some(memo[k].dummy))
    else if temp.NoTemp? || |memo| >= MAX_LOCKED_FILES then (memo, None)
    else (memo + (if temp.fd != 0 then [MemoEntry(Key(path), Key(temp.name))] else []), Some(Key(temp.name)))
  }

  function ServeOpen(s: State, devs: seq<Device>, path: string, realFd: int, temp: Temp): (State, Outcome) {
    if !Locked(devs, path) || realFd == -1 then (s, Refused)
    else
      var (memo, dummy) := GetDummy(s.memo, path, temp);
      if |s.opens| >= MAX_LOCKED_FILES then (s.(memo := memo), Refused)
      else match dummy
        case None => (s.(memo := memo, crashed := true), Crashed)
        case Some(d) => (s.(memo := memo, opens := s.opens + [OpenRecord(path, d, realFd)]), Opened(d))
  }

  /** First slot of the descriptor table whose dummy name starts with `name`. */
  function FdIndex(opens: seq<OpenRecord>, name: string): (k: nat)
    ensures k <= |opens|
    ensures k < |opens| ==> name <= opens[k].dummy
    ensures forall i :: 0 <= i < k ==> !(name <= opens[i].dummy)
  {
    First(opens, (r: OpenRecord) => name <= r.dummy)
  }

  function FdOf(opens: seq<OpenRecord>, name: string): int {
    var k := FdIndex(opens, name);
    if k < |opens| then opens[k].fd else -1
  }

  function Step(s: State, devs: seq<Device>, r: Request): (State, Outcome) {
    if s.crashed then (s, Dead)
    else match r
      case Open(path, realFd, temp) => ServeOpen(s, devs, path, realFd, temp)
      case Write(name, data) => (s, WriteTo(FdOf(s.opens, name), data))
  }

  /** State after serving the requests in order, from the empty tables. */
  function After(devs: seq<Device>, reqs: seq<Request>): State {
    if |reqs| == 0 then INITIAL else Step(After(devs, reqs[..|reqs| - 1]), devs, reqs[|reqs| - 1]).0
  }

  /** Outcome of the `i`-th request of a run. */
  function OutcomeAt(devs: seq<Device>, reqs: seq<Request>, i: nat): Outcome
    requires i < |reqs|
  {
    Step(After(devs, reqs[..i]), devs, reqs[i]).1
  }

  // ----- What the operating system promises -----

  predicate MakesTemp(r: Request) {
    r.Open? && r.temp.Temp?
  }

  /** `mkstemp` gives non-negative descriptors and names, after the template, never given before. */
  ghost predicate TempsFresh(reqs: seq<Request>) {
    && (forall i :: 0 <= i < |reqs| && MakesTemp(reqs[i]) ==> TempOk(reqs[i].temp))
    && (forall i, j :: 0 <= i < j < |reqs| && MakesTemp(reqs[i]) && MakesTemp(reqs[j])
                       ==> reqs[i].temp.name != reqs[j].temp.name)
  }

  predicate TempOk(t: Temp)
    requires t.Temp?
  {
    t.fd >= 0 && TempNamed(t.name)
  }

  /** The names that `mkstemp` makes from the template: IEEE Std 1003.1-2017 has it put characters
      of the portable filename character set, its section 3.282, in place of the X's. */
  predicate TempNamed(name: string) {
    |name| == DUMMY_NAME_LEN && TEMPLATE <= name && Portable(name[|TEMPLATE|..])
  }

  predicate Portable(s: string) {
    forall i :: 0 <= i < |s| ==> PortableChar(s[i])
  }

  predicate PortableChar(ch: char) {
    'A' <= ch <= 'Z' || 'a' <= ch <= 'z' || '0' <= ch <= '9' || ch in "._-"
  }

  /** `open` does not open the empty path, and `mkstemp` does not name the file that the same
      request has just opened, since that one exists. */
  ghost predicate PathsReal(reqs: seq<Request>) {
    forall i :: 0 <= i < |reqs| && reqs[i].Open? ==> PathReal(reqs[i])
  }

  predicate PathReal(r: Request)
    requires r.Open?
  {
    r.realFd != -1 ==> r.path != "" && (r.temp.Temp? ==> r.temp.name != r.path)
  }

  /** Standard input is open, so `mkstemp` never gives descriptor 0. */
  ghost predicate TempsPositive(reqs: seq<Request>) {
    forall i :: 0 <= i < |reqs| && MakesTemp(reqs[i]) ==> reqs[i].temp.fd != 0
  }

  /** Real descriptors are never closed, so `open` never gives the same one twice. */
  ghost predicate FdsFresh(reqs: seq<Request>) {
    forall i, j :: 0 <= i < j < |reqs| && reqs[i].Open? && reqs[j].Open? && reqs[i].realFd != -1
                   ==> reqs[i].realFd != reqs[j].realFd
  }

  // ----- Invariant -----

  ghost predicate DummiesMeanOneKey(s: State) {
    && (forall a, b :: 0 <= a < b < |s.opens| && s.opens[a].dummy == s.opens[b].dummy
                       ==> Key(s.opens[a].path) == Key(s.opens[b].path))
    && (forall a, m :: 0 <= a < |s.opens| && 0 <= m < |s.memo| && s.opens[a].dummy == s.memo[m].dummy
                       ==> Key(s.opens[a].path) == s.memo[m].key)
  }

  ghost predicate MemoInjective(s: State) {
    forall m, n :: 0 <= m < n < |s.memo| ==> s.memo[m].key != s.memo[n].key && s.memo[m].dummy != s.memo[n].dummy
  }

  /** Either the descriptor table is full or it is at least as long as the dummy-file table. */
  ghost predicate Coupled(s: State) {
    && |s.memo| <= MAX_LOCKED_FILES && |s.opens| <= MAX_LOCKED_FILES
    && (|s.memo| <= |s.opens| || |s.opens| == MAX_LOCKED_FILES)
  }

  /** No slot of the descriptor table holds the answer of a failed `open`. */
  ghost predicate FdsReal(s: State) {
    forall a :: 0 <= a < |s.opens| ==> s.opens[a].fd != -1
  }

  ghost predicate Issued(reqs: seq<Request>, name: string) {
    exists i :: 0 <= i < |reqs| && MakesTemp(reqs[i]) && reqs[i].temp.name == name
  }

  ghost predicate NamesIssued(s: State, reqs: seq<Request>) {
    && (forall a :: 0 <= a < |s.opens| ==> |s.opens[a].dummy| == DUMMY_NAME_LEN && Issued(reqs, s.opens[a].dummy))
    && (forall m :: 0 <= m < |s.memo| ==> |s.memo[m].dummy| == DUMMY_NAME_LEN && Issued(reqs, s.memo[m].dummy))
  }

  /** Every filled descriptor slot is backed by the dummy-file table. */
  ghost predicate Remembered(s: State) {
    forall a :: 0 <= a < |s.opens| ==> MemoEntry(Key(s.opens[a].path), s.opens[a].dummy) in s.memo
  }

  ghost predicate Inv(s: State, reqs: seq<Request>) {
    && DummiesMeanOneKey(s) && MemoInjective(s) && NamesIssued(s, reqs)
    && (TempsPositive(reqs) ==> Remembered(s))
  }

  lemma IssuedExtends(reqs: seq<Request>, r: Request, name: string)
    requires Issued(reqs, name)
    ensures Issued(reqs + [r], name)
  {
    var i :| 0 <= i < |reqs| && MakesTemp(reqs[i]) && reqs[i].temp.name == name;
    assert (reqs + [r])[i] == reqs[i];
  }

  lemma NamesExtend(s: State, reqs: seq<Request>, r: Request)
    requires NamesIssued(s, reqs)
    ensures NamesIssued(s, reqs + [r])
  {
    forall a | 0 <= a < |s.opens| ensures Issued(reqs + [r], s.opens[a].dummy) {
      IssuedExtends(reqs, r, s.opens[a].dummy);
    }
    forall m | 0 <= m < |s.memo| ensures Issued(reqs + [r], s.memo[m].dummy) {
      IssuedExtends(reqs, r, s.memo[m].dummy);
    }
  }

  /** A name made by the last request was not issued before it. */
  lemma FreshName(reqs: seq<Request>, r: Request)
    requires TempsFresh(reqs + [r]) && MakesTemp(r)
    ensures TempOk(r.temp) && !Issued(reqs, r.temp.name) && Issued(reqs + [r], r.temp.name)
  {
    var all := reqs + [r];
    assert all[|reqs|] == r;
    assert forall i :: 0 <= i < |reqs| ==> all[i] == reqs[i];
  }

  lemma PositiveShrinks(reqs: seq<Request>, r: Request)
    requires TempsPositive(reqs + [r])
    ensures TempsPositive(reqs) && (MakesTemp(r) ==> r.temp.fd != 0)
  {
    var all := reqs + [r];
    assert all[|reqs|] == r;
    assert forall i :: 0 <= i < |reqs| ==> all[i] == reqs[i];
  }

  lemma FreshShrinks(reqs: seq<Request>, n: nat)
    requires TempsFresh(reqs) && n <= |reqs|
    ensures TempsFresh(reqs[..n])
  {
    assert forall i :: 0 <= i < n ==> reqs[..n][i] == reqs[i];
  }

  /** A record may join the descriptor table when its dummy name already means its key, or is new. */
  lemma RecordJoins(s: State, rec: OpenRecord)
    requires DummiesMeanOneKey(s)
    requires forall a :: 0 <= a < |s.opens| && s.opens[a].dummy == rec.dummy ==> Key(s.opens[a].path) == Key(rec.path)
    requires forall m :: 0 <= m < |s.memo| && s.memo[m].dummy == rec.dummy ==> s.memo[m].key == Key(rec.path)
    ensures DummiesMeanOneKey(s.(opens := s.opens + [rec]))
  {
  }

  /** The dummy-file table after a miss that found room: the entry is remembered unless the
      descriptor is 0. */
  function AfterMiss(s: State, r: Request): State
    requires MakesTemp(r)
  {
    s.(memo := s.memo + if r.temp.fd != 0 then [MemoEntry(Key(r.path), Key(r.temp.name))] else [])
  }

  ghost predicate Unused(s: State, name: string) {
    && (forall a :: 0 <= a < |s.opens| ==> s.opens[a].dummy != name)
    && (forall m :: 0 <= m < |s.memo| ==> s.memo[m].dummy != name)
  }

  lemma MissKeepsMeaning(s: State, r: Request)
    requires DummiesMeanOneKey(s) && MemoInjective(s) && MakesTemp(r) && TempOk(r.temp) && Unused(s, r.temp.name)
    requires MemoIndex(s.memo, Key(r.path)) == |s.memo|
    ensures DummiesMeanOneKey(AfterMiss(s, r)) && MemoInjective(AfterMiss(s, r))
  {
  }

  lemma HitKeepsInv(s: State, reqs: seq<Request>, k: nat, rec: OpenRecord)
    requires Inv(s, reqs) && k < |s.memo| && s.memo[k] == MemoEntry(Key(rec.path), rec.dummy)
    ensures Inv(s.(opens := s.opens + [rec]), reqs)
  {
    assert forall m :: 0 <= m < |s.memo| && s.memo[m].dummy == rec.dummy ==> m == k;
    RecordJoins(s, rec);
  }

  lemma MissKeepsInv(s: State, reqs: seq<Request>, r: Request)
    requires Inv(s, reqs) && MakesTemp(r) && TempOk(r.temp) && Unused(s, r.temp.name) && Issued(reqs, r.temp.name)
    requires MemoIndex(s.memo, Key(r.path)) == |s.memo|
    requires TempsPositive(reqs) ==> r.temp.fd != 0
    ensures Inv(AfterMiss(s, r), reqs)
    ensures Inv(AfterMiss(s, r).(opens := s.opens + [OpenRecord(r.path, Key(r.temp.name), r.realFd)]), reqs)
  {
    var rec := OpenRecord(r.path, Key(r.temp.name), r.realFd);
    var m := AfterMiss(s, r);
    MissKeepsMeaning(s, r);
    RecordJoins(m, rec);
    assert TempsPositive(reqs) ==> Remembered(m) && Remembered(m.(opens := s.opens + [rec])) by {
      assert r.temp.fd != 0 ==> m.memo[|s.memo|] == MemoEntry(Key(r.path), Key(r.temp.name));
    }
  }

  lemma InvExtends(s: State, reqs: seq<Request>, r: Request)
    requires Inv(s, reqs)
    ensures Inv(s, reqs + [r])
  {
    NamesExtend(s, reqs, r);
    if TempsPositive(reqs + [r]) {
      PositiveShrinks(reqs, r);
    }
  }

  /** The tables after one request: as before, or with a record added, or with an entry added, or
      both. */
  lemma StepCases(s: State, devs: seq<Device>, r: Request)
    ensures var t := Step(s, devs, r).0.(crashed := s.crashed);
            || t == s
            || (&& r.Open? && HasDummy(s, r.path)
                && t == Recorded(s, r, s.memo[MemoIndex(s.memo, Key(r.path))].dummy))
            || (&& MakesTemp(r) && !HasDummy(s, r.path)
                && (t == AfterMiss(s, r) || t == Recorded(AfterMiss(s, r), r, Key(r.temp.name))))
  {
  }

  function Recorded(s: State, r: Request, dummy: string): State
    requires r.Open?
  {
    s.(opens := s.opens + [OpenRecord(r.path, dummy, r.realFd)])
  }

  lemma InvIgnoresCrash(s: State, crashed: bool, reqs: seq<Request>)
    ensures Inv(s, reqs) <==> Inv(s.(crashed := crashed), reqs)
  {
  }

  /** One request keeps the invariant. */
  lemma StepKeepsInv(s: State, devs: seq<Device>, reqs: seq<Request>, r: Request)
    requires Inv(s, reqs) && TempsFresh(reqs + [r])
    ensures Inv(Step(s, devs, r).0, reqs + [r])
  {
    InvExtends(s, reqs, r);
    StepCases(s, devs, r);
    InvIgnoresCrash(Step(s, devs, r).0, s.crashed, reqs + [r]);
    if r.Open? && HasDummy(s, r.path) {
      var k := MemoIndex(s.memo, Key(r.path));
      HitKeepsInv(s, reqs + [r], k, OpenRecord(r.path, s.memo[k].dummy, r.realFd));
    } else if MakesTemp(r) {
      FreshName(reqs, r);
      if TempsPositive(reqs + [r]) {
        PositiveShrinks(reqs, r);
      }
      MissKeepsInv(s, reqs + [r], r);
    }
  }

  lemma {:induction false} RunKeepsInv(devs: seq<Device>, reqs: seq<Request>)
    requires TempsFresh(reqs)
    ensures Inv(After(devs, reqs), reqs)
  {
    if |reqs| > 0 {
      var n := |reqs| - 1;
      FreshShrinks(reqs, n);
      RunKeepsInv(devs, reqs[..n]);
      assert reqs[..n] + [reqs[n]] == reqs;
      StepKeepsInv(After(devs, reqs[..n]), devs, reqs[..n], reqs[n]);
    }
  }

  /** One request, whatever the kernel answers, keeps the lengths of the tables coupled. */
  lemma StepKeepsCoupled(s: State, devs: seq<Device>, r: Request)
    requires Coupled(s) && FdsReal(s)
    ensures Coupled(Step(s, devs, r).0) && FdsReal(Step(s, devs, r).0)
  {
  }

  /** In every run, whatever the kernel answers, either the descriptor table is full or it is at
      least as long as the dummy-file table, and no slot holds descriptor -1. */
  lemma {:induction false} RunKeepsCoupled(devs: seq<Device>, reqs: seq<Request>)
    ensures Coupled(After(devs, reqs)) && FdsReal(After(devs, reqs))
  {
    if |reqs| > 0 {
      RunKeepsCoupled(devs, reqs[..|reqs| - 1]);
      StepKeepsCoupled(After(devs, reqs[..|reqs| - 1]), devs, reqs[|reqs| - 1]);
    }
  }

  /** No slot is for the empty path, and no path is its own dummy name. */
  ghost predicate Named(s: State) {
    && (forall a :: 0 <= a < |s.opens| ==> s.opens[a].path != "" && s.opens[a].dummy != s.opens[a].path)
    && (forall m :: 0 <= m < |s.memo| ==> |s.memo[m].dummy| == DUMMY_NAME_LEN && s.memo[m].dummy != s.memo[m].key)
  }

  lemma StepKeepsNamed(s: State, devs: seq<Device>, r: Request)
    requires Named(s) && (r.Open? ==> PathReal(r)) && (MakesTemp(r) ==> TempOk(r.temp))
    ensures Named(Step(s, devs, r).0)
  {
  }

  /** In every run, no path is its own dummy name. */
  lemma {:induction false} RunKeepsNamed(devs: seq<Device>, reqs: seq<Request>)
    requires PathsReal(reqs) && TempsFresh(reqs)
    ensures Named(After(devs, reqs))
  {
    if |reqs| > 0 {
      var n := |reqs| - 1;
      FreshShrinks(reqs, n);
      assert forall i :: 0 <= i < n ==> reqs[..n][i] == reqs[i];
      RunKeepsNamed(devs, reqs[..n]);
      StepKeepsNamed(After(devs, reqs[..n]), devs, reqs[n]);
    }
  }

  /** The dummy-file table is append-only over every run: no entry ever changes. */
  lemma {:induction false} MemoNeverChanges(devs: seq<Device>, reqs: seq<Request>, n: nat)
    requires n <= |reqs|
    ensures After(devs, reqs[..n]).memo <= After(devs, reqs).memo
    decreases |reqs|
  {
    if n < |reqs| {
      var init := reqs[..|reqs| - 1];
      assert init[..n] == reqs[..n];
      MemoNeverChanges(devs, init, n);
      StepExtendsMemo(After(devs, init), devs, reqs[|reqs| - 1]);
    } else {
      assert reqs[..n] == reqs;
    }
  }

  lemma StepExtendsMemo(s: State, devs: seq<Device>, r: Request)
    ensures s.memo <= Step(s, devs, r).0.memo
  {
  }

  // ----- Whole runs -----

  predicate OpenedAt(devs: seq<Device>, reqs: seq<Request>, i: nat) {
    i < |reqs| && reqs[i].Open? && OutcomeAt(devs, reqs, i).Opened?
  }

  function RecordAt(devs: seq<Device>, reqs: seq<Request>, i: nat): OpenRecord
    requires OpenedAt(devs, reqs, i)
  {
    OpenRecord(reqs[i].path, OutcomeAt(devs, reqs, i).dummy, reqs[i].realFd)
  }

  /** The successful opens of a run, in order. */
  function Log(devs: seq<Device>, reqs: seq<Request>): seq<OpenRecord> {
    if |reqs| == 0 then []
    else
      var n := |reqs| - 1;
      Log(devs, reqs[..n]) + if OpenedAt(devs, reqs, n) then [RecordAt(devs, reqs, n)] else []
  }

  /** One request appends to the descriptor table exactly when it is a successful open. */
  lemma StepAppends(s: State, devs: seq<Device>, r: Request)
    ensures var (t, out) := Step(s, devs, r);
            t.opens == s.opens + if r.Open? && out.Opened? then [OpenRecord(r.path, out.dummy, r.realFd)] else []
  {
  }

  /** The descriptor table is append-only: it holds exactly the successful opens, in order. */
  lemma {:induction false} TableIsLog(devs: seq<Device>, reqs: seq<Request>)
    ensures After(devs, reqs).opens == Log(devs, reqs)
  {
    if |reqs| > 0 {
      var n := |reqs| - 1;
      TableIsLog(devs, reqs[..n]);
      StepAppends(After(devs, reqs[..n]), devs, reqs[n]);
    }
  }

  lemma {:induction false} LogGrows(devs: seq<Device>, reqs: seq<Request>, n: nat)
    requires n <= |reqs|
    ensures Log(devs, reqs[..n]) <= Log(devs, reqs)
    decreases |reqs|
  {
    if n < |reqs| {
      var init := reqs[..|reqs| - 1];
      assert init[..n] == reqs[..n];
      LogGrows(devs, init, n);
    } else {
      assert reqs[..n] == reqs;
    }
  }

  /** Where a successful open sits in the log. */
  lemma LogPosition(devs: seq<Device>, reqs: seq<Request>, i: nat)
    requires OpenedAt(devs, reqs, i)
    ensures var a := |Log(devs, reqs[..i])|;
            a < |Log(devs, reqs)| && Log(devs, reqs)[a] == RecordAt(devs, reqs, i)
  {
    LogGrows(devs, reqs, i + 1);
    assert reqs[..i + 1][..i] == reqs[..i];
    assert OpenedAt(devs, reqs[..i + 1], i) && RecordAt(devs, reqs[..i + 1], i) == RecordAt(devs, reqs, i);
  }

  /** Which request a log entry came from. */
  lemma {:induction false} LogSource(devs: seq<Device>, reqs: seq<Request>, a: nat) returns (k: nat)
    requires a < |Log(devs, reqs)|
    ensures OpenedAt(devs, reqs, k) && |Log(devs, reqs[..k])| == a
    ensures Log(devs, reqs)[a] == RecordAt(devs, reqs, k)
    decreases |reqs|
  {
    var n := |reqs| - 1;
    var init := reqs[..n];
    if a < |Log(devs, init)| {
      k := LogSource(devs, init, a);
      assert init[..k] == reqs[..k];
    } else {
      k := n;
    }
  }

  /** Request `k` is a successful open of a path agreeing with `p` on the first 128 characters. */
  predicate OpensKey(devs: seq<Device>, reqs: seq<Request>, k: nat, p: string) {
    OpenedAt(devs, reqs, k) && Key(reqs[k].path) == Key(p)
  }

  /** Request `j` is a write naming the dummy file that the open `i` was given, and the daemon is up. */
  predicate WritesBack(devs: seq<Device>, reqs: seq<Request>, i: nat, j: nat) {
    && i < j < |reqs| && OpenedAt(devs, reqs, i)
    && reqs[j].Write? && reqs[j].name == OutcomeAt(devs, reqs, i).dummy
    && !After(devs, reqs[..j]).crashed
  }

  lemma FindOpen(devs: seq<Device>, reqs: seq<Request>, i: nat, j: nat) returns (k: nat)
    requires TempsFresh(reqs) && WritesBack(devs, reqs, i, j)
    ensures k <= i && OpensKey(devs, reqs, k, reqs[i].path)
    ensures OutcomeAt(devs, reqs, j) == WriteTo(reqs[k].realFd, reqs[j].data)
    ensures TempsPositive(reqs) ==> forall e :: 0 <= e < k ==> !OpensKey(devs, reqs, e, reqs[i].path)
  {
    var before := reqs[..j];
    var s := After(devs, before);
    var name := OutcomeAt(devs, reqs, i).dummy;
    FreshShrinks(reqs, j);
    RunKeepsInv(devs, before);
    TableIsLog(devs, before);
    SameBefore(devs, reqs, i, j);
    LogPosition(devs, before, i);
    var ai := |Log(devs, before[..i])|;
    ExactLookup(s, before, name, ai);
    var a := FdIndex(s.opens, name);
    k := LogSource(devs, before, a);
    SameBefore(devs, reqs, k, j);
    if k > i {
      LogGrows(devs, before[..k], i);
      assert before[..k][..i] == before[..i];
      EarlierSlot(devs, before, i, k);
    }
    if TempsPositive(reqs) {
      forall e | 0 <= e < k ensures !OpensKey(devs, reqs, e, reqs[i].path) {
        if OpensKey(devs, reqs, e, reqs[i].path) {
          SameBefore(devs, reqs, e, j);
          LogPosition(devs, before, e);
          EarlierSlot(devs, before, e, k);
          PositivePrefix(reqs, j);
          SameKeySameDummy(s, before, |Log(devs, before[..e])|, ai);
        }
      }
    }
  }

  /**
   Redirection over whole runs.  A write naming the dummy path returned by a successful open is
   performed, with the data sent, on the descriptor of a successful open whose path agrees with
   the opened one on the first 128 characters; when `mkstemp` never gives descriptor 0, that open
   is the earliest such open of the run.
   */
  lemma WriteLandsOnEarliestOpen(devs: seq<Device>, reqs: seq<Request>, i: nat, j: nat)
    requires TempsFresh(reqs) && WritesBack(devs, reqs, i, j)
    ensures exists k ::
              && 0 <= k <= i && OpensKey(devs, reqs, k, reqs[i].path)
              && OutcomeAt(devs, reqs, j) == WriteTo(reqs[k].realFd, reqs[j].data)
              && (TempsPositive(reqs) ==> forall e :: 0 <= e < k ==> !OpensKey(devs, reqs, e, reqs[i].path))
  {
    var k := FindOpen(devs, reqs, i, j);
  }

  /** The file a redirected write reaches: whatever request obtained the descriptor written to
      named a path with the same first 128 characters, and the very same path if it is shorter. */
  lemma WriteReachesFile(devs: seq<Device>, reqs: seq<Request>, i: nat, j: nat, m: nat)
    requires TempsFresh(reqs) && FdsFresh(reqs) && WritesBack(devs, reqs, i, j)
    requires m < |reqs| && reqs[m].Open? && OutcomeAt(devs, reqs, j) == WriteTo(reqs[m].realFd, reqs[j].data)
    ensures OpensKey(devs, reqs, m, reqs[i].path)
    ensures |reqs[i].path| < 128 ==> reqs[m].path == reqs[i].path
  {
    var k := FindOpen(devs, reqs, i, j);
    assert reqs[k].realFd != -1;
    assert m == k;
  }

  /** The write `j` to the dummy file given to the open `i` reaches the descriptor obtained by
      the open `m`. */
  ghost predicate Delivers(devs: seq<Device>, reqs: seq<Request>, i: nat, j: nat, m: nat) {
    && TempsFresh(reqs) && FdsFresh(reqs) && WritesBack(devs, reqs, i, j) && OpenedAt(devs, reqs, m)
    && OutcomeAt(devs, reqs, j) == WriteTo(reqs[m].realFd, reqs[j].data)
  }

  /** In every run, writes to the dummy file given for `p` reach the file `p`. */
  ghost predicate AlwaysReaches(p: string) {
    forall devs: seq<Device>, reqs: seq<Request>, i: nat, j: nat, m: nat ::
      Delivers(devs, reqs, i, j, m) && reqs[i].path == p ==> reqs[m].path == p
  }

  /** Redirection is exact for a path if and only if it is shorter than 128 characters. */
  lemma ExactExactlyForShortPaths(p: string)
    ensures AlwaysReaches(p) <==> |p| < 128
  {
    if |p| < 128 {
      forall devs: seq<Device>, reqs: seq<Request>, i: nat, j: nat, m: nat |
        Delivers(devs, reqs, i, j, m) && reqs[i].path == p
        ensures reqs[m].path == p
      {
        WriteReachesFile(devs, reqs, i, j, m);
      }
    } else {
      LongPathsCollide(p);
      var devs, reqs := Locking(p + "x"), CollidingRun(p);
      assert Delivers(devs, reqs, 1, 2, 0);
      assert reqs[1].path == p && reqs[0].path != p;
    }
  }

  function Locking(path: string): seq<Device> {
    [Device(true, 0, "", DEVICE_TYPE_FILE_LOCK, [path])]
  }

  function CollidingRun(p: string): seq<Request> {
    [Open(p + "x", 3, Temp(4, "locked_aaaaaa")), Open(p, 5, Temp(6, "locked_bbbbbb")), Write("locked_aaaaaa", [])]
  }

  lemma LongPathsCollide(p: string)
    requires |p| >= DUMMY_FILE_PATH_LEN
    ensures Delivers(Locking(p + "x"), CollidingRun(p), 1, 2, 0)
  {
    var devs, reqs := Locking(p + "x"), CollidingRun(p);
    assert Key(p + "x") == Key(p);
    LocksPrefixes(p + "x", p);
    LocksPrefixes(p + "x", p + "x");
    KeysCollide(devs, reqs);
    CollidingRunIsPossible(p);
  }

  lemma CollidingRunIsPossible(p: string)
    ensures TempsFresh(CollidingRun(p)) && FdsFresh(CollidingRun(p))
  {
    assert "locked_aaaaaa"[7] != "locked_bbbbbb"[7];
  }

  /** Opening two paths with the same key and writing to the dummy file reaches the first. */
  lemma KeysCollide(devs: seq<Device>, reqs: seq<Request>)
    requires |reqs| == 3 && MakesTemp(reqs[0]) && reqs[0].temp.fd != 0 && reqs[1].Open? && reqs[2].Write?
    requires reqs[0].realFd != -1 && reqs[1].realFd != -1 && Locked(devs, reqs[0].path) && Locked(devs, reqs[1].path)
    requires Key(reqs[0].path) == Key(reqs[1].path) && reqs[2].name == Key(reqs[0].temp.name)
    ensures WritesBack(devs, reqs, 1, 2) && OpenedAt(devs, reqs, 0)
    ensures OutcomeAt(devs, reqs, 2) == WriteTo(reqs[0].realFd, reqs[2].data)
  {
    assert reqs[..1][..0] == [] && reqs[..2][..1] == reqs[..1];
    FirstOpen(devs, reqs[0]);
    assert After(devs, reqs[..1]) == Step(INITIAL, devs, reqs[0]).0;
    HitsMemo(After(devs, reqs[..1]), devs, reqs[1]);
    var s := After(devs, reqs[..2]);
    assert reqs[2].name <= s.opens[0].dummy;
    assert FdIndex(s.opens, reqs[2].name) == 0;
  }

  lemma LocksPrefixes(path: string, prefix: string)
    requires prefix <= path
    ensures Locked(Locking(path), prefix)
  {
    assert PathIndex([path], prefix) == 0;
  }

  lemma FirstOpen(devs: seq<Device>, r: Request)
    requires MakesTemp(r) && r.realFd != -1 && r.temp.fd != 0 && Locked(devs, r.path)
    ensures Step(INITIAL, devs, r) ==
            (State([MemoEntry(Key(r.path), Key(r.temp.name))], [OpenRecord(r.path, Key(r.temp.name), r.realFd)], false),
             Opened(Key(r.temp.name)))
  {
    var (memo, dummy) := GetDummy(INITIAL.memo, r.path, r.temp);
    assert memo == [MemoEntry(Key(r.path), Key(r.temp.name))];
    var rec := OpenRecord(r.path, Key(r.temp.name), r.realFd);
    assert INITIAL.opens + [rec] == [rec];
  }

  lemma HitsMemo(s: State, devs: seq<Device>, r: Request)
    requires r.Open? && r.realFd != -1 && Locked(devs, r.path)
    requires |s.memo| == 1 && s.memo[0].key == Key(r.path) && |s.opens| == 1 && !s.crashed
    ensures Step(s, devs, r) ==
            (s.(opens := s.opens + [OpenRecord(r.path, s.memo[0].dummy, r.realFd)]), Opened(s.memo[0].dummy))
  {
    assert MemoIndex(s.memo, Key(r.path)) == 0;
  }

  /** The daemon dereferences a NULL dummy path exactly when a path has no dummy file yet, the
      descriptor table has room, and `mkstemp` fails: the dummy-file table is never the one that
      is full. */
  lemma CrashesExactlyWithoutTemp(devs: seq<Device>, reqs: seq<Request>, i: nat)
    requires i < |reqs| && reqs[i].Open?
    ensures var s := After(devs, reqs[..i]);
            OutcomeAt(devs, reqs, i) == Crashed <==>
            && !s.crashed && Locked(devs, reqs[i].path) && reqs[i].realFd != -1
            && |s.opens| < MAX_LOCKED_FILES && !HasDummy(s, reqs[i].path) && reqs[i].temp.NoTemp?
  {
    RunKeepsCoupled(devs, reqs[..i]);
    if !After(devs, reqs[..i]).crashed {
      OpensExactly(After(devs, reqs[..i]), devs, reqs[i]);
    }
  }

  /** The path has a dummy file already. */
  predicate HasDummy(s: State, path: string) {
    MemoIndex(s.memo, Key(path)) < |s.memo|
  }

  /** As long as `mkstemp` succeeds the daemon stays up. */
  lemma {:induction false} StaysUp(devs: seq<Device>, reqs: seq<Request>)
    requires forall i :: 0 <= i < |reqs| && reqs[i].Open? ==> reqs[i].temp.Temp?
    ensures !After(devs, reqs).crashed
  {
    if |reqs| > 0 {
      var n := |reqs| - 1;
      StaysUp(devs, reqs[..n]);
      if reqs[n].Open? {
        CrashesExactlyWithoutTemp(devs, reqs, n);
      }
    }
  }

  /** In every run an open succeeds exactly when the daemon is up, the path is locked, the kernel
      opens it, fewer than 1024 opens have succeeded before, and the path has a dummy file or can
      be given one. */
  lemma OpenSucceedsExactly(devs: seq<Device>, reqs: seq<Request>, i: nat)
    requires i < |reqs| && reqs[i].Open?
    ensures var s := After(devs, reqs[..i]);
            OpenedAt(devs, reqs, i) <==>
            && !s.crashed && Locked(devs, reqs[i].path) && reqs[i].realFd != -1
            && |Log(devs, reqs[..i])| < 1024
            && (HasDummy(s, reqs[i].path) || reqs[i].temp.Temp?)
  {
    var s := After(devs, reqs[..i]);
    RunKeepsCoupled(devs, reqs[..i]);
    TableIsLog(devs, reqs[..i]);
    if !s.crashed {
      OpensExactly(s, devs, reqs[i]);
    }
  }

  lemma OpensExactly(s: State, devs: seq<Device>, r: Request)
    requires Coupled(s) && !s.crashed && r.Open?
    ensures var out := Step(s, devs, r).1;
            var tried := Locked(devs, r.path) && r.realFd != -1 && |s.opens| < MAX_LOCKED_FILES;
            && (out.Opened? <==> tried && (HasDummy(s, r.path) || r.temp.Temp?))
            && (out == Crashed <==> tried && !HasDummy(s, r.path) && r.temp.NoTemp?)
            && (out == Refused <==> !tried)
  {
  }

  /** The tables after an open: the dummy file made for it is remembered even when the descriptor
      table is full, and a descriptor is recorded exactly when the open succeeds. */
  lemma OpenChangesExactly(s: State, devs: seq<Device>, r: Request)
    requires Coupled(s) && !s.crashed && r.Open?
    ensures var (t, out) := Step(s, devs, r);
            var found := exists m :: 0 <= m < |s.memo| && s.memo[m].key == Key(r.path);
            && t.memo == s.memo +
                         (if Locked(devs, r.path) && r.realFd != -1 && !found && r.temp.Temp? && r.temp.fd != 0
                             && |s.memo| < 1024
                          then [MemoEntry(Key(r.path), Key(r.temp.name))] else [])
            && t.opens == s.opens + (if out.Opened? then [OpenRecord(r.path, out.dummy, r.realFd)] else [])
            && (out.Opened? ==> if found then MemoEntry(Key(r.path), out.dummy) in s.memo
                                else r.temp.Temp? && out.dummy == Key(r.temp.name))
            && (t.crashed <==> out == Crashed)
  {
    assert s.memo + [] == s.memo && s.opens + [] == s.opens;
    var k := MemoIndex(s.memo, Key(r.path));
    if k < |s.memo| {
      assert s.memo[k] == MemoEntry(Key(r.path), s.memo[k].dummy);
    }
  }

  // ----- The descriptor table fills -----

  /** Some name that `mkstemp` can make, other than `name`. */
  function OtherName(name: string): (other: string)
    ensures TempNamed(other) && other != name
  {
    if name == "locked_aaaaaa" then "locked_bbbbbb" else "locked_aaaaaa"
  }

  /** `n` opens of the same path; only the first one needs a dummy file. */
  function FillRun(path: string, n: nat): (reqs: seq<Request>)
    ensures |reqs| == n
  {
    seq(n, i requires 0 <= i => if i == 0 then Open(path, 3, Temp(4, OtherName(path))) else Open(path, i + 4, NoTemp))
  }

  lemma {:induction false} FillRunFills(path: string, n: nat)
    requires 1 <= n <= MAX_LOCKED_FILES
    ensures var s := After(Locking(path), FillRun(path, n));
            |s.opens| == n && !s.crashed && |s.memo| == 1 && s.memo[0].key == Key(path)
  {
    var devs, reqs := Locking(path), FillRun(path, n);
    LocksPrefixes(path, path);
    assert reqs[..n - 1] == FillRun(path, n - 1);
    if n == 1 {
      FirstOpen(devs, reqs[0]);
      assert After(devs, reqs) == Step(INITIAL, devs, reqs[0]).0;
    } else {
      FillRunFills(path, n - 1);
      AnotherOpen(After(devs, reqs[..n - 1]), devs, reqs[n - 1]);
    }
  }

  lemma AnotherOpen(s: State, devs: seq<Device>, r: Request)
    requires |s.memo| == 1 && !s.crashed && r.Open? && s.memo[0].key == Key(r.path)
    requires Locked(devs, r.path) && r.realFd != -1 && |s.opens| < MAX_LOCKED_FILES
    ensures var t := Step(s, devs, r).0;
            |t.opens| == |s.opens| + 1 && t.memo == s.memo && !t.crashed
  {
    assert MemoIndex(s.memo, Key(r.path)) == 0;
  }

  /** One locked path is enough to fill the descriptor table: after 1024 opens of it, all of which
      succeed, the next one is refused. */
  lemma TableFillsFromOnePath(path: string)
    ensures var devs, reqs := Locking(path), FillRun(path, 1025);
            && TempsFresh(reqs) && TempsPositive(reqs) && FdsFresh(reqs) && (path != "" ==> PathsReal(reqs))
            && |Log(devs, reqs[..1024])| == 1024
            && OutcomeAt(devs, reqs, 1024) == Refused
  {
    var devs, reqs := Locking(path), FillRun(path, MAX_LOCKED_FILES + 1);
    var before := reqs[..MAX_LOCKED_FILES];
    assert before == FillRun(path, MAX_LOCKED_FILES);
    FillRunFills(path, MAX_LOCKED_FILES);
    TableIsLog(devs, before);
    OpensExactly(After(devs, before), devs, reqs[MAX_LOCKED_FILES]);
    FillRunIsReal(path, MAX_LOCKED_FILES + 1);
  }

  lemma FillRunIsReal(path: string, n: nat)
    ensures var reqs := FillRun(path, n);
            TempsFresh(reqs) && TempsPositive(reqs) && FdsFresh(reqs) && (path != "" ==> PathsReal(reqs))
  {
  }

  /** Two successful opens are given the same dummy file exactly when their paths agree on the
      first 128 characters. */
  lemma SameDummyExactlyForSameKey(devs: seq<Device>, reqs: seq<Request>, i: nat, j: nat)
    requires TempsFresh(reqs) && TempsPositive(reqs) && OpenedAt(devs, reqs, i) && OpenedAt(devs, reqs, j)
    ensures OutcomeAt(devs, reqs, i).dummy == OutcomeAt(devs, reqs, j).dummy <==>
            Key(reqs[i].path) == Key(reqs[j].path)
  {
    var s := After(devs, reqs);
    RunKeepsInv(devs, reqs);
    TableIsLog(devs, reqs);
    LogPosition(devs, reqs, i);
    LogPosition(devs, reqs, j);
    var a, b := |Log(devs, reqs[..i])|, |Log(devs, reqs[..j])|;
    if Key(reqs[i].path) == Key(reqs[j].path) {
      SameKeySameDummy(s, reqs, a, b);
    } else {
      assert Key(s.opens[a].path) != Key(s.opens[b].path);
    }
  }

  /** A freshly made dummy file is found again, whatever `mkstemp` would answer next, exactly when
      its descriptor is nonzero. */
  lemma RememberedExactlyIfNonzero(memo: seq<MemoEntry>, path: string, temp: Temp)
    requires MemoIndex(memo, Key(path)) == |memo| < MAX_LOCKED_FILES && temp.Temp?
    ensures (forall again :: GetDummy(GetDummy(memo, path, temp).0, path, again).1 == GetDummy(memo, path, temp).1)
            <==> temp.fd != 0
  {
    var (memo', dummy) := GetDummy(memo, path, temp);
    if temp.fd == 0 {
      assert GetDummy(memo', path, NoTemp).1 == None;
    } else {
      assert memo'[|memo|].key == Key(path);
      assert MemoIndex(memo', Key(path)) == |memo|;
    }
  }

  lemma PositivePrefix(reqs: seq<Request>, n: nat)
    requires TempsPositive(reqs) && n <= |reqs|
    ensures TempsPositive(reqs[..n])
  {
    assert forall i :: 0 <= i < n ==> reqs[..n][i] == reqs[i];
  }

  lemma SameBefore(devs: seq<Device>, reqs: seq<Request>, i: nat, j: nat)
    requires i < j <= |reqs|
    ensures reqs[..j][i] == reqs[i] && reqs[..j][..i] == reqs[..i]
    ensures OutcomeAt(devs, reqs[..j], i) == OutcomeAt(devs, reqs, i)
    ensures OpenedAt(devs, reqs[..j], i) <==> OpenedAt(devs, reqs, i)
  {
    assert reqs[..j][..i] == reqs[..i];
  }

  /** Of two successful opens, the earlier one takes the earlier slot. */
  lemma EarlierSlot(devs: seq<Device>, reqs: seq<Request>, e: nat, k: nat)
    requires e < k && OpenedAt(devs, reqs, e) && OpenedAt(devs, reqs, k)
    ensures |Log(devs, reqs[..e])| < |Log(devs, reqs[..k])|
  {
    SameBefore(devs, reqs, e, k);
    LogPosition(devs, reqs[..k], e);
  }

  /** All names in the tables have one length, so the prefix search for one of them is exact. */
  lemma ExactLookup(s: State, reqs: seq<Request>, name: string, a: nat)
    requires Inv(s, reqs) && a < |s.opens| && s.opens[a].dummy == name
    ensures var k := FdIndex(s.opens, name);
            && k <= a && s.opens[k].dummy == name && Key(s.opens[k].path) == Key(s.opens[a].path)
            && forall i :: 0 <= i < k ==> s.opens[i].dummy != name
  {
    var k := FdIndex(s.opens, name);
    assert name <= s.opens[a].dummy;
    assert |s.opens[k].dummy| == |name|;
  }

  lemma SameKeySameDummy(s: State, reqs: seq<Request>, a: nat, b: nat)
    requires Inv(s, reqs) && TempsPositive(reqs) && a < |s.opens| && b < |s.opens|
    requires Key(s.opens[a].path) == Key(s.opens[b].path)
    ensures s.opens[a].dummy == s.opens[b].dummy
  {
    var m :| 0 <= m < |s.memo| && s.memo[m] == MemoEntry(Key(s.opens[a].path), s.opens[a].dummy);
    var n :| 0 <= n < |s.memo| && s.memo[n] == MemoEntry(Key(s.opens[b].path), s.opens[b].dummy);
  }
}
