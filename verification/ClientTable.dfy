/**
 The client library's table of locked paths, driven by the `open` and `write` of the overlay.

 An entry starts as a locked path with descriptor 0 and is overwritten by the dummy path and the
 descriptor of the dummy file when the path is opened.  A fatal error ends the process.
 */
module ClientTable {
  import opened Scan
  import opened CStrings
  import opened Devices

  datatype Entry = Entry(path: Option<string>, fd: int)

  datatype Client = Client(entries: seq<Entry>, alive: bool)

  /** The table after registration. */
  function Fill(paths: seq<string>): (c: Client)
    requires |paths| <= MAX_LOCKED_FILES
    ensures |c.entries| == MAX_LOCKED_FILES
  {
    Client(seq(MAX_LOCKED_FILES, i requires 0 <= i => Entry(if i < |paths| then Some(paths[i]) else None, 0)), true)
  }

  function MatchSlot(entries: seq<Entry>, path: string): (k: nat)
    ensures k <= |entries|
    ensures k < |entries| ==> entries[k].path.None? || path <= entries[k].path.value
    ensures forall i :: 0 <= i < k ==> entries[i].path.Some? && !(path <= entries[i].path.value)
  {
    First(entries, (e: Entry) => e.path.None? || path <= e.path.value)
  }

  /** Index of the entry that locks `path`; the search stops at the first unused entry. */
  function CheckLocked(entries: seq<Entry>, path: string): (r: Option<nat>)
    ensures r.Some? ==> r.value < |entries| && entries[r.value].path.Some? && path <= entries[r.value].path.value
  {
    var k := MatchSlot(entries, path);
    if k < |entries| && entries[k].path.Some? then Some(k) else None
  }

  function FdSlot(entries: seq<Entry>, fd: int): (k: nat)
    ensures k <= |entries|
    ensures k < |entries| ==> entries[k].fd == fd
    ensures forall i :: 0 <= i < k ==> entries[i].fd != fd
  {
    First(entries, (e: Entry) => e.fd == fd)
  }

  predicate FdIsLocked(entries: seq<Entry>, fd: int) {
    FdSlot(entries, fd) < |entries|
  }

  /** Overlay `open`, given the daemon's answer and the descriptor the kernel returns.  A path that
      is not locked, a refusal and an illegal descriptor are all fatal. */
  function Open(c: Client, path: string, answer: Option<string>, fd: int): Client {
    match CheckLocked(c.entries, path)
    case None => c.(alive := false)
    case Some(k) =>
      if answer.None? || fd <= 0 then c.(alive := false)
      else c.(entries := c.entries[k := Entry(answer, fd)])
  }

  datatype Route = Local | Remote(name: string) | Fatal

  /** Where overlay `write` sends the data. */
  function RouteOf(entries: seq<Entry>, fd: int): Route {
    var k := FdSlot(entries, fd);
    if k == |entries| then Local
    else if entries[k].path.None? then Fatal
    else Remote(entries[k].path.value)
  }

  /** The first entry with the descriptor is the `k`-th. */
  ghost predicate FirstWithFd(entries: seq<Entry>, fd: int, k: nat) {
    k < |entries| && entries[k].fd == fd && forall i :: 0 <= i < k ==> entries[i].fd != fd
  }

  /** A write stays in the process exactly when no entry has its descriptor; otherwise the first such
      entry decides: the path it holds is sent, and without a path the write is fatal. */
  lemma RoutesExactly(entries: seq<Entry>, fd: int)
    ensures RouteOf(entries, fd) == Local <==> forall k :: 0 <= k < |entries| ==> entries[k].fd != fd
    ensures forall name :: RouteOf(entries, fd) == Remote(name) <==>
                           exists k: nat :: FirstWithFd(entries, fd, k) && entries[k].path == Some(name)
    ensures RouteOf(entries, fd) == Fatal <==> exists k: nat :: FirstWithFd(entries, fd, k) && entries[k].path.None?
  {
    var k := FdSlot(entries, fd);
    assert k < |entries| ==> FirstWithFd(entries, fd, k);
    assert forall i: nat :: FirstWithFd(entries, fd, i) ==> i == k;
  }

  /** A path is taken for locked by the `k`-th entry exactly when that is the first one it begins and
      no entry up to it is unused. */
  lemma ChecksExactly(entries: seq<Entry>, path: string, k: nat)
    ensures CheckLocked(entries, path) == Some(k) <==>
            && k < |entries| && (forall i :: 0 <= i <= k ==> entries[i].path.Some?)
            && path <= entries[k].path.value
            && (forall i :: 0 <= i < k ==> !(path <= entries[i].path.value))
  {
  }

  // ----- The data of a write request -----

  /** The request's data is copied with `strncpy`. */
  function Payload(data: seq<char>): (p: seq<char>)
    ensures |p| == |data|
  {
    StrNCpy(data, |data|)
  }

  ghost predicate NothingAfterNul(data: seq<char>) {
    forall i, j :: 0 <= i < j < |data| && data[i] == NUL ==> data[j] == NUL
  }

  /** What a payload is: the data up to its first zero byte, then zeros. */
  lemma {:induction false} PayloadCuts(data: seq<char>)
    ensures var n := |Visible(data, |data|)|;
            && n <= |data| && Payload(data)[..n] == data[..n]
            && (n < |data| ==> data[n] == NUL)
            && (forall i :: 0 <= i < n ==> data[i] != NUL)
            && (forall i :: n <= i < |data| ==> Payload(data)[i] == NUL)
    decreases |data|
  {
    if |data| > 0 && data[0] != NUL {
      var rest := data[1..];
      PayloadCuts(rest);
      var n := |Visible(rest, |rest|)|;
      assert Payload(data) == [data[0]] + Payload(rest);
      assert Payload(data)[..n + 1] == [data[0]] + Payload(rest)[..n];
      assert data[..n + 1] == [data[0]] + rest[..n];
    }
  }

  /** The data arrives unchanged exactly when no nonzero byte follows a zero byte. */
  lemma PayloadFaithfulExactly(data: seq<char>)
    ensures Payload(data) == data <==> NothingAfterNul(data)
  {
    PayloadCuts(data);
    var p := Payload(data);
    var n := |Visible(data, |data|)|;
    assert forall i :: 0 <= i < n ==> p[i] == p[..n][i] && data[i] == data[..n][i];
    if p == data {
      forall i, j | 0 <= i < j < |data| && data[i] == NUL ensures data[j] == NUL {
        assert n <= i;
      }
    }
  }

  /** Copying a copy changes nothing. */
  lemma PayloadIdempotent(data: seq<char>)
    ensures Payload(Payload(data)) == Payload(data)
  {
    PayloadCuts(data);
    var p := Payload(data);
    var n := |Visible(data, |data|)|;
    assert forall i :: 0 <= i < n ==> p[i] == p[..n][i] && data[i] == data[..n][i];
    PayloadFaithfulExactly(p);
  }

  // ----- Runs of the client alone, against any daemon and any kernel -----

  datatype Call = OpenCall(path: string, answer: Option<string>, fd: int) | WriteCall(fd: int)

  function Step(c: Client, call: Call): Client {
    if !c.alive then c
    else match call
      case OpenCall(path, answer, fd) => Open(c, path, answer, fd)
      case WriteCall(fd) => if RouteOf(c.entries, fd) == Fatal then c.(alive := false) else c
  }

  function After(paths: seq<string>, calls: seq<Call>): (c: Client)
    requires |paths| <= MAX_LOCKED_FILES
    ensures |c.entries| == MAX_LOCKED_FILES
  {
    if |calls| == 0 then Fill(paths) else Step(After(paths, calls[..|calls| - 1]), calls[|calls| - 1])
  }

  /** Some open of the run was given this dummy path and this descriptor. */
  ghost predicate OpenedAs(calls: seq<Call>, e: Entry) {
    exists i :: 0 <= i < |calls| && calls[i].OpenCall? && calls[i].answer == e.path && calls[i].fd == e.fd
  }

  ghost predicate Recorded(entries: seq<Entry>, paths: seq<string>, calls: seq<Call>) {
    && |entries| == MAX_LOCKED_FILES >= |paths|
    && (forall k :: 0 <= k < |paths| ==> entries[k].path.Some?)
    && (forall k :: |paths| <= k < |entries| ==> entries[k] == Entry(None, 0))
    && (forall k :: 0 <= k < |entries| && entries[k].fd == 0 ==> entries[k] == Fill(paths).entries[k])
    && (forall k :: 0 <= k < |entries| && entries[k].fd != 0 ==> entries[k].fd > 0 && OpenedAs(calls, entries[k]))
  }

  lemma OpenedAsExtends(calls: seq<Call>, call: Call, e: Entry)
    requires OpenedAs(calls, e)
    ensures OpenedAs(calls + [call], e)
  {
    var i :| 0 <= i < |calls| && calls[i].OpenCall? && calls[i].answer == e.path && calls[i].fd == e.fd;
    assert (calls + [call])[i] == calls[i];
  }

  lemma StepKeepsRecorded(c: Client, paths: seq<string>, calls: seq<Call>, call: Call)
    requires Recorded(c.entries, paths, calls)
    ensures Recorded(Step(c, call).entries, paths, calls + [call])
  {
    var t := Step(c, call).entries;
    forall k | 0 <= k < |t| && t[k].fd != 0 ensures t[k].fd > 0 && OpenedAs(calls + [call], t[k]) {
      if t[k] == c.entries[k] {
        OpenedAsExtends(calls, call, t[k]);
      } else {
        assert (calls + [call])[|calls|] == call;
      }
    }
  }

  lemma {:induction false} RunKeepsRecorded(paths: seq<string>, calls: seq<Call>)
    requires |paths| <= MAX_LOCKED_FILES
    ensures Recorded(After(paths, calls).entries, paths, calls)
  {
    if |calls| > 0 {
      var n := |calls| - 1;
      RunKeepsRecorded(paths, calls[..n]);
      assert calls[..n] + [calls[n]] == calls;
      StepKeepsRecorded(After(paths, calls[..n]), paths, calls[..n], calls[n]);
    }
  }

  /** In every run, a nonzero descriptor that the table reports as locked is routed to the dummy
      path of an open that returned it, so the fatal error of the remote write is out of reach. */
  lemma RoutesToItsOpen(paths: seq<string>, calls: seq<Call>, fd: int)
    requires |paths| <= MAX_LOCKED_FILES && fd != 0 && FdIsLocked(After(paths, calls).entries, fd)
    ensures var r := RouteOf(After(paths, calls).entries, fd);
            fd > 0 && r.Remote? && OpenedAs(calls, Entry(Some(r.name), fd))
  {
    RunKeepsRecorded(paths, calls);
    var e := After(paths, calls).entries;
    var k := FdSlot(e, fd);
    assert OpenedAs(calls, e[k]);
    var i :| 0 <= i < |calls| && calls[i].OpenCall? && calls[i].answer == e[k].path && calls[i].fd == fd;
    assert e[k].path.Some?;
  }

  /** Descriptor 0 marks entries that were never opened, so it is reported as locked in every run
      as long as one entry is unopened, and writing to it is fatal or names a path that no open
      returned. */
  lemma ZeroIsMisrouted(paths: seq<string>, calls: seq<Call>)
    requires |paths| < MAX_LOCKED_FILES
    ensures var e := After(paths, calls).entries;
            && FdIsLocked(e, 0)
            && (RouteOf(e, 0) == Fatal || (exists k :: 0 <= k < |paths| && RouteOf(e, 0) == Remote(paths[k])))
  {
    RunKeepsRecorded(paths, calls);
    var e := After(paths, calls).entries;
    assert e[|paths|].fd == 0;
    var k := FdSlot(e, 0);
    assert e[k] == Fill(paths).entries[k];
  }

  ghost predicate AlwaysRouted(paths: seq<string>, fd: int)
    requires |paths| <= MAX_LOCKED_FILES
  {
    forall calls: seq<Call> :: FdIsLocked(After(paths, calls).entries, fd) ==>
      var r := RouteOf(After(paths, calls).entries, fd);
      r.Remote? && OpenedAs(calls, Entry(Some(r.name), fd))
  }

  /** Routing is right for a descriptor in every run if and only if the descriptor is not 0. */
  lemma RoutedExactlyIfNonzero(paths: seq<string>, fd: int)
    requires |paths| < MAX_LOCKED_FILES
    ensures AlwaysRouted(paths, fd) <==> fd != 0
  {
    if fd != 0 {
      forall calls: seq<Call> | FdIsLocked(After(paths, calls).entries, fd)
        ensures var r := RouteOf(After(paths, calls).entries, fd);
                r.Remote? && OpenedAs(calls, Entry(Some(r.name), fd))
      {
        RoutesToItsOpen(paths, calls, fd);
      }
    } else {
      ZeroIsMisrouted(paths, []);
      assert FdIsLocked(After(paths, []).entries, 0);
    }
  }

  // ----- Agreement with the index that was sent -----

  /** Right after registration the client finds a path at the place the flat index has it. */
  lemma FreshTableAgrees(paths: seq<string>, path: string)
    requires |paths| <= MAX_LOCKED_FILES
    ensures CheckLocked(Fill(paths).entries, path) ==
            if PathIndex(paths, path) < |paths| then Some(PathIndex(paths, path)) else None
  {
    var e := Fill(paths).entries;
    var k, m := PathIndex(paths, path), MatchSlot(e, path);
    assert forall i :: 0 <= i < |paths| ==> e[i].path == Some(paths[i]);
    assert k < |paths| ==> path <= e[k].path.value;
  }

  /** After registration with a daemon that loaded `dir`, the client's match lies in the segment
      of exactly the device that the daemon's own scan returns, or both find nothing. */
  lemma ClientAgreesWithServer(dir: seq<DirEntry>, path: string)
    requires WithinCapacity(dir) && |LoadAll(dir).flat| < MAX_LOCKED_FILES
    ensures var st := LoadAll(dir);
            var d := LockerOf(st.devs, path);
            match CheckLocked(Fill(st.flat).entries, path)
            case None => !Locked(st.devs, path)
            case Some(k) => Locked(st.devs, path) && |Flatten(st.devs[..d])| <= k < |Flatten(st.devs[..d + 1])|
  {
    LoadedIndexesAgree(dir, path);
    FreshTableAgrees(LoadAll(dir).flat, path);
  }

  // ----- The table in place -----

  class LockedPaths {
    const entries: array<Entry>
    var alive: bool

    ghost predicate Valid()
      reads this, entries
    {
      entries.Length == MAX_LOCKED_FILES && forall i :: 0 <= i < entries.Length ==> CStrPath(entries[i])
    }

    ghost function Abs(): Client
      reads this, entries
    {
      Client(entries[..], alive)
    }

    /** Fills the table from the answer to the registration. */
    constructor (paths: seq<string>)
      requires |paths| <= MAX_LOCKED_FILES && CStrs(paths)
      ensures Valid() && Abs() == Fill(paths) && fresh(entries)
    {
      entries := new Entry[MAX_LOCKED_FILES](_ => Entry(None, 0));
      alive := true;
      new;
      var i := 0;
      while i < |paths|
        invariant 0 <= i <= |paths|
        invariant forall k :: 0 <= k < MAX_LOCKED_FILES ==>
                    entries[k] == Entry(if k < i then Some(paths[k]) else None, 0)
        modifies entries
      {
        entries[i] := Entry(Some(paths[i]), 0);
        i := i + 1;
      }
      assert entries[..] == Fill(paths).entries;
    }

    method CheckLockedFile(path: string) returns (i: int)
      requires Valid() && CStr(path)
      ensures i == match CheckLocked(entries[..], path) case None => -1 case Some(k) => k
    {
      i := 0;
      while i < MAX_LOCKED_FILES
        invariant 0 <= i <= MAX_LOCKED_FILES
        invariant forall k :: 0 <= k < i ==> entries[k].path.Some? && !(path <= entries[k].path.value)
      {
        if entries[i].path == None {
          assert MatchSlot(entries[..], path) == i;
          return -1;
        }
        assert CStrPath(entries[i]);
        PrefixCompare(path, entries[i].path.value);
        if StrNEq(Mem(path), Mem(entries[i].path.value), |path|) {
          assert MatchSlot(entries[..], path) == i;
          return i;
        }
        i := i + 1;
      }
      i := -1;
    }

    /** Overlay `open`, with what the daemon answers and the descriptor the kernel gives. */
    method OpenPath(path: string, answer: Option<string>, fd: int)
      requires Valid() && alive && CStr(path) && (answer.Some? ==> CStr(answer.value))
      modifies this, entries
      ensures Valid()
      ensures Abs() == Open(old(Abs()), path, answer, fd)
    {
      var i := CheckLockedFile(path);
      if i < 0 || answer == None || fd <= 0 {
        alive := false;
        return;
      }
      entries[i] := Entry(answer, fd);
    }

    /** Overlay `write`: the route and the data that leaves the process. */
    method WriteFd(fd: int, data: seq<char>) returns (route: Route, sent: seq<char>)
      requires Valid() && alive
      modifies this`alive
      ensures Valid()
      ensures Abs() == Step(old(Abs()), WriteCall(fd))
      ensures route == RouteOf(entries[..], fd)
      ensures sent == if route.Remote? then Payload(data) else data
    {
      var i := 0;
      while i < MAX_LOCKED_FILES && entries[i].fd != fd
        invariant 0 <= i <= MAX_LOCKED_FILES
        invariant forall k :: 0 <= k < i ==> entries[k].fd != fd
      {
        i := i + 1;
      }
      assert i == FdSlot(entries[..], fd);
      if i == MAX_LOCKED_FILES {
        return Local, data;
      }
      if entries[i].path == None {
        alive := false;
        return Fatal, data;
      }
      return Remote(entries[i].path.value), StrNCpy(data, |data|);
    }
  }

  predicate CStrPath(e: Entry) {
    e.path.Some? ==> CStr(e.path.value)
  }
}
