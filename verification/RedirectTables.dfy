/**
 The two redirection tables in place: fixed-size buffers filled by `strncpy` and searched by
 `strncmp`, refining the lists of `Redirection`.
 */
module RedirectTables {
  import opened Scan
  import opened CStrings
  import opened Devices
  import opened Redirection

  /** A slot of `dummy_map`: two buffers of 128 characters. */
  datatype DummySlot = DummySlot(init: bool, pathname: seq<char>, dummypath: seq<char>)

  datatype FdSlot = FdSlot(path: Option<string>, fd: int)

  function Buffer(s: string): (b: seq<char>)
    requires CStr(s)
    ensures |b| == DUMMY_FILE_PATH_LEN
  {
    VisibleMem(s, DUMMY_FILE_PATH_LEN);
    StrNCpy(Mem(s), DUMMY_FILE_PATH_LEN)
  }

  /** A buffer holds no more of a string than its key. */
  lemma BufferOfKey(s: string)
    requires CStr(s)
    ensures CStr(Key(s)) && Buffer(s) == Buffer(Key(s))
  {
    CpyTake(s, DUMMY_FILE_PATH_LEN);
  }

  lemma {:induction false} CpyTake(s: string, n: nat)
    requires CStr(s)
    ensures Readable(Mem(s), n) && Readable(Mem(Take(s, n)), n)
    ensures StrNCpy(Mem(s), n) == StrNCpy(Mem(Take(s, n)), n)
    decreases n
  {
    VisibleMem(s, n);
    VisibleMem(Take(s, n), n);
    if n > 0 && s != [] {
      CpyTake(s[1..], n - 1);
      TakeFirst(s, n);
      assert Mem(s)[1..] == Mem(s[1..]);
      assert Mem(Take(s, n))[1..] == Mem(Take(s[1..], n - 1));
    }
  }

  ghost predicate HoldsEntry(slot: DummySlot, e: MemoEntry) {
    && CStr(e.key) && CStr(e.dummy) && Key(e.key) == e.key && Key(e.dummy) == e.dummy
    && slot == DummySlot(true, Buffer(e.key), Buffer(e.dummy))
  }

  ghost predicate HoldsRecord(slot: FdSlot, r: OpenRecord) {
    CStr(r.dummy) && slot == FdSlot(Some(r.dummy), r.fd)
  }

  /** The comparison of the lookup loop. */
  predicate SlotMatches(slot: DummySlot, path: string)
    requires CStr(path) && |slot.pathname| == DUMMY_FILE_PATH_LEN
  {
    VisibleMem(path, DUMMY_FILE_PATH_LEN);
    StrNEq(Mem(path), slot.pathname, DUMMY_FILE_PATH_LEN)
  }

  /** A filled slot matches a path exactly when it holds the path's key. */
  lemma SlotMatchesKey(slot: DummySlot, e: MemoEntry, path: string)
    requires HoldsEntry(slot, e) && CStr(path)
    ensures |slot.pathname| == DUMMY_FILE_PATH_LEN
    ensures SlotMatches(slot, path) <==> e.key == Key(path)
  {
    BufferCompare(path, e.key, DUMMY_FILE_PATH_LEN);
  }

  lemma EntryHeld(path: string, name: string)
    requires CStr(path) && CStr(name) && |name| == DUMMY_NAME_LEN
    ensures HoldsEntry(DummySlot(true, Buffer(path), Buffer(name)), MemoEntry(Key(path), Key(name)))
  {
    BufferOfKey(path);
  }

  /** The C string at the start of a buffer. */
  function Contents(b: seq<char>): string
    requires |b| == DUMMY_FILE_PATH_LEN
  {
    Visible(b, DUMMY_FILE_PATH_LEN)
  }

  lemma ContentsOfBuffer(s: string)
    requires CStr(s)
    ensures Contents(Buffer(s)) == Key(s)
  {
    BufferReads(s, DUMMY_FILE_PATH_LEN);
  }

  predicate TempName(t: Temp) {
    t.Temp? ==> CStr(t.name) && |t.name| == DUMMY_NAME_LEN
  }

  class Redirector {
    const table: DeviceTable
    const dummyMap: array<DummySlot>
    const fdMap: array<FdSlot>
    var crashed: bool
    ghost var memo: seq<MemoEntry>
    ghost var opens: seq<OpenRecord>

    ghost predicate MemoHeld()
      reads this, dummyMap
    {
      && dummyMap.Length == MAX_LOCKED_FILES && |memo| <= MAX_LOCKED_FILES
      && (forall i :: 0 <= i < |memo| ==> HoldsEntry(dummyMap[i], memo[i]))
      && (forall i :: |memo| <= i < MAX_LOCKED_FILES ==> !dummyMap[i].init)
    }

    ghost predicate OpensHeld()
      reads this, fdMap
    {
      && fdMap.Length == MAX_LOCKED_FILES && |opens| <= MAX_LOCKED_FILES
      && (forall i :: 0 <= i < |opens| ==> HoldsRecord(fdMap[i], opens[i]))
      && (forall i :: |opens| <= i < MAX_LOCKED_FILES ==> fdMap[i].path == None)
    }

    ghost predicate TableHeld()
      reads table, table.devices, table.lockedPaths
    {
      table.Valid() && forall i :: 0 <= i < MAX_DEVICES ==> CStrs(table.devices[i].paths)
    }

    ghost predicate Valid()
      reads this, dummyMap, fdMap, table, table.devices, table.lockedPaths
    {
      MemoHeld() && OpensHeld() && TableHeld()
    }

    ghost function Abs(): State
      reads this
    {
      State(memo, opens, crashed)
    }

    constructor (table: DeviceTable)
      requires table.Valid() && forall i :: 0 <= i < MAX_DEVICES ==> CStrs(table.devices[i].paths)
      ensures Valid() && Abs() == INITIAL && this.table == table
      ensures fresh(dummyMap) && fresh(fdMap)
    {
      this.table := table;
      dummyMap := new DummySlot[MAX_LOCKED_FILES](_ => DummySlot(false, [], []));
      fdMap := new FdSlot[MAX_LOCKED_FILES](_ => FdSlot(None, 0));
      crashed, memo, opens := false, [], [];
    }

    /** First filled slot whose path buffer compares equal to `path`. */
    method FindDummy(path: string) returns (k: nat)
      requires MemoHeld() && CStr(path)
      ensures var m := MemoIndex(memo, Key(path)); k == if m < |memo| then m else MAX_LOCKED_FILES
    {
      k := 0;
      while k < MAX_LOCKED_FILES
        invariant 0 <= k <= MAX_LOCKED_FILES
        invariant forall i :: 0 <= i < k && i < |memo| ==> memo[i].key != Key(path)
      {
        if dummyMap[k].init {
          SlotMatchesKey(dummyMap[k], memo[k], path);
          if SlotMatches(dummyMap[k], path) {
            return;
          }
        }
        k := k + 1;
      }
    }

    /** Fills the first slot whose flag is clear; the flag becomes the descriptor of the file. */
    method AddDummy(path: string, fd: int, name: string) returns (k: nat)
      requires MemoHeld() && CStr(path) && CStr(name) && |name| == DUMMY_NAME_LEN
      modifies this`memo, dummyMap
      ensures MemoHeld()
      ensures k == |old(memo)|
      ensures memo == old(memo) + if k < MAX_LOCKED_FILES && fd != 0 then [MemoEntry(Key(path), Key(name))] else []
      ensures k < MAX_LOCKED_FILES ==> dummyMap[k].dummypath == Buffer(name)
    {
      k := 0;
      while k < MAX_LOCKED_FILES && dummyMap[k].init
        invariant 0 <= k <= |memo|
      {
        k := k + 1;
      }
      if k < MAX_LOCKED_FILES {
        EntryHeld(path, name);
        dummyMap[k] := DummySlot(fd != 0, Buffer(path), Buffer(name));
        if fd != 0 {
          memo := memo + [MemoEntry(Key(path), Key(name))];
        }
      }
    }

    method GetDummyFile(path: string, temp: Temp) returns (dummy: Option<string>)
      requires MemoHeld() && CStr(path) && TempName(temp)
      modifies this`memo, dummyMap
      ensures MemoHeld()
      ensures (memo, dummy) == GetDummy(old(memo), path, temp)
      ensures dummy.Some? ==> CStr(dummy.value)
    {
      var k := FindDummy(path);
      if k < MAX_LOCKED_FILES {
        assert HoldsEntry(dummyMap[k], memo[k]);
        ContentsOfBuffer(memo[k].dummy);
        return Some(Contents(dummyMap[k].dummypath));
      }
      if temp.NoTemp? {
        return None;
      }
      k := AddDummy(path, temp.fd, temp.name);
      assert old(memo) + [] == old(memo);
      if k < MAX_LOCKED_FILES {
        ContentsOfBuffer(temp.name);
        return Some(Contents(dummyMap[k].dummypath));
      }
      dummy := None;
    }

    /** Fills the first free slot of the descriptor table; false when there is none, in which
        case the dummy path is not looked at. */
    method RecordFd(path: string, dummy: Option<string>, realFd: int) returns (out: Outcome)
      requires OpensHeld() && !crashed && (dummy.Some? ==> CStr(dummy.value))
      modifies this`opens, this`crashed, fdMap
      ensures OpensHeld()
      ensures |old(opens)| >= MAX_LOCKED_FILES ==> out == Refused && opens == old(opens) && !crashed
      ensures |old(opens)| < MAX_LOCKED_FILES && dummy.None? ==> out == Crashed && opens == old(opens) && crashed
      ensures |old(opens)| < MAX_LOCKED_FILES && dummy.Some? ==>
                out == Opened(dummy.value) && opens == old(opens) + [OpenRecord(path, dummy.value, realFd)] && !crashed
    {
      var k := 0;
      while k < MAX_LOCKED_FILES && fdMap[k].path != None
        invariant 0 <= k <= |opens|
      {
        k := k + 1;
      }
      if k == MAX_LOCKED_FILES {
        return Refused;
      }
      if dummy == None {
        crashed := true;
        return Crashed;
      }
      fdMap[k] := FdSlot(dummy, realFd);
      opens := opens + [OpenRecord(path, dummy.value, realFd)];
      out := Opened(dummy.value);
    }

    method OpenFile(path: string, realFd: int, temp: Temp) returns (out: Outcome)
      requires Valid() && CStr(path) && TempName(temp) && !crashed
      modifies this, dummyMap, fdMap
      ensures Valid()
      ensures (Abs(), out) == ServeOpen(old(Abs()), table.devices[..], path, realFd, temp)
    {
      var locker := table.FileLocker(path);
      if locker == MAX_DEVICES || realFd == -1 {
        return Refused;
      }
      var dummy := GetDummyFile(path, temp);
      out := RecordFd(path, dummy, realFd);
    }

    method FdFromDummyPath(name: string) returns (fd: int)
      requires OpensHeld() && CStr(name)
      ensures fd == FdOf(opens, name)
    {
      var i := 0;
      while i < MAX_LOCKED_FILES
        invariant 0 <= i <= MAX_LOCKED_FILES
        invariant forall k :: 0 <= k < i && k < |opens| ==> !(name <= opens[k].dummy)
      {
        if fdMap[i].path != None {
          assert HoldsRecord(fdMap[i], opens[i]);
          PrefixCompare(name, opens[i].dummy);
          if StrNEq(Mem(fdMap[i].path.value), Mem(name), |name|) {
            return fdMap[i].fd;
          }
        }
        i := i + 1;
      }
      fd := -1;
    }
  }
}
