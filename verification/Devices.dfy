/**
 Device table, plug-in loader and the two indexes of locked paths: the per-device lists the server
 scans, and the flat array that registering clients receive.
 */
module Devices {
  import opened Scan
  import opened CStrings

  const MAX_DEVICES: nat := 64
  const MAX_LOCKED_FILES: nat := 1024
  const DEVICE_IDENTIFIER_LEN: nat := 32
  const DEVICE_TYPE_FILE_LOCK: int := 1
  const OBJ_EXTENSION: string := ".so"

  datatype Device = Device(isReady: bool, handle: nat, identifier: string, kind: int, paths: seq<string>)

  /** The slots of a zero-initialised table. */
  const EMPTY_DEVICE := Device(false, 0, "", 0, [])

  predicate Serves(d: Device) {
    d.isReady && d.kind == DEVICE_TYPE_FILE_LOCK
  }

  predicate CStrs(paths: seq<string>) {
    forall i :: 0 <= i < |paths| ==> CStr(paths[i])
  }

  /** First path in a list of which `path` is a prefix. */
  function PathIndex(paths: seq<string>, path: string): (k: nat)
    ensures k <= |paths|
    ensures k < |paths| ==> path <= paths[k]
    ensures forall i :: 0 <= i < k ==> !(path <= paths[i])
  {
    First(paths, (q: string) => path <= q)
  }

  /** First device locking `path`, or `|devs|`. */
  function LockerOf(devs: seq<Device>, path: string): (k: nat)
    ensures k <= |devs|
    ensures k < |devs| ==> Serves(devs[k]) && PathIndex(devs[k].paths, path) < |devs[k].paths|
    ensures forall i :: 0 <= i < k ==> !Serves(devs[i]) || PathIndex(devs[i].paths, path) == |devs[i].paths|
  {
    First(devs, (d: Device) => Serves(d) && PathIndex(d.paths, path) < |d.paths|)
  }

  predicate Locked(devs: seq<Device>, path: string) {
    LockerOf(devs, path) < |devs|
  }

  /** A path is locked exactly when it begins some path of a ready device of the file-lock kind. */
  lemma LockedExactly(devs: seq<Device>, path: string)
    ensures Locked(devs, path) <==>
            exists i, k :: 0 <= i < |devs| && 0 <= k < |devs[i].paths|
                           && devs[i].isReady && devs[i].kind == 1 && path <= devs[i].paths[k]
  {
    var d := LockerOf(devs, path);
    if d < |devs| {
      assert path <= devs[d].paths[PathIndex(devs[d].paths, path)];
    }
  }

  // ----- Flat index against nested scan -----

  function Contribution(d: Device): seq<string> {
    if Serves(d) then d.paths else []
  }

  /** The path lists of all ready devices, in table order. */
  function Flatten(devs: seq<Device>): seq<string> {
    if |devs| == 0 then [] else Flatten(devs[..|devs| - 1]) + Contribution(devs[|devs| - 1])
  }

  lemma {:induction false} FlattenTail(devs: seq<Device>, t: nat)
    requires t <= |devs|
    requires forall i :: t <= i < |devs| ==> !devs[i].isReady
    ensures Flatten(devs) == Flatten(devs[..t])
  {
    if t < |devs| {
      var init := devs[..|devs| - 1];
      FlattenTail(init, t);
      assert init[..t] == devs[..t];
    } else {
      assert devs[..t] == devs;
    }
  }

  /**
   The flat scan and the nested scan agree: the first match in the flat index is the first match
   in the list of the very device the nested scan returns, and one finds nothing exactly when the
   other does.
   */
  lemma {:induction false} FlatAgreesWithNested(devs: seq<Device>, path: string)
    ensures var k := PathIndex(Flatten(devs), path);
            var d := LockerOf(devs, path);
            && (k < |Flatten(devs)| <==> d < |devs|)
            && (d < |devs| ==> k == |Flatten(devs[..d])| + PathIndex(devs[d].paths, path))
  {
    if |devs| > 0 {
      var n := |devs| - 1;
      var init := devs[..n];
      FlatAgreesWithNested(init, path);
      var k := PathIndex(Flatten(devs), path);
      var front := Flatten(init);
      var own := Contribution(devs[n]);
      assert Flatten(devs) == front + own;
      var d0 := LockerOf(init, path);
      if d0 < |init| {
        assert LockerOf(devs, path) == d0 by { LockerExtends(devs, path); }
        assert init[..d0] == devs[..d0];
        ConcatIndex(front, own, path);
      } else {
        LockerExtends(devs, path);
        ConcatIndex(front, own, path);
        assert devs[..n] == init;
      }
    }
  }

  lemma ConcatIndex(a: seq<string>, b: seq<string>, path: string)
    ensures PathIndex(a + b, path) ==
            if PathIndex(a, path) < |a| then PathIndex(a, path) else |a| + PathIndex(b, path)
  {
    var k := if PathIndex(a, path) < |a| then PathIndex(a, path) else |a| + PathIndex(b, path);
    var r := PathIndex(a + b, path);
    assert r < |a + b| ==> (a + b)[r] == if r < |a| then a[r] else b[r - |a|];
    assert k < |a + b| ==> (a + b)[k] == if k < |a| then a[k] else b[k - |a|];
  }

  /** The scan of a longer table: the last slot matters only when no earlier one matched. */
  lemma LockerExtends(devs: seq<Device>, path: string)
    requires |devs| > 0
    ensures var n := |devs| - 1;
            var d0 := LockerOf(devs[..n], path);
            LockerOf(devs, path) ==
            if d0 < n then d0
            else if Serves(devs[n]) && PathIndex(devs[n].paths, path) < |devs[n].paths| then n else n + 1
  {
    var n := |devs| - 1;
    var d0 := LockerOf(devs[..n], path);
    var r := LockerOf(devs, path);
    if r < n {
      assert devs[..n][r] == devs[r];
    }
    if d0 < n {
      assert devs[..n][d0] == devs[d0];
    }
  }

  // ----- Plug-in loading -----

  /** What the dynamic loader and the plug-in answer, in the order `load_device` asks. */
  datatype Plugin = Plugin(
    opens: bool, hasFlags: bool, hasMemory: bool, kind: Option<int>,
    hasInit: bool, initValue: int, hasDataGetter: bool, data: Option<seq<string>>)

  datatype DirEntry = DirEntry(name: string, plugin: Plugin)

  /** The load gets as far as overwriting the target slot. */
  predicate WritesSlot(p: Plugin) {
    p.opens && p.hasFlags && p.hasMemory && p.kind.Some?
  }

  predicate Succeeds(p: Plugin) {
    && WritesSlot(p) && p.hasInit && p.initValue == 0 && p.hasDataGetter && p.data.Some?
    && p.kind.value == DEVICE_TYPE_FILE_LOCK
  }

  predicate IsObjectFile(name: string) {
    |name| > |OBJ_EXTENSION| && name[|name| - |OBJ_EXTENSION|..] == OBJ_EXTENSION
  }

  function Identifier(name: string): string
    requires IsObjectFile(name)
  {
    Take(name[..|name| - |OBJ_EXTENSION|], DEVICE_IDENTIFIER_LEN - 1)
  }

  /** An object file is named by a non-empty stem and ".so". */
  lemma ObjectFileExactly(name: string)
    ensures IsObjectFile(name) <==> exists stem :: stem != "" && name == stem + ".so"
  {
    if IsObjectFile(name) {
      var stem := name[..|name| - 3];
      assert name == stem + ".so";
    }
  }

  /** The identifier is the stem, cut after 31 characters. */
  lemma IdentifierIsStem(stem: string)
    requires stem != ""
    ensures IsObjectFile(stem + ".so")
    ensures Identifier(stem + ".so") == if |stem| <= 31 then stem else stem[..31]
  {
    var name := stem + ".so";
    assert name[|name| - 3..] == ".so" && name[..|name| - 3] == stem;
  }

  /** `Exited`: the flat array overflowed and the daemon exits.  `OutOfBounds`: a slot past the
      device table was written. */
  datatype Status = Loading | Exited | OutOfBounds

  datatype LoadState = LoadState(
    devs: seq<Device>, flat: seq<string>, target: nat, attempts: nat, status: Status)

  function InitialLoad(): LoadState {
    LoadState(seq(MAX_DEVICES, _ => EMPTY_DEVICE), [], 0, 0, Loading)
  }

  function LoadDevice(st: LoadState, e: DirEntry): LoadState
    requires |st.devs| == MAX_DEVICES && IsObjectFile(e.name)
  {
    var next := st.(attempts := st.attempts + 1);
    if !WritesSlot(e.plugin) then next
    else if st.target >= MAX_DEVICES then next.(status := OutOfBounds)
    else
      var dev := Device(false, st.attempts, Identifier(e.name), e.plugin.kind.value, []);
      if !Succeeds(e.plugin) then next.(devs := st.devs[st.target := dev])
      else if |st.flat| + |e.plugin.data.value| > MAX_LOCKED_FILES then next.(status := Exited)
      else next.(devs := st.devs[st.target := dev.(isReady := true, paths := e.plugin.data.value)],
                 flat := st.flat + e.plugin.data.value,
                 target := st.target + 1)
  }

  function LoadEntry(st: LoadState, e: DirEntry): LoadState
    requires |st.devs| == MAX_DEVICES
  {
    if st.status != Loading || !IsObjectFile(e.name) then st else LoadDevice(st, e)
  }

  function LoadAll(dir: seq<DirEntry>): (st: LoadState)
    ensures |st.devs| == MAX_DEVICES
  {
    if |dir| == 0 then InitialLoad() else LoadEntry(LoadAll(dir[..|dir| - 1]), dir[|dir| - 1])
  }

  predicate LoadsEntry(e: DirEntry) {
    IsObjectFile(e.name) && Succeeds(e.plugin)
  }

  /** Number of object files tried. */
  function Attempts(dir: seq<DirEntry>): nat {
    if |dir| == 0 then 0 else Attempts(dir[..|dir| - 1]) + if IsObjectFile(dir[|dir| - 1].name) then 1 else 0
  }

  /** The device an entry becomes when it is the `attempts`-th object file tried, if it loads. */
  function LoadedAs(e: DirEntry, attempts: nat): seq<Device> {
    if LoadsEntry(e)
    then [Device(true, attempts, Identifier(e.name), DEVICE_TYPE_FILE_LOCK, e.plugin.data.value)]
    else []
  }

  /** The devices of the plug-ins that load, in directory order. */
  function LoadedDevices(dir: seq<DirEntry>): seq<Device> {
    if |dir| == 0 then []
    else var init := dir[..|dir| - 1];
         LoadedDevices(init) + LoadedAs(dir[|dir| - 1], Attempts(init))
  }

  /** The table after loading: the loaded devices at the front, nothing ready behind them. */
  ghost predicate Indexed(st: LoadState, loaded: seq<Device>) {
    && |st.devs| == MAX_DEVICES
    && st.target == |loaded| <= MAX_DEVICES
    && st.devs[..st.target] == loaded
    && (forall i :: st.target <= i < MAX_DEVICES ==> !st.devs[i].isReady)
    && st.flat == Flatten(loaded) && |st.flat| <= MAX_LOCKED_FILES
  }

  /** Room for every load: 64 devices, 1024 paths. */
  ghost predicate WithinCapacity(dir: seq<DirEntry>) {
    |Flatten(LoadedDevices(dir))| <= MAX_LOCKED_FILES && SlotsSuffice(dir)
  }

  /** Every object file that gets as far as writing a slot finds fewer than 64 devices loaded. */
  ghost predicate SlotsSuffice(dir: seq<DirEntry>) {
    |dir| > 0 ==>
      var init := dir[..|dir| - 1];
      SlotsSuffice(init) && SlotFor(dir[|dir| - 1], LoadedDevices(init))
  }

  ghost predicate SlotFor(e: DirEntry, loaded: seq<Device>) {
    IsObjectFile(e.name) && WritesSlot(e.plugin) ==> |loaded| < MAX_DEVICES
  }

  lemma FlattenOne(loaded: seq<Device>, e: DirEntry, attempts: nat)
    ensures Flatten(loaded + LoadedAs(e, attempts)) ==
            Flatten(loaded) + if LoadsEntry(e) then e.plugin.data.value else []
  {
    var more := loaded + LoadedAs(e, attempts);
    if LoadsEntry(e) {
      assert more[..|more| - 1] == loaded;
    } else {
      assert more == loaded;
    }
  }

  lemma LoadEntryIndexes(st: LoadState, loaded: seq<Device>, e: DirEntry)
    requires Indexed(st, loaded) && st.status == Loading
    ensures var more := loaded + LoadedAs(e, st.attempts);
            && (LoadEntry(st, e).status == Loading <==>
                |Flatten(more)| <= MAX_LOCKED_FILES && SlotFor(e, loaded))
            && (LoadEntry(st, e).status == Loading ==> Indexed(LoadEntry(st, e), more))
  {
    FlattenOne(loaded, e, st.attempts);
    if LoadEntry(st, e).status == Loading {
      FrontAfterEntry(st, loaded, e);
    }
  }

  /** The front of the table after one more entry. */
  lemma FrontAfterEntry(st: LoadState, loaded: seq<Device>, e: DirEntry)
    requires |st.devs| == MAX_DEVICES && st.target == |loaded| <= MAX_DEVICES && st.devs[..st.target] == loaded
    requires st.status == Loading && LoadEntry(st, e).status == Loading
    ensures var next := LoadEntry(st, e);
            && |next.devs| == MAX_DEVICES && next.target <= MAX_DEVICES
            && next.devs[..next.target] == loaded + LoadedAs(e, st.attempts)
  {
    var next := LoadEntry(st, e);
    if LoadsEntry(e) {
      assert next.devs[..next.target] == loaded + LoadedAs(e, st.attempts);
    } else {
      assert next.devs[..next.target] == loaded == loaded + [];
    }
  }

  /**
   Loading any directory, with any mixture of failing plug-ins: it completes exactly when the
   plug-ins fit, and then the table starts with exactly the devices that loaded, in order, each
   under the number of object files tried before it, and the flat array is the concatenation of
   their path lists.
   */
  lemma {:induction false} LoadAllIndexes(dir: seq<DirEntry>)
    ensures LoadAll(dir).status == Loading <==> WithinCapacity(dir)
    ensures LoadAll(dir).status == Loading ==>
              Indexed(LoadAll(dir), LoadedDevices(dir)) && LoadAll(dir).attempts == Attempts(dir)
  {
    if |dir| > 0 {
      var init, e := dir[..|dir| - 1], dir[|dir| - 1];
      LoadAllIndexes(init);
      CapacityExtends(dir);
      if LoadAll(init).status == Loading {
        LoadEntryIndexes(LoadAll(init), LoadedDevices(init), e);
      }
    }
  }

  /** Handles number the object files of the directory, the failing ones included. */
  lemma {:induction false} HandlesCountObjectFiles(dir: seq<DirEntry>)
    requires LoadAll(dir).status == Loading
    ensures LoadAll(dir).attempts == Count(dir, (e: DirEntry) => IsObjectFile(e.name))
  {
    if |dir| > 0 {
      HandlesCountObjectFiles(dir[..|dir| - 1]);
    }
  }

  /** The plug-in that loads: every symbol is there, `init` returns 0, the kind is 1, and there is a
      list of paths. */
  function Working(paths: seq<string>): Plugin {
    Plugin(true, true, true, Some(1), true, 0, true, Some(paths))
  }

  /** The directory entry is a working plug-in with `path` in its list. */
  ghost predicate Brings(e: DirEntry, path: string) {
    exists stem, paths :: stem != "" && e == DirEntry(stem + ".so", Working(paths)) && path in paths
  }

  lemma BringsExactly(e: DirEntry, path: string)
    ensures Brings(e, path) <==> LoadsEntry(e) && path in e.plugin.data.value
  {
    ObjectFileExactly(e.name);
    if LoadsEntry(e) && path in e.plugin.data.value {
      var stem :| stem != "" && e.name == stem + ".so";
      assert e == DirEntry(stem + ".so", Working(e.plugin.data.value));
    }
  }

  /** After any completed load the flat array holds exactly the paths of the working plug-ins of the
      directory: no failing plug-in contributes a path, and no working one is passed over. */
  lemma {:induction false} FlatHoldsExactly(dir: seq<DirEntry>, path: string)
    requires LoadAll(dir).status == Loading
    ensures path in LoadAll(dir).flat <==> exists i :: 0 <= i < |dir| && Brings(dir[i], path)
  {
    if |dir| > 0 {
      var n := |dir| - 1;
      FlatHoldsExactly(dir[..n], path);
      BringsExactly(dir[n], path);
      EntryAdds(LoadAll(dir[..n]), dir[n]);
      assert forall i :: 0 <= i < n ==> dir[..n][i] == dir[i];
    }
  }

  lemma EntryAdds(st: LoadState, e: DirEntry)
    requires |st.devs| == MAX_DEVICES && LoadEntry(st, e).status == Loading
    ensures st.status == Loading
    ensures LoadEntry(st, e).flat == st.flat + if LoadsEntry(e) then e.plugin.data.value else []
  {
    assert st.flat + [] == st.flat;
  }

  /**
   A directory of one object file, for every outcome of the loader's questions.  The device is
   ready and its paths are in the flat array exactly when every symbol is there, `init` returned 0,
   the kind is 1 and there are at most 1024 paths.
   */
  lemma OneEntryLoads(stem: string, opens: bool, hasFlags: bool, hasMemory: bool, kind: Option<int>,
                      hasInit: bool, initValue: int, hasDataGetter: bool, data: Option<seq<string>>)
    requires stem != ""
    ensures var p := Plugin(opens, hasFlags, hasMemory, kind, hasInit, initValue, hasDataGetter, data);
            var st := LoadAll([DirEntry(stem + ".so", p)]);
            var id := if |stem| <= 31 then stem else stem[..31];
            var loads := opens && hasFlags && hasMemory && kind == Some(1) && hasInit && initValue == 0
                         && hasDataGetter && data.Some?;
            && |st.devs| == 64
            && (st.status == Exited <==> loads && |data.value| > 1024)
            && (st.status == Loading <==> !loads || |data.value| <= 1024)
            && (loads && |data.value| <= 1024 ==>
                  st.flat == data.value && st.devs[0] == Device(true, 0, id, 1, data.value))
            && (!loads ==> st.flat == [] && !st.devs[0].isReady)
            && (!loads && opens && hasFlags && hasMemory && kind.Some? ==>
                  st.devs[0] == Device(false, 0, id, kind.value, []))
  {
    var p := Plugin(opens, hasFlags, hasMemory, kind, hasInit, initValue, hasDataGetter, data);
    var e := DirEntry(stem + ".so", p);
    IdentifierIsStem(stem);
    assert [e][..0] == [];
    assert LoadAll([e]) == LoadDevice(InitialLoad(), e);
    assert data.Some? ==> [] + data.value == data.value;
  }

  lemma CapacityExtends(dir: seq<DirEntry>)
    requires |dir| > 0
    ensures var init := dir[..|dir| - 1];
            WithinCapacity(dir) <==>
            WithinCapacity(init) && |Flatten(LoadedDevices(dir))| <= MAX_LOCKED_FILES
            && SlotFor(dir[|dir| - 1], LoadedDevices(init))
  {
    var init := dir[..|dir| - 1];
    FlattenOne(LoadedDevices(init), dir[|dir| - 1], Attempts(init));
  }

  /** The flat array is what concatenating the lists of the ready devices of the table gives. */
  lemma FlatIsFlatten(st: LoadState, loaded: seq<Device>)
    requires Indexed(st, loaded)
    ensures st.flat == Flatten(st.devs)
  {
    FlattenTail(st.devs, st.target);
  }

  /** After any completed load, a path found in the flat array is locked by the device whose
      segment of the array it was found in, and a path not found there is not locked at all. */
  lemma LoadedIndexesAgree(dir: seq<DirEntry>, path: string)
    requires WithinCapacity(dir)
    ensures var st := LoadAll(dir);
            var k := PathIndex(st.flat, path);
            var d := LockerOf(st.devs, path);
            && (k < |st.flat| <==> Locked(st.devs, path))
            && (k < |st.flat| ==> |Flatten(st.devs[..d])| <= k < |Flatten(st.devs[..d + 1])|)
  {
    LoadAllIndexes(dir);
    IndexesAgree(LoadAll(dir), LoadedDevices(dir), path);
  }

  lemma IndexesAgree(st: LoadState, loaded: seq<Device>, path: string)
    requires Indexed(st, loaded)
    ensures var k := PathIndex(st.flat, path);
            var d := LockerOf(st.devs, path);
            && (k < |st.flat| <==> Locked(st.devs, path))
            && (k < |st.flat| ==> |Flatten(st.devs[..d])| <= k < |Flatten(st.devs[..d + 1])|)
  {
    FlatIsFlatten(st, loaded);
    FlatAgreesWithNested(st.devs, path);
    var d := LockerOf(st.devs, path);
    if d < |st.devs| {
      assert st.devs[..d + 1][..d] == st.devs[..d];
    }
  }

  // ----- The tables in place -----

  class DeviceTable {
    const devices: array<Device>
    const lockedPaths: array<Option<string>>
    /** The strings held by `lockedPaths`, which are packed at its front. */
    ghost var flat: seq<string>

    ghost predicate Valid()
      reads this, devices, lockedPaths
    {
      && devices.Length == MAX_DEVICES && lockedPaths.Length == MAX_LOCKED_FILES
      && |flat| <= MAX_LOCKED_FILES
      && (forall i :: 0 <= i < |flat| ==> lockedPaths[i] == Some(flat[i]))
      && (forall i :: |flat| <= i < MAX_LOCKED_FILES ==> lockedPaths[i] == None)
    }

    constructor ()
      ensures Valid() && flat == [] && devices[..] == InitialLoad().devs
      ensures fresh(devices) && fresh(lockedPaths)
    {
      devices := new Device[MAX_DEVICES](_ => EMPTY_DEVICE);
      lockedPaths := new Option<string>[MAX_LOCKED_FILES](_ => None);
      flat := [];
    }

    /** Returns false where the source exits. */
    method AddLockedFilePath(path: string) returns (ok: bool)
      requires Valid()
      modifies `flat, lockedPaths
      ensures Valid()
      ensures ok <==> |old(flat)| < MAX_LOCKED_FILES
      ensures flat == if ok then old(flat) + [path] else old(flat)
    {
      var i := 0;
      while i < MAX_LOCKED_FILES && lockedPaths[i] != None
        invariant 0 <= i <= |flat|
      {
        i := i + 1;
      }
      ok := i < MAX_LOCKED_FILES;
      if ok {
        lockedPaths[i] := Some(path);
        flat := flat + [path];
      }
    }

    /** Copies every path of the list into the flat array; false where the source exits. */
    method AddAll(paths: seq<string>) returns (ok: bool)
      requires Valid()
      modifies `flat, lockedPaths
      ensures Valid()
      ensures ok <==> |old(flat)| + |paths| <= MAX_LOCKED_FILES
      ensures ok ==> flat == old(flat) + paths
    {
      ok := true;
      var i := 0;
      while i < |paths| && ok
        invariant 0 <= i <= |paths| && Valid()
        invariant ok ==> flat == old(flat) + paths[..i]
        invariant !ok ==> |old(flat)| + |paths| > MAX_LOCKED_FILES
      {
        ok := AddLockedFilePath(paths[i]);
        i := i + 1;
      }
    }

    /** One pass of the directory loop over an object file. */
    method Load(e: DirEntry, target: nat, attempts: nat) returns (target': nat, status: Status)
      requires Valid() && IsObjectFile(e.name)
      modifies `flat, devices, lockedPaths
      ensures Valid()
      ensures var st := LoadDevice(LoadState(old(devices[..]), old(flat), target, attempts, Loading), e);
              status == st.status &&
              (status == Loading ==> devices[..] == st.devs && flat == st.flat && target' == st.target)
    {
      target', status := target, Loading;
      var p := e.plugin;
      if !p.opens || !p.hasFlags || !p.hasMemory || p.kind == None {
        return;
      }
      if target >= MAX_DEVICES {
        status := OutOfBounds;
        return;
      }
      devices[target] := Device(false, attempts, Identifier(e.name), p.kind.value, []);
      if !p.hasInit || p.initValue != 0 || !p.hasDataGetter || p.data == None
         || p.kind.value != DEVICE_TYPE_FILE_LOCK {
        return;
      }
      devices[target] := devices[target].(paths := p.data.value);
      var ok := AddAll(p.data.value);
      if !ok {
        status := Exited;
        return;
      }
      devices[target] := devices[target].(isReady := true);
      target' := target + 1;
    }

    method LoadDevices(dir: seq<DirEntry>) returns (status: Status)
      requires Valid() && flat == [] && devices[..] == InitialLoad().devs
      modifies `flat, devices, lockedPaths
      ensures Valid()
      ensures status == LoadAll(dir).status
      ensures status == Loading ==> devices[..] == LoadAll(dir).devs && flat == LoadAll(dir).flat
    {
      status := Loading;
      var target, attempts, i := 0, 0, 0;
      assert dir[..0] == [];
      while i < |dir| && status == Loading
        invariant 0 <= i <= |dir| && Valid()
        invariant status == LoadAll(dir[..i]).status
        invariant status == Loading ==>
                    LoadAll(dir[..i]) == LoadState(devices[..], flat, target, attempts, Loading)
      {
        assert dir[..i + 1][..i] == dir[..i];
        if IsObjectFile(dir[i].name) {
          target, status := Load(dir[i], target, attempts);
          attempts := attempts + 1;
        }
        i := i + 1;
      }
      if status != Loading {
        LoadAllStops(dir, i);
      }
      assert dir[..|dir|] == dir;
    }

    /** The nested scan: the first ready device with a locked path that `pathname` is a prefix of. */
    method FileLocker(pathname: string) returns (d: nat)
      requires Valid() && CStr(pathname)
      requires forall i :: 0 <= i < MAX_DEVICES ==> CStrs(devices[i].paths)
      ensures d == LockerOf(devices[..], pathname)
    {
      d := 0;
      while d < MAX_DEVICES
        invariant 0 <= d <= MAX_DEVICES
        invariant forall i :: 0 <= i < d ==>
                    !Serves(devices[i]) || PathIndex(devices[i].paths, pathname) == |devices[i].paths|
      {
        if devices[d].isReady && devices[d].kind == DEVICE_TYPE_FILE_LOCK {
          var s := 0;
          while s < |devices[d].paths|
            invariant 0 <= s <= |devices[d].paths|
            invariant forall i :: 0 <= i < s ==> !(pathname <= devices[d].paths[i])
          {
            PrefixCompare(pathname, devices[d].paths[s]);
            if StrNEq(Mem(pathname), Mem(devices[d].paths[s]), |pathname|) {
              return;
            }
            s := s + 1;
          }
        }
        d := d + 1;
      }
    }

    /**
     The list sent to a registering client.  The counting loop looks for the terminating NULL, so
     it runs off a full array: `overrun` reports that.
     */
    method LockedPathList() returns (paths: seq<string>, overrun: bool)
      requires Valid()
      ensures overrun <==> |flat| == MAX_LOCKED_FILES
      ensures !overrun ==> paths == flat
    {
      var n := 0;
      while n < MAX_LOCKED_FILES && lockedPaths[n] != None
        invariant 0 <= n <= |flat|
      {
        n := n + 1;
      }
      overrun := n == MAX_LOCKED_FILES;
      paths := [];
      if !overrun {
        var i := 0;
        while i < n
          invariant 0 <= i <= n && paths == flat[..i]
        {
          paths := paths + [lockedPaths[i].value];
          i := i + 1;
        }
      }
    }
  }

  /** A load that stopped stays stopped. */
  lemma {:induction false} LoadAllStops(dir: seq<DirEntry>, i: nat)
    requires i <= |dir| && LoadAll(dir[..i]).status != Loading
    ensures LoadAll(dir).status == LoadAll(dir[..i]).status
  {
    if i < |dir| {
      var init := dir[..|dir| - 1];
      assert init[..i] == dir[..i];
      LoadAllStops(init, i);
    } else {
      assert dir[..i] == dir;
    }
  }
}
