/**
 The listener in place: one message at a time over the daemon's mutable tables.
 */
module Listener {
  import opened Scan
  import opened CStrings
  import opened Devices
  import opened Dispatch
  import opened RedirectTables
  import Registry
  import Redirection

  predicate WellFormed(m: Message) {
    match m
    case OpenFile(path, _, temp) => CStr(path) && TempName(temp)
    case WriteFile(name, _, _) => CStr(name)
    case _ => true
  }

  class Daemon {
    const tables: Registry.Tables
    const redirector: Redirector

    /** Fewer than 1024 locked paths, so that the list sent to clients is terminated. */
    ghost predicate Valid()
      reads tables, tables.tenants, tables.pipes
      reads redirector, redirector.dummyMap, redirector.fdMap
      reads redirector.table, redirector.table.devices, redirector.table.lockedPaths
    {
      tables.Valid() && redirector.Valid() && |redirector.table.flat| < MAX_LOCKED_FILES
    }

    ghost function Abs(): Server
      reads tables, tables.tenants, tables.pipes, redirector
    {
      Server(tables.Abs(), redirector.Abs())
    }

    constructor (tables: Registry.Tables, redirector: Redirector)
      ensures this.tables == tables && this.redirector == redirector
    {
      this.tables := tables;
      this.redirector := redirector;
    }

    method Register(pipe: int, pid: int) returns (reply: Reply)
      requires Valid()
      modifies tables.tenants, tables.pipes
      ensures Valid()
      ensures (Abs(), reply) == ServeRegister(old(Abs()), redirector.table.flat, pipe, pid)
    {
      var out := tables.RegisterClient(pipe, pid);
      if out == Registry.Full {
        return Reply(1, Registration([]));
      }
      var paths, _ := redirector.table.LockedPathList();
      reply := Reply(0, Registration(paths));
    }

    method Open(path: string, realFd: int, temp: Redirection.Temp) returns (reply: Reply)
      requires Valid() && !redirector.crashed && CStr(path) && TempName(temp)
      modifies redirector, redirector.dummyMap, redirector.fdMap
      ensures Valid()
      ensures (Abs(), reply) == ServeOpen(old(Abs()), redirector.table.devices[..], path, realFd, temp)
    {
      var out := redirector.OpenFile(path, realFd, temp);
      match out
      case Opened(dummy) => reply := Reply(0, OpenedFile(dummy));
      case Crashed => reply := Gone;
      case _ => reply := Reply(1, OpenedFile(""));
    }

    /** `call` is the call of `write` to the kernel. */
    method Write(name: string, data: seq<char>, written: int) returns (reply: Reply, call: Redirection.Outcome)
      requires Valid() && !redirector.crashed && CStr(name)
      ensures reply == ServeWrite(Abs(), name, written)
      ensures call == Redirection.Step(redirector.Abs(), redirector.table.devices[..], Redirection.Write(name, data)).1
    {
      var fd := redirector.FdFromDummyPath(name);
      call := Redirection.WriteTo(fd, data);
      var n := if fd == -1 then -1 else written;
      reply := if n < 0 then Reply(1, Written(Unsigned64(n))) else Reply(0, Written(Unsigned64(n)));
    }

    /** The body of the listening loop; `call` is the call of `write` to the kernel, if there is one. */
    method Handle(pipe: int, m: Message) returns (reply: Reply, call: Option<Redirection.Outcome>)
      requires Valid() && WellFormed(m)
      modifies tables.tenants, tables.pipes, redirector, redirector.dummyMap, redirector.fdMap
      ensures Valid()
      ensures (Abs(), reply) ==
              Serve(old(Abs()), redirector.table.devices[..], redirector.table.flat, pipe, m)
      ensures call == WriteCall(old(Abs()), redirector.table.devices[..], pipe, m)
    {
      call := None;
      if redirector.crashed {
        return Gone, None;
      }
      var tenant := tables.FindTenant(pipe);
      if tenant == None && !m.RegisterClient? {
        return Silent, None;
      }
      match m
      case RegisterClient(pid) =>
        reply := Register(pipe, pid);
      case UnregisterClient =>
        var out := tables.UnregisterClient(pipe, tenant.value);
        reply := if out.Unregistered? then Reply(0, Generic) else Reply(1, NoBody);
      case OpenFile(path, realFd, temp) =>
        reply := Open(path, realFd, temp);
      case WriteFile(name, data, written) =>
        var out;
        reply, out := Write(name, data, written);
        call := Some(out);
      case _ =>
        reply := Reply(-1, NoBody);
    }
  }
}
