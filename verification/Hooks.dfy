/** The hooks themselves, updating the module globals and the time table in place
    (extension/trace.c:325-388, 602-628, 1126-1214, 1216-1397). */
module Hooks {
  import opened Basics
  import opened Executor

  class Tracer {
    var dotrace: Flags
    var sockFd: int
    var pft: Filter
    var ctrl: bool
    var level: nat
    const excTimeTable: array<int>
    ghost var serial: nat
    ghost var uri: string
    ghost var log: Hist<Event>
    ghost var times: Hist<Timing>

    /** The globals as one value. */
    ghost function View(): State
      reads this, excTimeTable
    {
      State(dotrace, sockFd, pft, ctrl, level, excTimeTable[..], serial, uri, log, times)
    }

    ghost predicate Valid()
      reads this
    {
      excTimeTable.Length == EXC_TIME_LEN
    }

    /** Module start-up. */
    constructor (output: bool)
      ensures Valid() && View() == Init(output) && fresh(excTimeTable)
    {
      dotrace, sockFd, pft, ctrl, level := Flags(output, false), -1, NO_FILTER, false, 0;
      excTimeTable := new int[EXC_TIME_LEN](_ => 0);
      serial, uri, log, times := 0, "", Start, Start;
    }

    /** Another process may have written the bit; read it. */
    method CtrlIsActive(ghost site: Site, w: Write) returns (active: bool)
      modifies this`ctrl, this`log
      ensures View() == Look(old(View()), site, w) && active == ctrl
    {
      if w.Put? { ctrl := w.bit; }
      active := ctrl;
      log := After(log, Probed(site, active));
    }

    method Connect(fd: int)
      modifies this`sockFd, this`log
      ensures View() == Executor.Connect(old(View()), fd)
    {
      sockFd := fd;
      if fd != -1 { log := After(log, Connected(fd)); }
    }

    ghost method Send(body: Body)
      modifies this`log
      ensures View() == old(View()).Send(body)
    {
      log := After(log, Sent(sockFd, uri, body));
    }

    method HandleError(p: Probe)
      requires Valid()
      modifies this`dotrace, this`sockFd, this`pft, this`ctrl, this`log
      ensures View() == Executor.HandleError(old(View()), p)
    {
      if sockFd != -1 {
        var active := CtrlIsActive(AtError, p.rewrite);
        if active {
          Connect(p.refd);
          if sockFd != -1 { return; }
        }
      }
      dotrace := dotrace.(tool := false);
      ctrl := false;
      if sockFd != -1 { sockFd := -1; }
      pft := NO_FILTER;
      log := After(log, Dropped);
    }

    method HandleCommand(p: Probe)
      requires Valid()
      modifies this`dotrace, this`sockFd, this`pft, this`ctrl, this`log
      ensures View() == Executor.HandleCommand(old(View()), p)
    {
      if sockFd == -1 {
        Connect(p.fd);
        if sockFd == -1 {
          HandleError(p);
          return;
        }
      }
      ghost var start := View();
      var i := 0;
      while i < |p.inbox|
        invariant i <= |p.inbox|
        invariant ReceiveAll(View(), p.inbox[i..]) == ReceiveAll(start, p.inbox)
      {
        var m := p.inbox[i];
        ghost var before := View();
        log := After(log, Got(m));
        match m {
          case DoTrace => dotrace := dotrace.(tool := true);
          case DoFilter(f) => pft := f;
          case DoStatus => Send(StatusBody);
          case Unknown(_) =>
        }
        assert View() == Receive(before, m) && p.inbox[i..][1..] == p.inbox[i + 1..];
        i := i + 1;
      }
      assert View() == ReceiveAll(start, p.inbox);
      if p.ending.Failed? { HandleError(p); }
    }

    method FilterFrame(fn: Func) returns (local: Flags)
      ensures local == Executor.FilterFrame(View(), fn)
    {
      local := dotrace;
      if pft.kind.func || pft.kind.cls {
        local := NONE;
        if pft.kind.func && fn.name.Some? && Contains(fn.name.value, pft.content) { local := dotrace; }
        if pft.kind.cls && fn.scope.Some? && Contains(fn.scope.value, pft.content) { local := dotrace; }
      }
    }

    /** The control check, the captured flags and the ENTRY message. */
    method EnterCore(c: Calls) returns (local: Flags)
      requires Valid() && c.Call?
      modifies this`dotrace, this`sockFd, this`pft, this`ctrl, this`level, this`serial, this`log
      ensures View() == Begin(old(View()), c) && local == Local(old(View()), c)
    {
      hide Executor.HandleCommand, Executor.HandleError, Passes;
      var active := CtrlIsActive(AtEntry, c.probe.write);
      if active {
        HandleCommand(c.probe);
      } else if sockFd != -1 {
        HandleError(c.probe);
      }
      local := FilterFrame(c.fn);
      level := level + 1;
      ghost var id := serial;
      serial := serial + 1;
      if local.tool { Send(FrameBody(Entry, id, level, c.fn, 0, 0)); }
    }

    /** The frame's times in the table, and the EXIT message. */
    method LeaveCore(local: Flags, ghost id: nat, c: Calls)
      requires Valid() && c.Call? && level > 0
      modifies this`level, this`log, this`times, excTimeTable
      ensures View() == Finish(old(View()), local, id, c)
    {
      if local.On() {
        ghost var table := excTimeTable[..];
        var inc, exc := c.leave - c.enter, 0;
        if level + 1 < excTimeTable.Length {
          excTimeTable[level] := excTimeTable[level] + inc;
          exc := inc - excTimeTable[level + 1];
          excTimeTable[level + 1] := 0;
        }
        assert (excTimeTable[..], exc) == Tick(table, level, inc);
        times := After(times, Timing(level, inc, exc));
        if dotrace.tool && local.tool { Send(FrameBody(Exit, id, level, c.fn, inc, exc)); }
      }
      level := level - 1;
    }

    /** pt_execute_core for the first of `c`; the original function makes the calls of its body. The
        caller's remaining calls follow unless it bailed out. */
    method ExecuteCore(c: Calls) returns (bailed: bool)
      requires Valid()
      modifies this, excTimeTable
      ensures View() == Run(old(View()), c).state && bailed == Run(old(View()), c).bailed
      ensures level == old(level)
      decreases c
    {
      bailed := false;
      if c.Call? {
        ghost var id := serial;
        var local := EnterCore(c);
        bailed := ExecuteCore(c.body);
        bailed := bailed || c.exits;
        LeaveCore(local, id, c);
        if !bailed { bailed := ExecuteCore(c.next); }
      }
    }

    method RequestInit(q: Request)
      requires Valid()
      modifies this
      ensures View() == RequestStart(old(View()), q)
    {
      hide Executor.HandleCommand;
      level := 0;
      uri := q.uri;
      var active := CtrlIsActive(AtRequest, q.probe.write);
      if active { HandleCommand(q.probe); }
      if pft.kind.url {
        if Contains(q.uri, pft.content) {
          dotrace := dotrace.(tool := true);
        } else {
          dotrace := dotrace.(tool := false);
        }
      }
      if dotrace.tool { Send(RequestBody(Entry)); }
    }

    method RequestShutdown()
      modifies this`log
      ensures View() == SendRequest(old(View()), Exit)
    {
      if dotrace.tool { Send(RequestBody(Exit)); }
    }

    /** A whole request as the engine drives the hooks. */
    method Request(q: Request)
      requires Valid()
      modifies this, excTimeTable
      ensures View() == Serve(old(View()), q)
    {
      RequestInit(q);
      ghost var start := View();
      var i := 0;
      while i < |q.tops|
        invariant i <= |q.tops|
        invariant RunTops(View(), q.tops[i..]) == RunTops(start, q.tops)
      {
        assert q.tops[i..][1..] == q.tops[i + 1..];
        var bailed := ExecuteCore(q.tops[i]);
        i := i + 1;
      }
      RequestShutdown();
    }
  }
}
