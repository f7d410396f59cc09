/** The command-line tool in its own form: global limits, a descriptor set and the control file, updated
    inside the select loop (src/trace.c:42-233; src/cli.h:20-53; common/trace_ctrl.c:35-43). */
module Cli {
  import opened Basics
  import opened Executor
  import opened Session
  import opened Mux = Multiplexer

  class Tool {
    const sfd: int
    const pft: Filter
    var limitFrame: int
    var limitRequest: int
    var clients: set<int>
    var maxfd: int
    ghost var shown: Shown
    ghost var log: Hist<FdEvent>

    ghost function View(): Mux.State
      reads this
    {
      Mux.State(sfd, pft, clients, maxfd, Limits(limitFrame, limitRequest), shown, log)
    }

    constructor (sfd: int, pft: Filter, limits: Limits)
      ensures this.sfd == sfd && this.pft == pft && View() == Mux.Begin(sfd, pft, limits)
    {
      this.sfd, this.pft := sfd, pft;
      limitFrame, limitRequest := limits.frame, limits.request;
      clients, maxfd, shown, log := {}, sfd, Shown(0, 0), Start;
    }

    /** trace_single_process. */
    method TraceSingleProcess(f: Feed, times: nat) returns (ret: int)
      modifies this`limitFrame, this`limitRequest, this`shown
      ensures var r := ReadClient(old(View()).limits, old(shown), f, times);
              View() == old(View()).(limits := r.limits, shown := r.shown) && ret == r.ret
    {
      var i := 0;
      while i < times
        invariant i <= times && i <= |f.items|
        invariant ReadClient(View().limits, shown, Feed(f.items[i..], f.broken), times - i)
                  == ReadClient(old(View()).limits, old(shown), f, times)
      {
        if i == |f.items| { return if f.broken then -1 else 0; }
        assert f.items[i..][1..] == f.items[i + 1..];
        match f.items[i] {
          case FrameExit =>
            shown := shown.(frames := shown.frames + 1);
            if limitFrame != UNLIMITED { limitFrame := limitFrame - 1; }
            if limitFrame == 0 { return -2; }
          case RequestExit =>
            shown := shown.(requests := shown.requests + 1);
            if limitRequest != UNLIMITED { limitRequest := limitRequest - 1; }
            if limitRequest == 0 { return -2; }
          case _ =>
        }
        i := i + 1;
      }
      return 0;
    }

    /** pt_send_msg: the commands a new client is given. */
    method SendCommands() returns (sent: seq<Msg>)
      ensures sent == Script(pft)
    {
      sent := [];
      if pft.kind != EMPTY_KIND { sent := sent + [DoFilter(pft)]; }
      if pft.kind != URL_KIND { sent := sent + [DoTrace]; }
    }

    method CloseClient(cfd: int)
      modifies this`clients, this`log
      ensures View() == Mux.Close(old(View()), cfd)
    {
      clients := clients - {cfd};
      log := After(log, Closed(cfd));
    }

    /** One pass of the select loop; `done` is true when it leaves the loop, with the code in `ret`. */
    method Pass(round: Round) returns (done: bool, ret: int)
      modifies this
      ensures var s := Turn(old(View()), round);
              View() == s.state && done == s.done.Some? && (done ==> ret == s.done.value)
    {
      hide ReadClient;
      match round {
        case Idle => return false, 0;
        case SelectFails => return true, -1;
        case Attach(hint) =>
          var cfd := if hint > sfd && hint !in clients then hint else maxfd + 1;
          clients := clients + {cfd};
          if cfd > maxfd { maxfd := cfd; }
          var sent := SendCommands();
          log := After(log, Accepted(cfd, sent));
          return false, 0;
        case Ready(feeds) =>
          var cfd := sfd + 1;
          while cfd <= maxfd
            invariant maxfd == old(maxfd)
            invariant Poll(View(), feeds, cfd) == Poll(old(View()), feeds, sfd + 1)
          {
            if cfd in feeds && cfd in clients {
              ret := TraceSingleProcess(feeds[cfd], 10);
              if ret == -1 { CloseClient(cfd); }
              if ret == -2 { return true, -2; }
            }
            cfd := cfd + 1;
          }
          return false, 0;
      }
    }

    method TraceExt(rounds: seq<Round>) returns (ret: int)
      requires View() == Mux.Begin(sfd, pft, Limits(limitFrame, limitRequest))
      modifies this
      ensures (View(), ret) == Mux.TraceExt(sfd, pft, old(View()).limits, rounds)
    {
      hide Turn;
      ghost var start := View();
      var i := 0;
      ret := 0;
      while i < |rounds|
        invariant i <= |rounds| && ret == 0
        invariant Loop(View(), rounds[i..]) == Loop(start, rounds)
      {
        assert rounds[i..][1..] == rounds[i + 1..];
        var done, code := Pass(rounds[i]);
        if done {
          ret := code;
          break;
        }
        i := i + 1;
      }
      assert (View(), ret) == Loop(start, rounds);
      ghost var end := View();
      var cfd := sfd + 1;
      while cfd <= maxfd
        invariant maxfd == end.maxfd
        invariant CloseAll(View(), cfd) == CloseAll(end, sfd + 1)
      {
        if cfd in clients { CloseClient(cfd); }
        cfd := cfd + 1;
      }
    }

    /** pt_trace_main on the control file `ctrl`, one byte per process; `pid` is absent when all processes
        are traced, and `written` are the bytes other processes write during the run. `during` is the file
        as the select loop finds it: the bit of every traced process is on and nothing else is changed. */
    method TraceMain(ctrl: array<byte>, pid: Option<nat>, rounds: seq<Round>, written: map<nat, byte>)
      returns (ret: int, during: seq<byte>)
      requires View() == Mux.Begin(sfd, pft, Limits(limitFrame, limitRequest))
      requires pid.Some? ==> pid.value < ctrl.Length
      modifies this, ctrl
      ensures (View(), ret) == Mux.TraceExt(sfd, pft, old(View()).limits, rounds)
      ensures during == SwitchedOn(old(ctrl[..]), pid)
      ensures ctrl[..] == SwitchedOff(Overwritten(during, written), pid)
    {
      if pid.None? {
        forall i | 0 <= i < ctrl.Length { ctrl[i] := ACTIVE; }
      } else {
        ctrl[pid.value] := SetActive(ctrl[pid.value]);
      }
      during := ctrl[..];
      assert during == SwitchedOn(old(ctrl[..]), pid);
      ret := TraceExt(rounds);
      forall i | 0 <= i < ctrl.Length && i in written { ctrl[i] := written[i]; }
      assert ctrl[..] == Overwritten(during, written);
      if pid.None? {
        forall i | 0 <= i < ctrl.Length { ctrl[i] := 0; }
      } else {
        ctrl[pid.value] := SetInactive(ctrl[pid.value]);
      }
    }
  }

  // ----- the control file

  const ACTIVE: byte := 1

  predicate IsActive(b: byte) { b % 2 == 1 }

  function SetActive(b: byte): byte { if IsActive(b) then b else b + 1 }

  function SetInactive(b: byte): byte { if IsActive(b) then b - 1 else b }

  /** The file after the tool switched tracing on for one process, or for all. */
  function SwitchedOn(file: seq<byte>, pid: Option<nat>): (r: seq<byte>)
    requires pid.Some? ==> pid.value < |file|
    ensures |r| == |file|
  {
    if pid.None? then seq(|file|, _ => ACTIVE) else file[pid.value := SetActive(file[pid.value])]
  }

  function SwitchedOff(file: seq<byte>, pid: Option<nat>): (r: seq<byte>)
    requires pid.Some? ==> pid.value < |file|
    ensures |r| == |file|
  {
    if pid.None? then seq(|file|, _ => 0) else file[pid.value := SetInactive(file[pid.value])]
  }

  function Overwritten(file: seq<byte>, written: map<nat, byte>): (r: seq<byte>)
    ensures |r| == |file|
  {
    seq(|file|, i requires 0 <= i < |file| => if i in written then written[i] else file[i])
  }

  /** While the loop runs every traced process finds its bit on; afterwards, whatever was written meanwhile, no
      traced process does, and all other bytes are as the other processes left them. */
  lemma ControlBits(file: seq<byte>, pid: Option<nat>, written: map<nat, byte>, i: nat)
    requires i < |file| && (pid.Some? ==> pid.value < |file|)
    ensures var during := SwitchedOn(file, pid); var after := SwitchedOff(Overwritten(during, written), pid);
            if pid.None? then IsActive(during[i]) && after[i] == 0
            else if i == pid.value then IsActive(during[i]) && !IsActive(after[i])
            else during[i] == file[i] && after[i] == if i in written then written[i] else file[i]
  {
  }
}
