/** What the tool gets to hear: the messages sent in a session, and the times they carry
    (extension/trace.c:325-388, 1252-1396). */
module Transcript {
  import opened Basics
  import opened Executor
  import opened ExclusiveTime
  import Nesting

  // ----- the times on the wire, in every run

  /** The times of the EXIT frames sent, in order. */
  function ExitTimes(h: Hist<Event>): Hist<Timing> {
    match h
    case Start => Start
    case After(p, Sent(_, _, FrameBody(Exit, _, level, _, inc, exc))) => After(ExitTimes(p), Timing(level, inc, exc))
    case After(p, _) => ExitTimes(p)
  }

  /** `a` is `b` with some items left out. */
  predicate Among<T(==)>(a: Hist<T>, b: Hist<T>) {
    a.Start? || (b.After? && ((a.last == b.last && Among(a.past, b.past)) || Among(a, b.past)))
  }

  /** Connection handling sends no EXIT frame. */
  ghost predicate SameTimes(s: State, t: State) {
    ExitTimes(t.log) == ExitTimes(s.log) && t.times == s.times && t.flags.output == s.flags.output
  }

  lemma ErrorTimes(s: State, p: Probe)
    ensures SameTimes(s, HandleError(s, p))
  {
    if s.sock != -1 {
      var s1 := Look(s, AtError, p.rewrite);
      assert SameTimes(s, s1);
      assert SameTimes(s1, if s1.ctrl then Connect(s1, p.refd) else s1);
    }
  }

  lemma {:induction false} InboxTimes(s: State, inbox: seq<Msg>)
    ensures SameTimes(s, ReceiveAll(s, inbox))
    decreases inbox
  {
    if inbox != [] {
      var s1 := s.Note(Got(inbox[0]));
      assert SameTimes(s, s1) && SameTimes(s1, Receive(s, inbox[0]));
      InboxTimes(Receive(s, inbox[0]), inbox[1..]);
    }
  }

  lemma CommandTimes(s: State, p: Probe)
    ensures SameTimes(s, HandleCommand(s, p))
  {
    hide HandleError;
    var s1 := if s.sock == -1 then Connect(s, p.fd) else s;
    assert SameTimes(s, s1);
    ErrorTimes(s1, p);
    InboxTimes(s1, p.inbox);
    ErrorTimes(ReceiveAll(s1, p.inbox), p);
  }

  lemma BeginTimes(s: State, c: Calls)
    requires c.Call?
    ensures SameTimes(s, Begin(s, c)) && (!s.flags.output ==> !Local(s, c).output)
  {
    hide HandleError, HandleCommand;
    var s1 := Look(s, AtEntry, c.probe.write);
    assert SameTimes(s, s1);
    CommandTimes(s1, c.probe);
    ErrorTimes(s1, c.probe);
  }

  /** From `s` to `t` the times sent stay among the times taken; and without output to the screen and without
      a drop, if all were sent before, all are sent after. */
  ghost predicate Tells(s: State, t: State) {
    && (Among(ExitTimes(s.log), s.times) ==> Among(ExitTimes(t.log), t.times))
    && t.flags.output == s.flags.output
    && (!s.flags.output && Nesting.Drops(t.log) == Nesting.Drops(s.log) && ExitTimes(s.log) == s.times ==>
          ExitTimes(t.log) == t.times)
  }

  lemma FinishTells(t: State, local: Flags, id: nat, c: Calls)
    requires c.Call? && t.level > 0
    ensures var e := Finish(t, local, id, c);
            && (Among(ExitTimes(t.log), t.times) ==> Among(ExitTimes(e.log), e.times))
            && e.flags == t.flags && Nesting.Drops(e.log) == Nesting.Drops(t.log)
            && (!local.output && (local.tool ==> t.flags.tool) && ExitTimes(t.log) == t.times ==> ExitTimes(e.log) == e.times)
  {
    hide Tick;
  }

  lemma {:induction false} RunTells(s: State, c: Calls)
    requires Nesting.Readable(s)
    ensures Tells(s, Run(s, c).state)
    decreases c
  {
    hide Begin, Finish, Local, Nesting.Nested, Among, ExitTimes, Nesting.Drops;
    if c.Call? {
      var b := Begin(s, c);
      var inner := Run(b, c.body);
      var e := Finish(inner.state, Local(s, c), s.serial, c);
      BeginTimes(s, c);
      Nesting.BeginReads(s, c);
      RunTells(b, c.body);
      Nesting.RunNests(b, c.body);
      NestedKeepsTool(b, inner.state);
      FinishTells(inner.state, Local(s, c), s.serial, c);
      Nesting.FinishReads(s, inner.state, c);
      Nesting.NestedReadable(s, e);
      if !(inner.bailed || c.exits) {
        RunTells(e, c.next);
        Nesting.RunNests(e, c.next);
        NestedKeepsTool(e, Run(e, c.next).state);
      }
    }
  }

  lemma NestedKeepsTool(s: State, t: State)
    requires Nesting.Nested(s, t)
    ensures Nesting.Drops(s.log) <= Nesting.Drops(t.log)
    ensures s.flags.tool && Nesting.Drops(t.log) == Nesting.Drops(s.log) ==> t.flags.tool
  {
  }

  lemma {:induction false} TopsTell(s: State, tops: seq<Calls>)
    requires Nesting.Readable(s)
    ensures Tells(s, RunTops(s, tops)) && Nesting.Drops(s.log) <= Nesting.Drops(RunTops(s, tops).log)
    decreases tops
  {
    hide Run, Among, ExitTimes, Nesting.Drops, Nesting.Nested;
    if tops != [] {
      var t := Run(s, tops[0]).state;
      RunTells(s, tops[0]);
      Nesting.RunNests(s, tops[0]);
      NestedKeepsTool(s, t);
      Nesting.NestedReadable(s, t);
      TopsTell(t, tops[1..]);
    }
  }

  lemma RequestTells(s: State, q: Request)
    ensures Tells(s, RequestStart(s, q)) && Tells(s, SendRequest(s, Exit))
    ensures Nesting.Drops(s.log) <= Nesting.Drops(RequestStart(s, q).log)
    ensures Nesting.Drops(s.log) == Nesting.Drops(SendRequest(s, Exit).log)
  {
    hide HandleCommand, Contains;
    var s1 := Look(s.(level := 0, uri := q.uri), AtRequest, q.probe.write);
    assert SameTimes(s, s1) && Nesting.SameReading(s, s1);
    CommandTimes(s1, q.probe);
    Nesting.CommandReads(s1, q.probe);
  }

  lemma {:induction false} ServeAllTells(s: State, qs: seq<Request>)
    requires Nesting.Readable(s)
    ensures Tells(s, ServeAll(s, qs)) && Nesting.Drops(s.log) <= Nesting.Drops(ServeAll(s, qs).log)
    decreases qs
  {
    hide RequestStart, RunTops, SendRequest, Among, ExitTimes, Nesting.Drops, Nesting.Readable;
    if qs != [] {
      var s1 := RequestStart(s, qs[0]);
      var s2 := RunTops(s1, qs[0].tops);
      RequestTells(s, qs[0]);
      Nesting.RequestReadable(s, qs[0]);
      TopsTell(s1, qs[0].tops);
      Nesting.TopsReadable(s1, qs[0].tops);
      RequestTells(s2, qs[0]);
      Nesting.RequestReadable(s2, qs[0]);
      ServeAllTells(SendRequest(s2, Exit), qs[1..]);
    }
  }

  /** In every run the EXIT frames sent carry, in order, times that traced frames ended with; and if nothing is
      traced to the screen and the connection is never given up, they carry all of them. */
  lemma SentTimesAreReal(output: bool, qs: seq<Request>)
    ensures var t := ServeAll(Init(output), qs);
            && Among(ExitTimes(t.log), t.times)
            && (!output && Nesting.Drops(t.log) == 0 ==> ExitTimes(t.log) == t.times)
  {
    hide ServeAll;
    ServeAllTells(Init(output), qs);
  }

  // ----- an undisturbed session, message by message

  /** The messages among the events. */
  function SentOf(h: Hist<Event>): Hist<Event> {
    if h.Start? then Start else if h.last.Sent? then After(SentOf(h.past), h.last) else SentOf(h.past)
  }

  /** What was heard, the times of the frames heard, the number of calls, and whether the last one bailed out. */
  datatype Heard = Heard(sent: Hist<Event>, times: Hist<Timing>, calls: nat, bailed: bool)

  /** What a tool with filter `f` hears of the calls `c` at `level`, told without flags, table or control bit: an
      ENTRY when a call that passes begins, and an EXIT with its times when it ends, by return or by bailout. */
  function Hear(x: Heard, fd: int, uri: string, f: Filter, c: Calls, level: nat): Heard
    decreases c
  {
    match c
    case Nil => x.(bailed := false)
    case Call(_, fn, enter, body, leave, exits, next) =>
      var heard := Passes(f, fn);
      var entry := Sent(fd, uri, FrameBody(Entry, x.calls, level, fn, 0, 0));
      var x1 := x.(calls := x.calls + 1, sent := if heard then After(x.sent, entry) else x.sent);
      var x2 := Hear(x1, fd, uri, f, body, level + 1);
      var inc := leave - enter;
      var exc := Due(x2.times, level, inc);
      var exit := Sent(fd, uri, FrameBody(Exit, x.calls, level, fn, inc, exc));
      var x3 := if heard then x2.(sent := After(x2.sent, exit), times := After(x2.times, Timing(level, inc, exc))) else x2;
      if x2.bailed || exits then x3.(bailed := true) else Hear(x3, fd, uri, f, next, level)
  }

  /** The state seen from the tool's side. */
  function Side(s: State, bailed: bool): Heard { Heard(SentOf(s.log), s.times, s.serial, bailed) }

  ghost predicate Live(s: State) { s.ctrl && s.sock != -1 && Metered(Meter(s.table, s.times)) }

  lemma LiveBegins(s: State, c: Calls)
    requires Live(s) && c.Call? && QuietProbe(c.probe)
    ensures var b := Begin(s, c);
            && Live(b) && b.sock == s.sock && b.flags == s.flags && b.filter == s.filter
            && Local(s, c) == (if Passes(s.filter, c.fn) then s.flags else NONE)
            && SentOf(b.log) == (if Passes(s.filter, c.fn) && s.flags.tool
                                 then After(SentOf(s.log), Sent(s.sock, s.uri, FrameBody(Entry, s.serial, s.level + 1, c.fn, 0, 0)))
                                 else SentOf(s.log))
  {
    hide Passes, Metered;
    assert CheckEntry(s, c.probe).log == After(s.log, Probed(AtEntry, true));
  }

  lemma LiveEnds(s: State, local: Flags, id: nat, c: Calls)
    requires Live(s) && c.Call? && s.level > 0
    ensures var e := Finish(s, local, id, c); var inc := c.leave - c.enter; var exc := Due(s.times, s.level, inc);
            && Live(e) && e.sock == s.sock && e.flags == s.flags && e.filter == s.filter
            && e.times == (if local.On() then After(s.times, Timing(s.level, inc, exc)) else s.times)
            && SentOf(e.log) == (if local.tool && s.flags.tool
                                 then After(SentOf(s.log), Sent(s.sock, s.uri, FrameBody(Exit, id, s.level, c.fn, inc, exc)))
                                 else SentOf(s.log))
            && e.serial == s.serial && e.uri == s.uri
  {
    hide Since;
    TickDue(Meter(s.table, s.times), s.level, c.leave - c.enter);
    TickMetered(Meter(s.table, s.times), s.level, c.leave - c.enter);
  }

  lemma TickDue(m: Meter, level: nat, inc: int)
    requires Metered(m) && level >= 1
    ensures Tick(m.table, level, inc).1 == Due(m.times, level, inc)
  {
    hide Since;
  }

  /** While the tool is on and says nothing, it hears exactly that. */
  lemma {:induction false} RunHeard(s: State, c: Calls, bailed: bool)
    requires Live(s) && s.flags.tool && Undisturbed(c)
    ensures var r := Run(s, c);
            && Side(r.state, r.bailed) == Hear(Side(s, bailed), s.sock, s.uri, s.filter, c, s.level + 1)
            && Live(r.state) && r.state.flags == s.flags && r.state.sock == s.sock
            && r.state.filter == s.filter && r.state.uri == s.uri
    decreases c
  {
    hide Begin, Finish, Local, Passes, Live, Due, SentOf;
    if c.Call? {
      var b := Begin(s, c);
      LiveBegins(s, c);
      RunHeard(b, c.body, bailed);
      var inner := Run(b, c.body);
      LiveEnds(inner.state, Local(s, c), s.serial, c);
      var e := Finish(inner.state, Local(s, c), s.serial, c);
      if !(inner.bailed || c.exits) { RunHeard(e, c.next, inner.bailed); }
    }
  }

  /** While the tool flag is off it hears nothing, whatever is traced to the screen. */
  lemma {:induction false} RunUnheard(s: State, c: Calls)
    requires Live(s) && !s.flags.tool && Undisturbed(c)
    ensures var t := Run(s, c).state;
            SentOf(t.log) == SentOf(s.log) && Live(t) && t.flags == s.flags && t.sock == s.sock && t.filter == s.filter
    decreases c
  {
    hide Begin, Finish, Local, Passes, Live, Due, SentOf;
    if c.Call? {
      var b := Begin(s, c);
      LiveBegins(s, c);
      RunUnheard(b, c.body);
      var inner := Run(b, c.body);
      LiveEnds(inner.state, Local(s, c), s.serial, c);
      if !(inner.bailed || c.exits) { RunUnheard(Finish(inner.state, Local(s, c), s.serial, c), c.next); }
    }
  }

  // ----- requests

  function HearTops(x: Heard, fd: int, uri: string, f: Filter, tops: seq<Calls>): Heard
    decreases tops
  {
    if tops == [] then x else HearTops(Hear(x, fd, uri, f, tops[0], 1), fd, uri, f, tops[1..])
  }

  /** What the tool hears of a request: its ENTRY, the frames of its calls, its EXIT. */
  function HearRequest(x: Heard, fd: int, f: Filter, q: Request): Hist<Event> {
    var begun := x.(sent := After(x.sent, Sent(fd, q.uri, RequestBody(Entry))));
    After(HearTops(begun, fd, q.uri, f, q.tops).sent, Sent(fd, q.uri, RequestBody(Exit)))
  }

  /** However a request starts: its level is zero, its URI is its own, and if a URL filter is in force its tool
      flag is on exactly if the URI contains the content; its ENTRY is the last event exactly if the flag is on. */
  lemma RequestStarts(s: State, q: Request)
    ensures var t := RequestStart(s, q);
            && t.level == 0 && t.uri == q.uri
            && (t.filter.kind.url ==> (t.flags.tool <==> Contains(q.uri, t.filter.content)))
            && (t.flags.tool <==> t.log.After? && t.log.last == Sent(t.sock, q.uri, RequestBody(Entry)))
  {
    hide Contains, HandleError;
    var s1 := Look(s.(level := 0, uri := q.uri), AtRequest, q.probe.write);
    var s2 := if s1.ctrl then HandleCommand(s1, q.probe) else s1;
    if s1.ctrl { NoRequestSent(s1, q.probe); }
    assert !(s2.log.After? && IsRequest(s2.log.last));
  }

  predicate IsRequest(e: Event) { e.Sent? && e.body.RequestBody? }

  /** Obeying commands ends with anything but a request message. */
  lemma NoRequestSent(s: State, p: Probe)
    requires s.log.After? && !IsRequest(s.log.last)
    ensures var t := HandleCommand(s, p); t.log.After? && !IsRequest(t.log.last)
  {
    var s1 := if s.sock == -1 then Connect(s, p.fd) else s;
    InboxSendsNoRequest(s1, p.inbox);
  }

  lemma {:induction false} InboxSendsNoRequest(s: State, inbox: seq<Msg>)
    requires s.log.After? && !IsRequest(s.log.last)
    ensures var t := ReceiveAll(s, inbox); t.log.After? && !IsRequest(t.log.last)
    decreases inbox
  {
    if inbox != [] { InboxSendsNoRequest(Receive(s, inbox[0]), inbox[1..]); }
  }

  ghost predicate AllUndisturbed(tops: seq<Calls>) { forall c <- tops :: Undisturbed(c) }

  lemma {:induction false} TopsHeard(s: State, tops: seq<Calls>, bailed: bool)
    requires Live(s) && s.flags.tool && s.level == 0 && AllUndisturbed(tops)
    ensures var t := RunTops(s, tops); var x := HearTops(Side(s, bailed), s.sock, s.uri, s.filter, tops);
            t.flags == s.flags && t.sock == s.sock && t.uri == s.uri && SentOf(t.log) == x.sent
    decreases tops
  {
    hide Live, Undisturbed, Run, Hear, SentOf;
    if tops != [] {
      assert tops[0] in tops;
      RunHeard(s, tops[0], bailed);
      TopsHeard(Run(s, tops[0]).state, tops[1..], Run(s, tops[0]).bailed);
    }
  }

  lemma {:induction false} TopsUnheard(s: State, tops: seq<Calls>)
    requires Live(s) && !s.flags.tool && AllUndisturbed(tops)
    ensures var t := RunTops(s, tops); !t.flags.tool && SentOf(t.log) == SentOf(s.log)
    decreases tops
  {
    hide Live, Undisturbed, Run, SentOf;
    if tops != [] {
      assert tops[0] in tops;
      RunUnheard(s, tops[0]);
      TopsUnheard(Run(s, tops[0]).state, tops[1..]);
    }
  }

  /** A request during which the tool says nothing: under a URL filter the tool hears the whole of it if its URI
      contains the content, and nothing of it otherwise; under any other filter it hears the whole of it if
      and only if its flag was on. */
  lemma RequestHeard(s: State, q: Request)
    requires Live(s) && QuietProbe(q.probe) && AllUndisturbed(q.tops)
    ensures var on := if s.filter.kind.url then Contains(q.uri, s.filter.content) else s.flags.tool;
            SentOf(Serve(s, q).log) == if on then HearRequest(Side(s, false), s.sock, s.filter, q) else SentOf(s.log)
  {
    hide Contains, RunTops, HearTops, Metered, Undisturbed;
    var t := RequestStart(s, q);
    var s1 := Look(s.(level := 0, uri := q.uri), AtRequest, q.probe.write);
    assert HandleCommand(s1, q.probe) == s1;
    assert SentOf(s1.log) == SentOf(s.log);
    if t.flags.tool { TopsHeard(t, q.tops, false); } else { TopsUnheard(t, q.tops); }
  }

  /** So the times a tool hears in an undisturbed session are the tree's, for each call that passes its duration
      and its exclusive time, if and only if nothing is pending when a call that passes begins. */
  lemma HeardTimesExactIff(s: State, c: Calls)
    requires Live(s) && s.flags == Flags(false, true) && Undisturbed(c) && ExitTimes(s.log) == s.times && Nesting.Readable(s)
    ensures var f := Filtered(s.filter, c).0;
            ExitTimes(Run(s, c).state.log) == TreeTimes(s.times, f, s.level + 1) <==> NothingPending(s.times, f, s.level + 1)
  {
    hide Run, TreeTimes, NothingPending, ExitTimes;
    FilteredExactIff(s, c);
    RunTells(s, c);
    UndisturbedKeeps(s, c);
  }

  lemma {:induction false} UndisturbedKeeps(s: State, c: Calls)
    requires s.ctrl && s.sock != -1 && s.flags.On() && Undisturbed(c)
    ensures Nesting.Drops(Run(s, c).state.log) == Nesting.Drops(s.log)
    decreases c
  {
    hide Tick, Passes;
    if c.Call? {
      assert CheckEntry(s, c.probe).log == After(s.log, Probed(AtEntry, true));
      UndisturbedRun(Begin(s, c), c.body);
      UndisturbedKeeps(Begin(s, c), c.body);
      var inner := Run(Begin(s, c), c.body);
      if !(inner.bailed || c.exits) { UndisturbedKeeps(Finish(inner.state, Local(s, c), s.serial, c), c.next); }
    }
  }
}
