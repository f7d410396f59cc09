/** What every run of the extension's hooks keeps about its connection to the tool: messages only go
    over an open socket, nothing is sent once the control bit is off, and a session's filter governs
    everything sent in it (extension/trace.c:325-388, 602-628, 1126-1214, 1253-1377; src/trace.c:104-123). */
module Session {
  import opened Basics
  import opened Executor

  // ----- properties of histories

  /** A function entry found the control bit off and no read has found it on since. */
  predicate Quiet(h: Hist<Event>) {
    match h
    case Start => false
    case After(p, Probed(site, active)) => !active && (site.AtEntry? || Quiet(p))
    case After(p, _) => Quiet(p)
  }

  /** Every message went over an open socket, and none after the history became quiet. */
  predicate Clean(h: Hist<Event>) {
    h.After? ==> Clean(h.past) && (h.last.Sent? ==> h.last.fd != -1 && !Quiet(h.past))
  }

  /** What the command-line tool sends on a connection when its filter is `f`. */
  function Script(f: Filter): seq<Msg> {
    (if f.kind != EMPTY_KIND then [DoFilter(f)] else []) + (if f.kind != URL_KIND then [DoTrace] else [])
  }

  /** The filters the tool can be started with. */
  predicate Offered(f: Filter) {
    f == NO_FILTER || f.kind == URL_KIND || f.kind == FUNCTION_KIND || f.kind == CLASS_KIND
  }

  /** How far the current connection is through the script, if every connection so far received a
      prefix of it and nothing else. */
  function Progress(f: Filter, h: Hist<Event>): Option<nat> {
    match h
    case Start => Some(0)
    case After(p, Connected(_)) => if Progress(f, p).Some? then Some(0) else None
    case After(p, Got(m)) =>
      var k := Progress(f, p);
      if k.Some? && k.value < |Script(f)| && Script(f)[k.value] == m then Some(k.value + 1) else None
    case After(p, _) => Progress(f, p)
  }

  /** Every frame sent passes `f`; for a URL filter every message belongs to a request whose URI it matches. */
  predicate Delivered(f: Filter, h: Hist<Event>) {
    h.After? ==>
      && Delivered(f, h.past)
      && (h.last.Sent? && h.last.body.FrameBody? ==> Passes(f, h.last.body.fn))
      && (h.last.Sent? && f.kind.url ==> Contains(h.last.uri, f.content))
  }

  // ----- the invariant

  /** Without a socket the tool flag is off and the filter is empty. */
  ghost predicate Linked(s: State) {
    (s.sock == -1 ==> !s.flags.tool && s.filter == NO_FILTER) && Clean(s.log)
  }

  /** As long as the peer is a tool with filter `f`, the tool flag is on only while `f` is in force; `uri` is
      the one a URL filter was last checked against. */
  ghost predicate Governed(f: Filter, uri: string, s: State) {
    var k := Progress(f, s.log);
    k.Some? ==>
      && (s.filter == f || s.filter == NO_FILTER)
      && (s.flags.tool || (k.value >= 1 && s.sock != -1) ==> s.filter == f)
      && (s.flags.tool && f.kind.url ==> Contains(uri, f.content))
      && Delivered(f, s.log)
  }

  ghost predicate Base(f: Filter, uri: string, s: State) { Linked(s) && Governed(f, uri, s) }

  ghost predicate Settled(f: Filter, uri: string, s: State) { Base(f, uri, s) && (Quiet(s.log) ==> s.sock == -1) }

  /** The invariant: between a request's start and the next one the URI checked is the request's own. */
  ghost predicate Good(f: Filter, s: State) { Settled(f, s.uri, s) }

  /** A history that has left the script does not come back to it. */
  ghost predicate Onward(f: Filter, s: State, t: State) {
    Progress(f, t.log).Some? ==> Progress(f, s.log).Some?
  }

  // ----- every step keeps it

  lemma LookBase(f: Filter, uri: string, s: State, site: Site, w: Write)
    requires Base(f, uri, s)
    ensures var t := Look(s, site, w);
            && Base(f, uri, t) && Onward(f, s, t)
            && Quiet(t.log) == (!t.ctrl && (site.AtEntry? || Quiet(s.log)))
  {
    hide Contains, Passes, Script;
  }

  lemma ConnectBase(f: Filter, uri: string, s: State, fd: int)
    requires Base(f, uri, s) && fd != -1
    ensures var t := Connect(s, fd); Base(f, uri, t) && Onward(f, s, t) && Quiet(t.log) == Quiet(s.log)
  {
    hide Contains, Passes, Script;
  }

  lemma ShutGood(f: Filter, uri: string, s: State)
    requires Clean(s.log) && Governed(f, uri, s)
    ensures Settled(f, uri, Shut(s)) && Onward(f, s, Shut(s))
  {
    hide Contains, Passes, Script;
  }

  lemma ErrorGood(f: Filter, uri: string, s: State, p: Probe)
    requires Base(f, uri, s)
    ensures Settled(f, uri, HandleError(s, p)) && Onward(f, s, HandleError(s, p))
  {
    hide Contains, Passes, Script, Delivered, Progress, Quiet, Clean;
    if s.sock == -1 {
      ShutGood(f, uri, s);
    } else {
      var s1 := Look(s, AtError, p.rewrite);
      LookBase(f, uri, s, AtError, p.rewrite);
      if !s1.ctrl {
        ShutGood(f, uri, s1);
      } else if p.refd == -1 {
        ShutGood(f, uri, Connect(s1, p.refd));
      } else {
        ConnectBase(f, uri, s1, p.refd);
      }
    }
  }

  lemma ReceiveGood(f: Filter, uri: string, s: State, m: Msg)
    requires Offered(f) && Base(f, uri, s) && s.sock != -1 && !Quiet(s.log)
    ensures var t := Receive(s, m); Base(f, uri, t) && t.sock == s.sock && !Quiet(t.log) && Onward(f, s, t)
  {
    hide Contains, Passes;
    var s1 := s.Note(Got(m));
    assert !Quiet(s1.log) && Clean(s1.log);
    var k := Progress(f, s.log);
    if Progress(f, s1.log).Some? {
      assert Script(f)[k.value] == m;
      assert m == DoFilter(f) || (m == DoTrace && f.kind != URL_KIND && (f == NO_FILTER || k.value == 1));
    }
  }

  lemma {:induction false} ReceiveAllGood(f: Filter, uri: string, s: State, inbox: seq<Msg>)
    requires Offered(f) && Base(f, uri, s) && s.sock != -1 && !Quiet(s.log)
    ensures var t := ReceiveAll(s, inbox); Settled(f, uri, t) && Onward(f, s, t)
    decreases inbox
  {
    hide Receive;
    if inbox != [] {
      ReceiveGood(f, uri, s, inbox[0]);
      ReceiveAllGood(f, uri, Receive(s, inbox[0]), inbox[1..]);
    }
  }

  lemma CommandGood(f: Filter, uri: string, s: State, p: Probe)
    requires Offered(f) && Base(f, uri, s) && !Quiet(s.log)
    ensures Settled(f, uri, HandleCommand(s, p)) && Onward(f, s, HandleCommand(s, p))
  {
    hide HandleError, Contains, Passes, Script;
    var s1 := if s.sock == -1 then Connect(s, p.fd) else s;
    if s1.sock == -1 {
      ErrorGood(f, uri, s1, p);
    } else {
      ReceiveAllGood(f, uri, s1, p.inbox);
      ErrorGood(f, uri, ReceiveAll(s1, p.inbox), p);
    }
  }

  lemma CheckGood(f: Filter, s: State, p: Probe)
    requires Offered(f) && Good(f, s)
    ensures Good(f, CheckEntry(s, p)) && Onward(f, s, CheckEntry(s, p))
  {
    hide HandleError, HandleCommand, Contains, Passes, Script;
    var s1 := Look(s, AtEntry, p.write);
    if s1.ctrl { CommandGood(f, s.uri, s1, p); } else { ErrorGood(f, s.uri, s1, p); }
  }

  lemma BeginGood(f: Filter, s: State, c: Calls)
    requires Offered(f) && Good(f, s) && c.Call?
    ensures var b := Begin(s, c);
            && Good(f, b) && Onward(f, s, b)
            && (Progress(f, b.log).Some? && Local(s, c).tool ==> Passes(f, c.fn))
  {
    hide CheckEntry, Contains, Passes, Script;
    CheckGood(f, s, c.probe);
  }

  lemma FinishGood(f: Filter, s: State, local: Flags, id: nat, c: Calls)
    requires Good(f, s) && c.Call? && s.level > 0
    requires Progress(f, s.log).Some? && local.tool ==> Passes(f, c.fn)
    ensures Good(f, Finish(s, local, id, c)) && Onward(f, s, Finish(s, local, id, c))
  {
    hide Tick, Contains, Passes, Script;
  }

  lemma {:induction false} RunGood(f: Filter, s: State, c: Calls)
    requires Offered(f) && Good(f, s)
    ensures Good(f, Run(s, c).state) && Onward(f, s, Run(s, c).state)
    decreases c
  {
    hide Begin, Finish, Local, Good;
    if c.Call? {
      BeginGood(f, s, c);
      RunGood(f, Begin(s, c), c.body);
      var inner := Run(Begin(s, c), c.body);
      FinishGood(f, inner.state, Local(s, c), s.serial, c);
      if !(inner.bailed || c.exits) { RunGood(f, Finish(inner.state, Local(s, c), s.serial, c), c.next); }
    }
  }

  lemma RequestStartGood(f: Filter, s: State, q: Request)
    requires Offered(f) && Good(f, s)
    ensures Good(f, RequestStart(s, q))
  {
    hide HandleCommand, FilterUrl, SendRequest, Governed, Clean;
    var s0 := s.(level := 0, uri := q.uri);
    NewRequest(f, s, q.uri);
    var s1 := Look(s0, AtRequest, q.probe.write);
    LookBase(f, s.uri, s0, AtRequest, q.probe.write);
    if s1.ctrl { CommandGood(f, s.uri, s1, q.probe); }
    var s2 := if s1.ctrl then HandleCommand(s1, q.probe) else s1;
    FilterUrlGood(f, s.uri, s2);
    SendRequestGood(f, FilterUrl(s2), Entry);
  }

  lemma NewRequest(f: Filter, s: State, uri: string)
    requires Good(f, s)
    ensures Settled(f, s.uri, s.(level := 0, uri := uri))
  {
  }

  /** The URL filter settles the tool flag for the new request's URI. */
  lemma FilterUrlGood(f: Filter, uri: string, s: State)
    requires Offered(f) && Settled(f, uri, s)
    ensures Good(f, FilterUrl(s))
  {
    hide Contains, Passes, Script;
  }

  lemma SendRequestGood(f: Filter, s: State, edge: Edge)
    requires Good(f, s)
    ensures Good(f, SendRequest(s, edge))
  {
    hide Contains, Passes, Script;
  }

  lemma {:induction false} TopsGood(f: Filter, s: State, tops: seq<Calls>)
    requires Offered(f) && Good(f, s)
    ensures Good(f, RunTops(s, tops))
    decreases tops
  {
    hide Good, Run;
    if tops != [] {
      RunGood(f, s, tops[0]);
      TopsGood(f, Run(s, tops[0]).state, tops[1..]);
    }
  }

  /** The invariant over any number of requests, whatever the environment does. */
  lemma {:induction false} ServeAllGood(f: Filter, s: State, qs: seq<Request>)
    requires Offered(f) && Good(f, s)
    ensures Good(f, ServeAll(s, qs))
    decreases qs
  {
    if qs != [] {
      RequestStartGood(f, s, qs[0]);
      TopsGood(f, RequestStart(s, qs[0]), qs[0].tops);
      SendRequestGood(f, RunTops(RequestStart(s, qs[0]), qs[0].tops), Exit);
      ServeAllGood(f, Serve(s, qs[0]), qs[1..]);
    }
  }

  // ----- what it means for a run from module start-up

  /** The state `t` at which some hook of the calls `c`, run from `s`, has begun or ended. */
  ghost predicate WithinRun(s: State, c: Calls, t: State)
    decreases c
  {
    c.Call? &&
    var b := Begin(s, c);
    var inner := Run(b, c.body);
    var e := Finish(inner.state, Local(s, c), s.serial, c);
    || t == b || t == inner.state || t == e
    || WithinRun(b, c.body, t)
    || (!(inner.bailed || c.exits) && WithinRun(e, c.next, t))
  }

  ghost predicate WithinTops(s: State, tops: seq<Calls>, t: State)
    decreases tops
  {
    tops != [] && (WithinRun(s, tops[0], t) || WithinTops(Run(s, tops[0]).state, tops[1..], t))
  }

  /** The state `t` at some hook's beginning or end while the requests `qs` are served from `s`. */
  ghost predicate Within(s: State, qs: seq<Request>, t: State)
    decreases qs
  {
    t == s || (qs != [] && (t == RequestStart(s, qs[0]) || WithinTops(RequestStart(s, qs[0]), qs[0].tops, t)
                            || Within(Serve(s, qs[0]), qs[1..], t)))
  }

  lemma {:induction false} WithinRunGood(f: Filter, s: State, c: Calls, t: State)
    requires Offered(f) && Good(f, s) && WithinRun(s, c, t)
    ensures Good(f, t)
    decreases c
  {
    hide Begin, Finish, Local, Good, Run;
    var b := Begin(s, c);
    var inner := Run(b, c.body);
    var e := Finish(inner.state, Local(s, c), s.serial, c);
    BeginGood(f, s, c);
    RunGood(f, b, c.body);
    FinishGood(f, inner.state, Local(s, c), s.serial, c);
    if WithinRun(b, c.body, t) {
      WithinRunGood(f, b, c.body, t);
    } else if t != b && t != inner.state && t != e {
      WithinRunGood(f, e, c.next, t);
    }
  }

  lemma {:induction false} WithinTopsGood(f: Filter, s: State, tops: seq<Calls>, t: State)
    requires Offered(f) && Good(f, s) && WithinTops(s, tops, t)
    ensures Good(f, t)
    decreases tops
  {
    hide Good, Run, WithinRun;
    if WithinRun(s, tops[0], t) {
      WithinRunGood(f, s, tops[0], t);
    } else {
      RunGood(f, s, tops[0]);
      WithinTopsGood(f, Run(s, tops[0]).state, tops[1..], t);
    }
  }

  /** The invariant at every beginning and end of a hook in every run. */
  lemma {:induction false} WithinGood(f: Filter, s: State, qs: seq<Request>, t: State)
    requires Offered(f) && Good(f, s) && Within(s, qs, t)
    ensures Good(f, t)
    decreases qs
  {
    hide Good, RequestStart, WithinTops, RunTops, SendRequest;
    if t != s {
      var s1 := RequestStart(s, qs[0]);
      RequestStartGood(f, s, qs[0]);
      if WithinTops(s1, qs[0].tops, t) {
        WithinTopsGood(f, s1, qs[0].tops, t);
      } else if t != s1 {
        TopsGood(f, s1, qs[0].tops);
        SendRequestGood(f, RunTops(s1, qs[0].tops), Exit);
        WithinGood(f, Serve(s, qs[0]), qs[1..], t);
      }
    }
  }

  /** At every hook of every run: without a socket the tool flag is off and the filter is empty. */
  lemma NoSocketNoTrace(output: bool, qs: seq<Request>, t: State)
    requires Within(Init(output), qs, t)
    ensures t.sock == -1 ==> !t.flags.tool && t.filter == NO_FILTER
  {
    WithinGood(NO_FILTER, Init(output), qs, t);
  }

  /** At every hook of every run whose connections so far followed the tool's script for `f`: the tool flag is
      on only while `f` is in force and, for a URL filter, only in requests whose URI contains its content. */
  lemma ToolFlagMeansFilter(output: bool, qs: seq<Request>, f: Filter, t: State)
    requires Offered(f) && Within(Init(output), qs, t) && Progress(f, t.log).Some?
    ensures t.flags.tool ==> t.filter == f && (f.kind == URL_KIND ==> Contains(t.uri, f.content))
  {
    WithinGood(f, Init(output), qs, t);
  }

  /** In every run no frame, request or status is ever sent without an open socket. */
  lemma SendsNeedASocket(output: bool, qs: seq<Request>, p: Hist<Event>, e: Event)
    requires e.Sent? && Earlier(After(p, e), ServeAll(Init(output), qs).log)
    ensures e.fd != -1
  {
    ServeAllGood(NO_FILTER, Init(output), qs);
    CleanEarlier(After(p, e), ServeAll(Init(output), qs).log);
  }

  lemma {:induction false} CleanEarlier(p: Hist<Event>, h: Hist<Event>)
    requires Earlier(p, h) && Clean(h)
    ensures Clean(p)
  {
    if p != h { CleanEarlier(p, h.past); }
  }

  /** Number of reads that found the control bit on. */
  function Actives(h: Hist<Event>): nat {
    if h.Start? then 0 else Actives(h.past) + (if h.last.Probed? && h.last.active then 1 else 0)
  }

  /** Number of messages sent. */
  function Sends(h: Hist<Event>): nat {
    if h.Start? then 0 else Sends(h.past) + (if h.last.Sent? then 1 else 0)
  }

  lemma {:induction false} CountsGrow(p: Hist<Event>, h: Hist<Event>)
    requires Earlier(p, h)
    ensures Actives(p) <= Actives(h)
  {
    if p != h { CountsGrow(p, h.past); }
  }

  lemma {:induction false} QuietStaysSilent(p: Hist<Event>, h: Hist<Event>)
    requires Earlier(p, h) && Clean(h) && Quiet(p) && Actives(h) == Actives(p)
    ensures Quiet(h) && Sends(h) == Sends(p)
  {
    if p != h {
      CountsGrow(p, h.past);
      QuietStaysSilent(p, h.past);
    }
  }

  /** In every run: if some function entry finds the control bit off and from then on it is never seen
      on, nothing more is sent. */
  lemma ClearedBitSilences(output: bool, qs: seq<Request>, p: Hist<Event>)
    requires p.After? && p.last == Probed(AtEntry, false)
    requires Earlier(p, ServeAll(Init(output), qs).log) && Actives(ServeAll(Init(output), qs).log) == Actives(p)
    ensures Sends(ServeAll(Init(output), qs).log) == Sends(p)
  {
    ServeAllGood(NO_FILTER, Init(output), qs);
    QuietStaysSilent(p, ServeAll(Init(output), qs).log);
  }

  /** In every run whose connections all follow the tool's script for `f`, reconnections included: every frame
      sent passes `f`, and for a URL filter every message sent belongs to a request whose URI contains its
      content. */
  lemma SessionObeysFilter(output: bool, qs: seq<Request>, f: Filter, p: Hist<Event>, e: Event)
    requires Offered(f) && Progress(f, ServeAll(Init(output), qs).log).Some?
    requires e.Sent? && Earlier(After(p, e), ServeAll(Init(output), qs).log)
    ensures e.body.FrameBody? ==> Passes(f, e.body.fn)
    ensures f.kind == URL_KIND ==> Contains(e.uri, f.content)
  {
    ServeAllGood(f, Init(output), qs);
    DeliveredEarlier(f, After(p, e), ServeAll(Init(output), qs).log);
  }

  lemma {:induction false} DeliveredEarlier(f: Filter, p: Hist<Event>, h: Hist<Event>)
    requires Earlier(p, h) && Delivered(f, h)
    ensures Delivered(f, p)
  {
    if p != h { DeliveredEarlier(f, p, h.past); }
  }
}
