/** What the tool's commands do to the extension, and what becomes of a lost connection
    (extension/trace.c:602-628, 1126-1213, 1252-1257; src/trace.c:104-123; src/status.c:225-245). */
module Commands {
  import opened Basics
  import opened Executor
  import opened Session

  // ----- an inbox is obeyed

  /** The messages received, in order. */
  function Received(h: Hist<Event>): seq<Msg> {
    if h.Start? then [] else Received(h.past) + if h.last.Got? then [h.last.msg] else []
  }

  /** All messages are received in order; the tool flag is on afterwards if and only if it was on or one of
      them is DO_TRACE; nothing else but the filter changes. */
  lemma {:induction false} InboxObeyed(s: State, inbox: seq<Msg>)
    ensures var t := ReceiveAll(s, inbox);
            && Received(t.log) == Received(s.log) + inbox
            && (t.flags.tool <==> s.flags.tool || DoTrace in inbox)
            && t.flags.output == s.flags.output && t.ctrl == s.ctrl && t.sock == s.sock
            && ((forall m <- inbox :: !m.DoFilter?) ==> t.filter == s.filter)
    decreases inbox
  {
    if inbox == [] {
      assert Received(s.log) + inbox == Received(s.log);
    } else {
      var t := Receive(s, inbox[0]);
      ReceivedOne(s, inbox[0]);
      InboxObeyed(t, inbox[1..]);
      assert inbox == [inbox[0]] + inbox[1..];
      assert Received(t.log) + inbox[1..] == Received(s.log) + inbox;
    }
  }

  lemma ReceivedOne(s: State, m: Msg)
    ensures Received(Receive(s, m).log) == Received(s.log) + [m]
  {
    assert Received(s.Note(Got(m)).log) == Received(s.log) + [m];
    assert Received(s.log) + [m] + [] == Received(s.log) + [m];
  }

  /** Message `k` is the last DO_FILTER of the inbox. */
  predicate LastFilter(inbox: seq<Msg>, k: nat) {
    k < |inbox| && inbox[k].DoFilter? && forall j | k < j < |inbox| :: !inbox[j].DoFilter?
  }

  /** The last DO_FILTER of an inbox is the filter in force afterwards. */
  lemma {:induction false} LastFilterWins(s: State, inbox: seq<Msg>, k: nat)
    requires LastFilter(inbox, k)
    ensures ReceiveAll(s, inbox).filter == inbox[k].filter
    decreases inbox
  {
    if k == 0 {
      InboxObeyed(Receive(s, inbox[0]), inbox[1..]);
    } else {
      LastFilterWins(Receive(s, inbox[0]), inbox[1..], k - 1);
    }
  }

  // ----- every status asked for is sent, and no other

  predicate Asks(h: Hist<Event>) { h.After? && h.last == Got(DoStatus) }

  predicate IsStatus(e: Event) { e.Sent? && e.body.StatusBody? }

  /** Every status follows directly on its own DO_STATUS, and every DO_STATUS but the last event is followed so. */
  predicate Paired(h: Hist<Event>) { h.After? ==> Paired(h.past) && (IsStatus(h.last) <==> Asks(h.past)) }

  predicate Answered(h: Hist<Event>) { Paired(h) && !Asks(h) }

  lemma ErrorAnswers(s: State, p: Probe)
    requires Answered(s.log)
    ensures Answered(HandleError(s, p).log)
  {
    if s.sock != -1 {
      var s1 := Look(s, AtError, p.rewrite);
      assert Answered(s1.log);
      assert Answered(Connect(s1, p.refd).log);
    }
  }

  lemma {:induction false} InboxAnswers(s: State, inbox: seq<Msg>)
    requires Answered(s.log)
    ensures Answered(ReceiveAll(s, inbox).log)
    decreases inbox
  {
    if inbox != [] {
      assert Paired(s.Note(Got(inbox[0])).log);
      InboxAnswers(Receive(s, inbox[0]), inbox[1..]);
    }
  }

  lemma CommandAnswers(s: State, p: Probe)
    requires Answered(s.log)
    ensures Answered(HandleCommand(s, p).log)
  {
    hide HandleError;
    var s1 := if s.sock == -1 then Connect(s, p.fd) else s;
    assert Answered(s1.log);
    ErrorAnswers(s1, p);
    InboxAnswers(s1, p.inbox);
    ErrorAnswers(ReceiveAll(s1, p.inbox), p);
  }

  lemma CheckAnswers(s: State, p: Probe)
    requires Answered(s.log)
    ensures Answered(CheckEntry(s, p).log)
  {
    hide HandleError, HandleCommand;
    var s1 := Look(s, AtEntry, p.write);
    assert Answered(s1.log);
    CommandAnswers(s1, p);
    ErrorAnswers(s1, p);
  }

  lemma BeginAnswers(s: State, c: Calls)
    requires c.Call? && Answered(s.log)
    ensures Answered(Begin(s, c).log)
  {
    hide CheckEntry;
    CheckAnswers(s, c.probe);
  }

  lemma FinishAnswers(s: State, local: Flags, id: nat, c: Calls)
    requires c.Call? && s.level > 0 && Answered(s.log)
    ensures Answered(Finish(s, local, id, c).log)
  {
    hide Tick;
  }

  lemma {:induction false} RunAnswers(s: State, c: Calls)
    requires Answered(s.log)
    ensures Answered(Run(s, c).state.log)
    decreases c
  {
    hide Begin, Finish, Local, Answered;
    if c.Call? {
      BeginAnswers(s, c);
      RunAnswers(Begin(s, c), c.body);
      var inner := Run(Begin(s, c), c.body);
      FinishAnswers(inner.state, Local(s, c), s.serial, c);
      if !(inner.bailed || c.exits) { RunAnswers(Finish(inner.state, Local(s, c), s.serial, c), c.next); }
    }
  }

  lemma {:induction false} TopsAnswer(s: State, tops: seq<Calls>)
    requires Answered(s.log)
    ensures Answered(RunTops(s, tops).log)
    decreases tops
  {
    hide Answered, Run;
    if tops != [] {
      RunAnswers(s, tops[0]);
      TopsAnswer(Run(s, tops[0]).state, tops[1..]);
    }
  }

  lemma RequestAnswers(s: State, q: Request)
    requires Answered(s.log)
    ensures Answered(RequestStart(s, q).log) && Answered(SendRequest(s, Exit).log)
  {
    hide HandleCommand, Contains;
    var s1 := Look(s.(level := 0, uri := q.uri), AtRequest, q.probe.write);
    assert Answered(s1.log);
    CommandAnswers(s1, q.probe);
  }

  lemma {:induction false} ServeAllAnswers(s: State, qs: seq<Request>)
    requires Answered(s.log)
    ensures Answered(ServeAll(s, qs).log)
    decreases qs
  {
    hide Answered, RequestStart, RunTops;
    if qs != [] {
      RequestAnswers(s, qs[0]);
      var s1 := RequestStart(s, qs[0]);
      TopsAnswer(s1, qs[0].tops);
      RequestAnswers(RunTops(s1, qs[0].tops), qs[0]);
      ServeAllAnswers(Serve(s, qs[0]), qs[1..]);
    }
  }

  function Statuses(h: Hist<Event>): nat {
    if h.Start? then 0 else Statuses(h.past) + if IsStatus(h.last) then 1 else 0
  }

  function Asked(h: Hist<Event>): nat {
    if h.Start? then 0 else Asked(h.past) + if h.last == Got(DoStatus) then 1 else 0
  }

  lemma {:induction false} PairsCount(h: Hist<Event>)
    requires Paired(h)
    ensures Asked(h) == Statuses(h) + if Asks(h) then 1 else 0
  {
    if h.After? { PairsCount(h.past); }
  }

  /** In every run each DO_STATUS is answered at once by one status, and no other status is ever sent. */
  lemma EveryStatusAnswered(output: bool, qs: seq<Request>)
    ensures var h := ServeAll(Init(output), qs).log; Answered(h) && Statuses(h) == Asked(h)
  {
    ServeAllAnswers(Init(output), qs);
    PairsCount(ServeAll(Init(output), qs).log);
  }

  // ----- connecting, losing the connection, and the control bit

  /** The control bit as the next read finds it. */
  function BitAfter(s: State, w: Write): bool { if w.Put? then w.bit else s.ctrl }

  /** Nothing is traced to the tool and nothing links to it. */
  predicate Cut(s: State) { s.sock == -1 && !s.flags.tool && s.filter == NO_FILTER && !s.ctrl }

  /** After an error the connection goes on, on the new descriptor and with flags and filter kept, if and only if
      there was one, the bit is still on and the one retry succeeds; otherwise all is cut. */
  lemma RetryIff(s: State, p: Probe)
    ensures var t := HandleError(s, p);
            if s.sock != -1 && BitAfter(s, p.rewrite) && p.refd != -1
            then t.sock == p.refd && t.flags == s.flags && t.filter == s.filter && t.ctrl
            else Cut(t) && t.flags.output == s.flags.output
  {
  }

  /** What obeying commands makes of `s` when there is or comes a connection: the whole inbox is received on it;
      a broken one goes the way of every error. */
  ghost predicate Obeyed(s: State, p: Probe, t: State) {
    var fd := if s.sock == -1 then p.fd else s.sock;
    var on := p.ending.Drained? || ((p.rewrite.Put? ==> p.rewrite.bit) && p.refd != -1);
    && Received(t.log) == Received(s.log) + p.inbox
    && if !on then Cut(t)
       else
         && t.sock == (if p.ending.Drained? then fd else p.refd) && t.ctrl
         && (t.flags.tool <==> s.flags.tool || DoTrace in p.inbox)
         && ((forall m <- p.inbox :: !m.DoFilter?) ==> t.filter == s.filter)
         && (forall k: nat | LastFilter(p.inbox, k) :: t.filter == p.inbox[k].filter)
  }

  lemma CommandObeys(s: State, p: Probe)
    requires s.ctrl && (s.sock != -1 || p.fd != -1)
    ensures Obeyed(s, p, HandleCommand(s, p))
  {
    hide HandleError, Received;
    var s1 := if s.sock == -1 then Connect(s, p.fd) else s;
    var s2 := ReceiveAll(s1, p.inbox);
    assert Received(s1.log) == Received(s.log) by { if s.sock == -1 { NotReceived(s, Connected(p.fd)); } }
    InboxObeyed(s1, p.inbox);
    forall k: nat | LastFilter(p.inbox, k) ensures s2.filter == p.inbox[k].filter { LastFilterWins(s1, p.inbox, k); }
    RetryIff(s2, p);
    ErrorReceives(s2, p);
  }

  lemma NotReceived(s: State, e: Event)
    requires !e.Got?
    ensures Received(s.Note(e).log) == Received(s.log)
  {
    assert Received(s.log) + [] == Received(s.log);
  }

  lemma ErrorReceives(s: State, p: Probe)
    ensures Received(HandleError(s, p).log) == Received(s.log)
  {
    hide Received;
    var s1 := Look(s, AtError, p.rewrite);
    NotReceived(s, Dropped);
    NotReceived(s, Probed(AtError, s1.ctrl));
    NotReceived(s1, Dropped);
    NotReceived(s1, Connected(p.refd));
  }

  /** A control check at a function entry that finds the bit on connects if need be and obeys the inbox. */
  lemma CheckConnects(s: State, p: Probe)
    requires BitAfter(s, p.write) && (s.sock != -1 || p.fd != -1)
    ensures Obeyed(s, p, CheckEntry(s, p))
  {
    hide HandleCommand, Received;
    NotReceived(s, Probed(AtEntry, true));
    CommandObeys(Look(s, AtEntry, p.write), p);
  }

  lemma CommandCuts(s: State, p: Probe)
    requires s.sock == -1 && p.fd == -1
    ensures Cut(HandleCommand(s, p))
  {
  }

  /** So does a request's start, before its URL filter decides, and without a connection it leaves everything cut;
      one that finds the bit off leaves connection and filter as they are. */
  lemma RequestConnects(s: State, q: Request)
    ensures var t := RequestStart(s, q);
            if !BitAfter(s, q.probe.write) then
              && t.sock == s.sock && t.filter == s.filter && !t.ctrl && Received(t.log) == Received(s.log)
              && (!s.filter.kind.url ==> t.flags == s.flags)
            else if s.sock == -1 && q.probe.fd == -1 then Cut(t)
            else exists tool :: Obeyed(s, q.probe, t.SetTool(tool)) && (!t.filter.kind.url ==> tool == t.flags.tool)
  {
    hide HandleCommand, Received, Contains, Obeyed;
    var s0 := s.(level := 0, uri := q.uri);
    var s1 := Look(s0, AtRequest, q.probe.write);
    NotReceived(s0, Probed(AtRequest, s1.ctrl));
    var linked := s.sock != -1 || q.probe.fd != -1;
    if s1.ctrl && linked { CommandObeys(s1, q.probe); }
    if s1.ctrl && !linked { CommandCuts(s1, q.probe); }
    var s2 := if s1.ctrl then HandleCommand(s1, q.probe) else s1;
    var t := RequestStart(s, q);
    var u := FilterUrl(s2);
    NotReceived(u, Sent(u.sock, u.uri, RequestBody(Entry)));
    if s1.ctrl && linked { ObeyedSame(s1, q.probe, s2, s, t.SetTool(s2.flags.tool)); }
  }

  lemma ObeyedSame(s: State, p: Probe, t: State, s1: State, t1: State)
    requires Obeyed(s, p, t) && Received(s1.log) == Received(s.log) && Received(t1.log) == Received(t.log)
    requires s1.sock == s.sock && s1.flags == s.flags && s1.filter == s.filter
    requires t1.sock == t.sock && t1.flags == t.flags && t1.filter == t.filter && t1.ctrl == t.ctrl
    ensures Obeyed(s1, p, t1)
  {
  }

  /** A control check that finds the bit off, or that cannot connect, leaves everything cut, unless an open
      connection is retried because the bit comes back on just then. */
  lemma CheckCuts(s: State, p: Probe)
    requires s.sock == -1 ==> !s.flags.tool && s.filter == NO_FILTER
    requires if BitAfter(s, p.write) then s.sock == -1 && p.fd == -1 else p.rewrite != Put(true)
    ensures Cut(CheckEntry(s, p))
  {
  }

  // ----- the tool's script starts its session

  /** A newly attached process that received the tool's whole script has the tool's filter in force, and its tool
      flag is on exactly if the filter is not by URL. */
  lemma ScriptStartsSession(s: State, p: Probe, f: Filter)
    requires Offered(f) && s.sock == -1 && !s.flags.tool && s.filter == NO_FILTER
    requires p.write == Put(true) && p.fd != -1 && p.inbox == Script(f) && p.ending.Drained?
    ensures var t := CheckEntry(s, p);
            t.sock == p.fd && t.filter == f && (t.flags.tool <==> f.kind != URL_KIND) && t.ctrl
  {
    hide HandleError;
    CheckConnects(s, p);
    var s2 := Connect(Look(s, AtEntry, p.write), p.fd);
    if f.kind != EMPTY_KIND { LastFilterWins(s2, p.inbox, 0); }
  }

  // ----- the filters

  /** Which functions a filter lets through: all without a name filter; by name, those whose name, or whose
      class's name, contains the content. */
  lemma FilterMeaning(content: string, fn: Func)
    ensures Passes(Filter(EMPTY_KIND, content), fn) && Passes(Filter(URL_KIND, content), fn)
    ensures Passes(Filter(FUNCTION_KIND, content), fn)
            <==> fn.name.Some? && exists a, b :: fn.name.value == a + content + b
    ensures Passes(Filter(CLASS_KIND, content), fn)
            <==> fn.scope.Some? && exists a, b :: fn.scope.value == a + content + b
  {
    if fn.name.Some? { ContainsMeans(fn.name.value, content); }
    if fn.scope.Some? { ContainsMeans(fn.scope.value, content); }
  }

  lemma ContainsMeans(hay: string, needle: string)
    ensures Contains(hay, needle) <==> exists a, b :: hay == a + needle + b
  {
    if Contains(hay, needle) {
      var i :| 0 <= i <= |hay| && MatchesAt(hay, needle, i);
      assert hay == hay[..i] + hay[i..i + |needle|] + hay[i + |needle|..];
    }
    forall a, b | hay == a + needle + b ensures Contains(hay, needle) {
      assert hay[|a|..|a| + |needle|] == needle;
      assert MatchesAt(hay, needle, |a|);
    }
  }
}
