/** The stream of frame messages is properly nested in every run (extension/trace.c:1264-1396). */
module Nesting {
  import opened Basics
  import opened Executor

  /** Frames whose ENTRY was sent and whose EXIT may still come, innermost first. */
  datatype Stack = Bottom | Open(id: nat, level: nat, below: Stack)

  /** What a reader of the stream knows: the open frames, and how many it gave up waiting for. */
  datatype Reading = Reading(stack: Stack, lost: nat)

  /** An EXIT closes its own frame, which must be open at that level; frames opened later and still
      open are lost. */
  function Close(r: Reading, id: nat, level: nat): Option<Reading>
    decreases r.stack
  {
    match r.stack
    case Bottom => None
    case Open(i, l, below) =>
      if i == id then (if l == level then Some(Reading(below, r.lost)) else None)
      else Close(Reading(below, r.lost + 1), id, level)
  }

  /** Read the frame messages of `h`; None if some EXIT has no open ENTRY of its own at its level. */
  function Read(h: Hist<Event>): Option<Reading> {
    match h
    case Start => Some(Reading(Bottom, 0))
    case After(p, Sent(_, _, FrameBody(edge, id, level, _, _, _))) =>
      var r := Read(p);
      if r.None? then None
      else if edge.Entry? then Some(Reading(Open(id, level, r.value.stack), r.value.lost))
      else Close(r.value, id, level)
    case After(p, _) => Read(p)
  }

  /** All frames on the stack have numbers below `n`. */
  predicate Older(k: Stack, n: nat) {
    k.Open? ==> k.id < n && Older(k.below, n)
  }

  /** `k` is `base` with frames numbered from `n` on top. */
  predicate OnTop(k: Stack, base: Stack, n: nat) {
    k == base || (k.Open? && k.id >= n && OnTop(k.below, base, n))
  }

  /** Number of times the connection was given up. */
  function Drops(h: Hist<Event>): nat {
    if h.Start? then 0 else Drops(h.past) + (if h.last.Dropped? then 1 else 0)
  }

  /** From `s` to `t` no frame message was sent, and the tool flag went off only with a drop. */
  ghost predicate SameReading(s: State, t: State) {
    && Read(t.log) == Read(s.log) && Drops(s.log) <= Drops(t.log)
    && (s.flags.tool && Drops(t.log) == Drops(s.log) ==> t.flags.tool)
  }

  lemma ErrorReads(s: State, p: Probe)
    ensures SameReading(s, HandleError(s, p))
  {
    if s.sock != -1 {
      var s1 := Look(s, AtError, p.rewrite);
      assert SameReading(s, s1);
      assert SameReading(s1, if s1.ctrl then Connect(s1, p.refd) else s1);
    }
  }

  lemma {:induction false} ReceiveReads(s: State, inbox: seq<Msg>)
    ensures SameReading(s, ReceiveAll(s, inbox))
    decreases inbox
  {
    if inbox != [] {
      var s1 := s.Note(Got(inbox[0]));
      assert SameReading(s, s1) && SameReading(s1, Receive(s, inbox[0]));
      ReceiveReads(Receive(s, inbox[0]), inbox[1..]);
    }
  }

  lemma CommandReads(s: State, p: Probe)
    ensures SameReading(s, HandleCommand(s, p))
  {
    hide HandleError;
    var s1 := if s.sock == -1 then Connect(s, p.fd) else s;
    assert SameReading(s, s1);
    ErrorReads(s1, p);
    ReceiveReads(s1, p.inbox);
    ErrorReads(ReceiveAll(s1, p.inbox), p);
  }

  lemma CheckReads(s: State, p: Probe)
    ensures SameReading(s, CheckEntry(s, p))
  {
    hide HandleError, HandleCommand;
    var s1 := Look(s, AtEntry, p.write);
    assert SameReading(s, s1);
    CommandReads(s1, p);
    ErrorReads(s1, p);
  }

  lemma {:induction false} OlderMore(k: Stack, m: nat, n: nat)
    requires Older(k, m) && m <= n
    ensures Older(k, n)
  {
    if k.Open? { OlderMore(k.below, m, n); }
  }

  lemma {:induction false} OnTopMore(k: Stack, mid: Stack, base: Stack, m: nat, n: nat)
    requires OnTop(k, mid, n) && OnTop(mid, base, m) && m <= n
    ensures OnTop(k, base, m)
  {
    if k != mid { OnTopMore(k.below, mid, base, m, n); }
  }

  /** Whatever was left open on top of frame `id`, its EXIT closes it and uncovers what was below. */
  lemma {:induction false} CloseFinds(r: Reading, id: nat, level: nat, below: Stack)
    requires OnTop(r.stack, Open(id, level, below), id + 1)
    ensures var c := Close(r, id, level);
            c.Some? && c.value.stack == below && (r.stack == Open(id, level, below) ==> c.value.lost == r.lost)
    decreases r.stack
  {
    if r.stack != Open(id, level, below) { CloseFinds(Reading(r.stack.below, r.lost + 1), id, level, below); }
  }

  /** What a call makes of the reading `r0`: frames left open lie on top of it, and if the connection
      was never given up, none are: the messages of the call form a balanced word. */
  ghost predicate Nested(s: State, t: State) {
    var r0, r := Read(s.log), Read(t.log);
    && r0.Some? && r.Some?
    && s.serial <= t.serial && Older(r.value.stack, t.serial)
    && OnTop(r.value.stack, r0.value.stack, s.serial)
    && Drops(s.log) <= Drops(t.log)
    && (Drops(t.log) == Drops(s.log) ==> r == r0 && (s.flags.tool ==> t.flags.tool))
  }

  ghost predicate Readable(s: State) {
    Read(s.log).Some? && Older(Read(s.log).value.stack, s.serial)
  }

  lemma BeginReads(s: State, c: Calls)
    requires c.Call? && Readable(s)
    ensures var b := Begin(s, c); var r := Read(s.log).value;
            && Readable(b) && Drops(s.log) <= Drops(b.log)
            && Read(b.log).value == (if Local(s, c).tool then Reading(Open(s.serial, s.level + 1, r.stack), r.lost) else r)
            && ((s.flags.tool && Drops(b.log) == Drops(s.log)) || Local(s, c).tool ==> b.flags.tool)
  {
    hide CheckEntry;
    CheckReads(s, c.probe);
    OlderMore(Read(s.log).value.stack, s.serial, s.serial + 1);
  }

  /** The end of a call at state `t`, begun at `b` from state `s`. */
  lemma FinishReads(s: State, t: State, c: Calls)
    requires c.Call? && Readable(s) && t.level == s.level + 1 && Nested(Begin(s, c), t)
    ensures Nested(s, Finish(t, Local(s, c), s.serial, c))
  {
    hide Begin, Local, Tick, Nested;
    BeginReads(s, c);
    FinishCases(s, Begin(s, c), t, Local(s, c), c);
  }

  lemma FinishCases(s: State, b: State, t: State, local: Flags, c: Calls)
    requires c.Call? && Readable(s) && t.level == s.level + 1 && Nested(b, t)
    requires b.serial == s.serial + 1 && Drops(s.log) <= Drops(b.log)
    requires var r := Read(s.log).value;
             Read(b.log).value == if local.tool then Reading(Open(s.serial, s.level + 1, r.stack), r.lost) else r
    requires (s.flags.tool && Drops(b.log) == Drops(s.log)) || local.tool ==> b.flags.tool
    ensures Nested(s, Finish(t, local, s.serial, c))
  {
    hide Tick;
    var r, k := Read(s.log).value, Read(t.log).value.stack;
    if local.tool {
      var open := Open(s.serial, s.level + 1, r.stack);
      CloseFinds(Read(t.log).value, s.serial, s.level + 1, r.stack);
      OnTopMore(k, open, r.stack, s.serial, s.serial + 1);
      OlderMore(r.stack, s.serial, t.serial);
    } else {
      OnTopMore(k, r.stack, r.stack, s.serial, s.serial + 1);
    }
  }

  lemma NestedMore(s: State, t: State, u: State)
    requires Nested(s, t) && Nested(t, u)
    ensures Nested(s, u)
  {
    OnTopMore(Read(u.log).value.stack, Read(t.log).value.stack, Read(s.log).value.stack, s.serial, t.serial);
  }

  /** For every run of calls, with any bailouts, reconnections and flag changes: each EXIT closes its own
      ENTRY, last in first out, and without a drop the messages are balanced. */
  lemma {:induction false} RunNests(s: State, c: Calls)
    requires Readable(s)
    ensures Nested(s, Run(s, c).state)
    decreases c
  {
    hide Begin, Finish, Local, Nested;
    if c.Nil? {
      NestedSame(s);
    } else {
      BeginReads(s, c);
      RunNests(Begin(s, c), c.body);
      var inner := Run(Begin(s, c), c.body);
      FinishReads(s, inner.state, c);
      var ended := Finish(inner.state, Local(s, c), s.serial, c);
      if !(inner.bailed || c.exits) {
        NestedReadable(s, ended);
        RunNests(ended, c.next);
        NestedMore(s, ended, Run(ended, c.next).state);
      }
    }
  }

  lemma NestedSame(s: State)
    requires Readable(s)
    ensures Nested(s, s)
  {
  }

  lemma NestedReadable(s: State, t: State)
    requires Nested(s, t)
    ensures Readable(t)
  {
  }

  lemma {:induction false} TopsReadable(s: State, tops: seq<Calls>)
    requires Readable(s)
    ensures Readable(RunTops(s, tops))
    decreases tops
  {
    hide Readable, Run;
    if tops != [] {
      RunNests(s, tops[0]);
      NestedReadable(s, Run(s, tops[0]).state);
      TopsReadable(Run(s, tops[0]).state, tops[1..]);
    }
  }

  lemma RequestReadable(s: State, q: Request)
    requires Readable(s)
    ensures Readable(RequestStart(s, q)) && Readable(SendRequest(s, Exit))
  {
    hide HandleCommand, Contains;
    var s1 := Look(s.(level := 0, uri := q.uri), AtRequest, q.probe.write);
    assert SameReading(s, s1);
    CommandReads(s1, q.probe);
  }

  /** Over any number of requests no EXIT is ever sent without its own open ENTRY. */
  lemma {:induction false} AllRunsNest(s: State, qs: seq<Request>)
    requires Readable(s)
    ensures Readable(ServeAll(s, qs))
    decreases qs
  {
    hide Readable, RequestStart, RunTops;
    if qs != [] {
      RequestReadable(s, qs[0]);
      var s1 := RequestStart(s, qs[0]);
      TopsReadable(s1, qs[0].tops);
      RequestReadable(RunTops(s1, qs[0].tops), qs[0]);
      AllRunsNest(Serve(s, qs[0]), qs[1..]);
    }
  }

  /** In particular from module start-up. */
  lemma StreamNestsFromStart(output: bool, qs: seq<Request>)
    ensures Read(ServeAll(Init(output), qs).log).Some?
  {
    AllRunsNest(Init(output), qs);
  }
}
