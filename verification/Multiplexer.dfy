/** The command-line tool's select loop over any number of traced processes, as functions on one state
    (src/trace.c:33-208; src/cli.h:20-26). */
module Multiplexer {
  import opened Basics
  import Executor
  import Session

  const UNLIMITED: int := -1

  // ----- the output limits

  /** Remaining output; both are -1 or were positive at the start. */
  datatype Limits = Limits(frame: int, request: int)

  /** EXIT frames and finished requests displayed so far. */
  datatype Shown = Shown(frames: nat, requests: nat)

  datatype Item = FrameEntry | FrameExit | RequestEntry | RequestExit | Strange

  /** What one poll of a client finds: messages in order, then nothing more for now or an error. */
  datatype Feed = Feed(items: seq<Item>, broken: bool)

  function Decrement(limit: int): int { if limit != UNLIMITED then limit - 1 else limit }

  /** The limits, what has been displayed, and a return code: 0, -1 for a lost client, -2 to stop. */
  datatype Read = Read(limits: Limits, shown: Shown, ret: int)

  /** trace_single_process with `times` receives left. */
  function ReadClient(l: Limits, sh: Shown, f: Feed, times: nat): Read
    decreases times
  {
    if times == 0 then Read(l, sh, 0)
    else if f.items == [] then Read(l, sh, if f.broken then -1 else 0)
    else
      var next := Feed(f.items[1..], f.broken);
      match f.items[0]
      case FrameExit =>
        var l1, sh1 := l.(frame := Decrement(l.frame)), sh.(frames := sh.frames + 1);
        if l1.frame == 0 then Read(l1, sh1, -2) else ReadClient(l1, sh1, next, times - 1)
      case RequestExit =>
        var l1, sh1 := l.(request := Decrement(l.request)), sh.(requests := sh.requests + 1);
        if l1.request == 0 then Read(l1, sh1, -2) else ReadClient(l1, sh1, next, times - 1)
      case _ => ReadClient(l, sh, next, times - 1)
  }

  // ----- the loop

  /** A client attached and the commands it was sent, or a client's descriptor closed. */
  datatype FdEvent = Accepted(fd: int, told: seq<Executor.Msg>) | Closed(fd: int)

  datatype State = State(sfd: int, filter: Executor.Filter, clients: set<int>, maxfd: int, limits: Limits, shown: Shown,
                         log: Hist<FdEvent>)

  /** One pass of the loop: nothing ready, select failing, a connection, or clients with data. */
  datatype Round = Idle | SelectFails | Attach(hint: int) | Ready(feeds: map<int, Feed>)

  function Begin(sfd: int, filter: Executor.Filter, limits: Limits): State {
    State(sfd, filter, {}, sfd, limits, Shown(0, 0), Start)
  }

  /** accept returns any descriptor that is not open and lies above the listening one: the environment's
      hint if it is such, else the next unused one. */
  function Accept(sfd: int, clients: set<int>, maxfd: int, hint: int): int {
    if hint > sfd && hint !in clients then hint else maxfd + 1
  }

  function AttachClient(st: State, hint: int): State {
    var cfd := Accept(st.sfd, st.clients, st.maxfd, hint);
    st.(clients := st.clients + {cfd}, maxfd := if cfd > st.maxfd then cfd else st.maxfd,
        log := After(st.log, Accepted(cfd, Session.Script(st.filter))))
  }

  function Close(st: State, cfd: int): State {
    st.(clients := st.clients - {cfd}, log := After(st.log, Closed(cfd)))
  }

  /** The state, and None to go on or the code to leave the loop with. */
  datatype Step = Step(state: State, done: Option<int>)

  /** Read the ready clients from descriptor `cfd` on, in order. */
  function Poll(st: State, feeds: map<int, Feed>, cfd: int): Step
    decreases st.maxfd - cfd + 1
  {
    if cfd > st.maxfd then Step(st, None)
    else if cfd !in feeds || cfd !in st.clients then Poll(st, feeds, cfd + 1)
    else
      var r := ReadClient(st.limits, st.shown, feeds[cfd], 10);
      var st1 := st.(limits := r.limits, shown := r.shown);
      if r.ret == -2 then Step(st1, Some(-2))
      else Poll(if r.ret == -1 then Close(st1, cfd) else st1, feeds, cfd + 1)
  }

  function Turn(st: State, round: Round): Step {
    match round
    case Idle => Step(st, None)
    case SelectFails => Step(st, Some(-1))
    case Attach(hint) => Step(AttachClient(st, hint), None)
    case Ready(feeds) => Poll(st, feeds, st.sfd + 1)
  }

  /** The loop until it is left; when the rounds are used up the user interrupts it. */
  function Loop(st: State, rounds: seq<Round>): (r: (State, int))
    decreases rounds
  {
    if rounds == [] then (st, 0) else
      var step := Turn(st, rounds[0]);
      if step.done.Some? then (step.state, step.done.value) else Loop(step.state, rounds[1..])
  }

  /** Close the remaining clients from `cfd` on. */
  function CloseAll(st: State, cfd: int): State
    decreases st.maxfd - cfd + 1
  {
    if cfd > st.maxfd then st else CloseAll(if cfd in st.clients then Close(st, cfd) else st, cfd + 1)
  }

  function TraceExt(sfd: int, filter: Executor.Filter, limits: Limits, rounds: seq<Round>): (State, int) {
    var (st, ret) := Loop(Begin(sfd, filter, limits), rounds);
    (CloseAll(st, sfd + 1), ret)
  }

  // ----- the limit is global and exact

  /** A limit that is unset or positive. */
  predicate Sane(l: Limits) { (l.frame == UNLIMITED || l.frame > 0) && (l.request == UNLIMITED || l.request > 0) }

  function Count(items: seq<Item>, kind: Item): nat { multiset(items)[kind] }

  /** The items reach a limit. */
  predicate Full(l: Limits, s: seq<Item>) {
    (l.frame > 0 && Count(s, FrameExit) >= l.frame) || (l.request > 0 && Count(s, RequestExit) >= l.request)
  }

  /** Reading `s` ends behind its first `k` items: the last of these is the one that reaches a limit, or they
      are all there are. */
  predicate StopsAt(l: Limits, s: seq<Item>, k: nat) {
    k <= |s| && (k > 0 ==> !Full(l, s[..k - 1])) && (Full(l, s[..k]) || k == |s|)
  }

  /** What is displayed when `s` is read after `sh`. */
  function Plus(sh: Shown, s: seq<Item>): Shown {
    Shown(sh.frames + Count(s, FrameExit), sh.requests + Count(s, RequestExit))
  }

  function Rest(limit: int, used: nat): int { if limit == UNLIMITED then UNLIMITED else limit - used }

  /** What is left of the limits when `s` is read. */
  function Less(l: Limits, s: seq<Item>): Limits {
    Limits(Rest(l.frame, Count(s, FrameExit)), Rest(l.request, Count(s, RequestExit)))
  }

  lemma FullGrows(l: Limits, a: seq<Item>, b: seq<Item>)
    requires Full(l, a)
    ensures Full(l, a + b)
  {
  }

  /** A limit reached early is reached there whatever follows. */
  lemma StopStays(l: Limits, a: seq<Item>, b: seq<Item>, k: nat)
    requires StopsAt(l, a, k) && Full(l, a)
    ensures StopsAt(l, a + b, k) && Full(l, a + b) && (a + b)[..k] == a[..k]
  {
    FullGrows(l, a, b);
    assert (a + b)[..k] == a[..k];
    if k > 0 { assert (a + b)[..k - 1] == a[..k - 1]; }
    if k == |a| { assert a[..k] == a; }
  }

  lemma CountJoins(a: seq<Item>, b: seq<Item>)
    ensures forall x :: Count(a + b, x) == Count(a, x) + Count(b, x)
  {
  }

  lemma FullShifts(l: Limits, a: seq<Item>, b: seq<Item>)
    requires Sane(l) && !Full(l, a)
    ensures Full(l, a + b) <==> Full(Less(l, a), b)
    ensures Less(l, a + b) == Less(Less(l, a), b)
  {
    CountJoins(a, b);
    hide Count;
  }

  /** Reading on with what is left of the limits is reading everything with the limits. */
  lemma StopShifts(l: Limits, sh: Shown, a: seq<Item>, b: seq<Item>, k: nat)
    requires Sane(l) && !Full(l, a) && StopsAt(Less(l, a), b, k)
    ensures StopsAt(l, a + b, |a| + k)
    ensures Full(l, a + b) <==> Full(Less(l, a), b)
    ensures Plus(Plus(sh, a), b[..k]) == Plus(sh, (a + b)[..|a| + k])
    ensures Less(l, a + b) == Less(Less(l, a), b)
  {
    FullShifts(l, a, b);
    FullShifts(l, a, b[..k]);
    hide Full, Less, Count, Sane;
    assert (a + b)[..|a| + k] == a + b[..k];
    CountJoins(a, b[..k]);
    if k > 0 {
      assert (a + b)[..|a| + k - 1] == a + b[..k - 1];
      FullShifts(l, a, b[..k - 1]);
    } else if a != [] {
      assert (a + b)[..|a| - 1] == a[..|a| - 1];
      assert a == a[..|a| - 1] + [a[|a| - 1]];
      if Full(l, a[..|a| - 1]) { FullGrows(l, a[..|a| - 1], [a[|a| - 1]]); }
    }
  }

  lemma SaneLeft(l: Limits, s: seq<Item>)
    requires Sane(l) && !Full(l, s)
    ensures Sane(Less(l, s))
  {
  }

  function Upto(s: seq<Item>, n: nat): seq<Item> { if |s| < n then s else s[..n] }

  lemma NoItem(l: Limits, sh: Shown)
    requires Sane(l)
    ensures StopsAt(l, [], 0) && !Full(l, []) && Less(l, []) == l && Plus(sh, [][..0]) == sh
  {
    var none: seq<Item> := [];
    assert none[..0] == none;
  }

  lemma OneItem(l: Limits, sh: Shown, x: Item)
    requires Sane(l)
    ensures StopsAt(l, [x], 1) && [x][..1] == [x]
    ensures Full(l, [x]) <==> (x.FrameExit? && l.frame == 1) || (x.RequestExit? && l.request == 1)
    ensures Less(l, [x]) == (match x case FrameExit => l.(frame := Decrement(l.frame))
                                     case RequestExit => l.(request := Decrement(l.request))
                                     case _ => l)
    ensures Plus(sh, [x]) == (match x case FrameExit => sh.(frames := sh.frames + 1)
                                      case RequestExit => sh.(requests := sh.requests + 1)
                                      case _ => sh)
  {
    assert [x][..0] == [];
    assert [x][..1] == [x];
  }

  /** Reading has displayed the first `k` of the items `s` offered, and what is returned for it. */
  predicate HasRead(l: Limits, sh: Shown, s: seq<Item>, lost: bool, k: nat, r: Read) {
    && StopsAt(l, s, k) && r.shown == Plus(sh, s[..k])
    && if Full(l, s) then r.ret == -2 else r.limits == Less(l, s) && r.ret == if lost then -1 else 0
  }

  /** One poll reads the first `k` items of the feed and displays exactly their EXIT frames and finished
      requests. The code is -2 exactly when the items offered reach a limit, and then item `k - 1` is the one that
      does; otherwise all offered items are read, and the code is -1 exactly when the feed breaks off before
      `times` items. */
  lemma {:induction false} ReadClientReads(l: Limits, sh: Shown, f: Feed, times: nat) returns (k: nat)
    requires Sane(l)
    ensures HasRead(l, sh, Upto(f.items, times), f.broken && |f.items| < times, k, ReadClient(l, sh, f, times))
    decreases times
  {
    hide Full, StopsAt, Less, Plus, Sane;
    if times == 0 || f.items == [] {
      assert Upto(f.items, times) == [];
      NoItem(l, sh);
      k := 0;
    } else {
      hide HasRead, ReadClient;
      var x, next := f.items[0], Feed(f.items[1..], f.broken);
      assert Upto(f.items, times) == [x] + Upto(next.items, times - 1);
      assert f == Feed([x] + next.items, next.broken);
      k := ReadHead(l, sh, x, next, times - 1);
    }
  }

  lemma {:induction false} ReadHead(l: Limits, sh: Shown, x: Item, next: Feed, times: nat) returns (k: nat)
    requires Sane(l)
    ensures HasRead(l, sh, [x] + Upto(next.items, times), next.broken && |next.items| < times, k,
                    ReadClient(l, sh, Feed([x] + next.items, next.broken), times + 1))
    decreases times + 1, 0
  {
    hide Full, StopsAt, Less, Plus, Sane, Upto;
    var t := Upto(next.items, times);
    assert ([x] + next.items)[1..] == next.items;
    OneItem(l, sh, x);
    ReadStep(l, sh, x, next, times);
    if Full(l, [x]) {
      k := 1;
      StopStays(l, [x], t, 1);
    } else {
      SaneLeft(l, [x]);
      var j := ReadClientReads(Less(l, [x]), Plus(sh, [x]), next, times);
      StopShifts(l, sh, [x], t, j);
      k := 1 + j;
    }
  }

  /** One receive. */
  lemma ReadStep(l: Limits, sh: Shown, x: Item, next: Feed, times: nat)
    requires Sane(l)
    ensures ReadClient(l, sh, Feed([x] + next.items, next.broken), times + 1) ==
            if Full(l, [x]) then Read(Less(l, [x]), Plus(sh, [x]), -2)
            else ReadClient(Less(l, [x]), Plus(sh, [x]), next, times)
  {
    OneItem(l, sh, x);
    hide Full, Less, Plus;
    assert ([x] + next.items)[1..] == next.items;
  }

  // ----- the stream the rounds offer, whatever the limits

  /** What one poll offers of a feed. */
  function Offered(f: Feed): seq<Item> { Upto(f.items, 10) }

  /** The process is gone when its feed breaks off within one poll. */
  predicate Lost(f: Feed) { f.broken && |f.items| < 10 }

  /** The items of the ready clients in order of their descriptors. */
  function RoundItems(clients: set<int>, feeds: map<int, Feed>, cfd: int, maxfd: int): seq<Item>
    decreases maxfd - cfd + 1
  {
    if cfd > maxfd then [] else
      (if cfd in clients && cfd in feeds then Offered(feeds[cfd]) else [])
      + RoundItems(clients, feeds, cfd + 1, maxfd)
  }

  /** The clients that a round from descriptor `cfd` on does not lose. */
  function Staying(clients: set<int>, feeds: map<int, Feed>, cfd: int): set<int> {
    set c <- clients | !(c >= cfd && c in feeds && Lost(feeds[c]))
  }

  /** All items of the clients attached in the rounds, until select fails. */
  function Stream(sfd: int, clients: set<int>, maxfd: int, rounds: seq<Round>): seq<Item>
    decreases rounds
  {
    if rounds == [] then [] else
      match rounds[0]
      case Idle => Stream(sfd, clients, maxfd, rounds[1..])
      case SelectFails => []
      case Attach(hint) =>
        var cfd := Accept(sfd, clients, maxfd, hint);
        Stream(sfd, clients + {cfd}, if cfd > maxfd then cfd else maxfd, rounds[1..])
      case Ready(feeds) =>
        RoundItems(clients, feeds, sfd + 1, maxfd) + Stream(sfd, Staying(clients, feeds, sfd + 1), maxfd, rounds[1..])
  }

  lemma {:induction false} ItemsAbove(c1: set<int>, c2: set<int>, feeds: map<int, Feed>, cfd: int, maxfd: int)
    requires forall c | c >= cfd :: c in c1 <==> c in c2
    ensures RoundItems(c1, feeds, cfd, maxfd) == RoundItems(c2, feeds, cfd, maxfd)
    decreases maxfd - cfd + 1
  {
    if cfd <= maxfd { ItemsAbove(c1, c2, feeds, cfd + 1, maxfd); }
  }

  /** What a poll of the clients from `cfd` on has done, `s` being the items offered. */
  ghost predicate Polled(st: State, feeds: map<int, Feed>, cfd: int, s: seq<Item>, k: nat, p: Step) {
    && StopsAt(st.limits, s, k) && p.state.shown == Plus(st.shown, s[..k])
    && p.state.sfd == st.sfd && p.state.maxfd == st.maxfd
    && if Full(st.limits, s) then p.done == Some(-2)
       else p.done == None && p.state.limits == Less(st.limits, s) && p.state.clients == Staying(st.clients, feeds, cfd)
  }

  lemma {:induction false} PollReads(st: State, feeds: map<int, Feed>, cfd: int) returns (k: nat)
    requires Sane(st.limits) && forall c <- st.clients :: c <= st.maxfd
    ensures Polled(st, feeds, cfd, RoundItems(st.clients, feeds, cfd, st.maxfd), k, Poll(st, feeds, cfd))
    decreases st.maxfd - cfd + 1, 1
  {
    hide ReadClient, Full, StopsAt, Plus, Less, Sane;
    if cfd > st.maxfd {
      k := 0;
      NoItem(st.limits, st.shown);
      assert Staying(st.clients, feeds, cfd) == st.clients;
    } else if cfd !in feeds || cfd !in st.clients {
      k := PollReads(st, feeds, cfd + 1);
      assert Staying(st.clients, feeds, cfd) == Staying(st.clients, feeds, cfd + 1);
      assert [] + RoundItems(st.clients, feeds, cfd + 1, st.maxfd) == RoundItems(st.clients, feeds, cfd + 1, st.maxfd);
    } else {
      k := PollOne(st, feeds, cfd);
    }
  }

  lemma {:induction false} PollOne(st: State, feeds: map<int, Feed>, cfd: int) returns (k: nat)
    requires Sane(st.limits) && forall c <- st.clients :: c <= st.maxfd
    requires cfd in feeds && cfd in st.clients
    ensures Polled(st, feeds, cfd, RoundItems(st.clients, feeds, cfd, st.maxfd), k, Poll(st, feeds, cfd))
    decreases st.maxfd - cfd + 1, 0
  {
    hide ReadClient, Full, StopsAt, Plus, Less, Upto, Sane;
    var a, b := Offered(feeds[cfd]), RoundItems(st.clients, feeds, cfd + 1, st.maxfd);
    var r := ReadClient(st.limits, st.shown, feeds[cfd], 10);
    var i := ReadClientReads(st.limits, st.shown, feeds[cfd], 10);
    if Full(st.limits, a) {
      k := i;
      StopStays(st.limits, a, b, i);
    } else {
      WholeRead(st.limits, a, i);
      SaneLeft(st.limits, a);
      var st1 := st.(limits := r.limits, shown := r.shown);
      var st2 := if r.ret == -1 then Close(st1, cfd) else st1;
      ItemsAbove(st.clients, st2.clients, feeds, cfd + 1, st.maxfd);
      var j := PollReads(st2, feeds, cfd + 1);
      StopShifts(st.limits, st.shown, a, b, j);
      k := |a| + j;
      assert Staying(st.clients, feeds, cfd) == Staying(st2.clients, feeds, cfd + 1);
    }
  }

  lemma WholeRead(l: Limits, s: seq<Item>, k: nat)
    requires StopsAt(l, s, k) && !Full(l, s)
    ensures k == |s| && s[..k] == s
  {
    assert s == s[..k] + s[k..];
    if Full(l, s[..k]) { FullGrows(l, s[..k], s[k..]); }
  }

  /** What the loop has done, `s` being the items offered. */
  ghost predicate Looped(st: State, rounds: seq<Round>, s: seq<Item>, k: nat, t: State, ret: int) {
    && StopsAt(st.limits, s, k) && t.shown == Plus(st.shown, s[..k])
    && ret == if Full(st.limits, s) then -2 else if SelectFails in rounds then -1 else 0
  }

  lemma {:induction false} LoopReads(st: State, rounds: seq<Round>) returns (k: nat)
    requires Sane(st.limits) && st.sfd <= st.maxfd && forall c <- st.clients :: c <= st.maxfd
    ensures var (t, ret) := Loop(st, rounds);
            Looped(st, rounds, Stream(st.sfd, st.clients, st.maxfd, rounds), k, t, ret)
    decreases rounds, 1
  {
    hide Poll, RoundItems, Accept, Staying;
    if rounds == [] {
      k := 0;
    } else {
      assert rounds == [rounds[0]] + rounds[1..];
      match rounds[0]
      case Idle => k := LoopReads(st, rounds[1..]);
      case SelectFails => k := 0;
      case Attach(hint) => k := LoopReads(AttachClient(st, hint), rounds[1..]);
      case Ready(feeds) => k := LoopReady(st, rounds, feeds);
    }
  }

  lemma {:induction false} LoopReady(st: State, rounds: seq<Round>, feeds: map<int, Feed>) returns (k: nat)
    requires Sane(st.limits) && st.sfd <= st.maxfd && forall c <- st.clients :: c <= st.maxfd
    requires rounds != [] && rounds[0] == Ready(feeds)
    ensures var (t, ret) := Loop(st, rounds);
            Looped(st, rounds, Stream(st.sfd, st.clients, st.maxfd, rounds), k, t, ret)
    decreases rounds, 0
  {
    hide Poll, RoundItems, Accept, Full, StopsAt, Plus, Less, Sane;
    var a := RoundItems(st.clients, feeds, st.sfd + 1, st.maxfd);
    var left := Staying(st.clients, feeds, st.sfd + 1);
    var b := Stream(st.sfd, left, st.maxfd, rounds[1..]);
    var p := Poll(st, feeds, st.sfd + 1);
    var i := PollReads(st, feeds, st.sfd + 1);
    if Full(st.limits, a) {
      k := i;
      StopStays(st.limits, a, b, i);
    } else {
      WholeRead(st.limits, a, i);
      SaneLeft(st.limits, a);
      var j := LoopReads(p.state, rounds[1..]);
      StopShifts(st.limits, st.shown, a, b, j);
      k := |a| + j;
      assert rounds == [rounds[0]] + rounds[1..];
    }
  }

  lemma {:induction false} CloseAllShows(st: State, cfd: int)
    ensures CloseAll(st, cfd).shown == st.shown
    decreases st.maxfd - cfd + 1
  {
    if cfd <= st.maxfd { CloseAllShows(if cfd in st.clients then Close(st, cfd) else st, cfd + 1); }
  }

  /** Over all processes and interleavings, with the stream of items that the rounds offer: the run stops with the
      stop code if and only if the stream has as many EXIT frames, or finished requests, as a limit allows; it
      then displays the stream up to the item that reaches the limit, and otherwise all of it, and never more
      than the limit; without a limit it never stops for this reason. */
  lemma LimitIsExact(sfd: int, filter: Executor.Filter, l0: Limits, rounds: seq<Round>) returns (k: nat)
    requires Sane(l0)
    ensures var (t, ret) := TraceExt(sfd, filter, l0, rounds); var s := Stream(sfd, {}, sfd, rounds);
            && (ret == -2 <==>
                || (l0.frame > 0 && Count(s, FrameExit) >= l0.frame)
                || (l0.request > 0 && Count(s, RequestExit) >= l0.request))
            && (ret == -1 <==> ret != -2 && SelectFails in rounds)
            && StopsAt(l0, s, k) && (ret == -2 || k == |s|)
            && t.shown == Shown(Count(s[..k], FrameExit), Count(s[..k], RequestExit))
            && (ret == -2 <==> t.shown.frames == l0.frame || t.shown.requests == l0.request)
            && (l0.frame > 0 ==> t.shown.frames <= l0.frame)
            && (l0.request > 0 ==> t.shown.requests <= l0.request)
  {
    hide Loop, CloseAll, Stream;
    k := LoopReads(Begin(sfd, filter, l0), rounds);
    CloseAllShows(Loop(Begin(sfd, filter, l0), rounds).0, sfd + 1);
    var s := Stream(sfd, {}, sfd, rounds);
    if !Full(l0, s) { WholeRead(l0, s, k); }
    if k > 0 { assert s[..k] == s[..k - 1] + [s[k - 1]]; }
    assert s == s[..k] + s[k..];
    if Full(l0, s[..k]) { FullGrows(l0, s[..k], s[k..]); }
  }

  // ----- commands

  /** Every client that was accepted was given the commands of `filter`. */
  predicate AllTold(h: Hist<FdEvent>, filter: Executor.Filter) {
    h.After? ==> AllTold(h.past, filter) && (h.last.Accepted? ==> h.last.told == Session.Script(filter))
  }

  function Attached(h: Hist<FdEvent>): nat {
    if h.Start? then 0 else Attached(h.past) + if h.last.Accepted? then 1 else 0
  }

  function Connections(rounds: seq<Round>): nat {
    if rounds == [] then 0 else Connections(rounds[1..]) + if rounds[0].Attach? then 1 else 0
  }

  /** `t` is a state later than `st` in which `n` more clients have been accepted, each given its commands. */
  ghost predicate Told(st: State, t: State, n: nat) {
    t.filter == st.filter && AllTold(t.log, t.filter) && Attached(t.log) == Attached(st.log) + n
  }

  lemma {:induction false} PollTells(st: State, feeds: map<int, Feed>, cfd: int)
    requires AllTold(st.log, st.filter)
    ensures Told(st, Poll(st, feeds, cfd).state, 0) && Poll(st, feeds, cfd).done in {None, Some(-2)}
    decreases st.maxfd - cfd + 1
  {
    hide ReadClient;
    if cfd > st.maxfd {
    } else if cfd !in feeds || cfd !in st.clients {
      PollTells(st, feeds, cfd + 1);
    } else {
      var r := ReadClient(st.limits, st.shown, feeds[cfd], 10);
      var st1 := st.(limits := r.limits, shown := r.shown);
      if r.ret != -2 { PollTells(if r.ret == -1 then Close(st1, cfd) else st1, feeds, cfd + 1); }
    }
  }

  lemma {:induction false} LoopTells(st: State, rounds: seq<Round>) returns (n: nat)
    requires AllTold(st.log, st.filter)
    ensures var (t, ret) := Loop(st, rounds);
            Told(st, t, n) && n <= Connections(rounds) && (ret == 0 ==> n == Connections(rounds))
    decreases rounds
  {
    hide Poll, Accept;
    n := 0;
    if rounds != [] {
      if rounds[0].Ready? { PollTells(st, rounds[0].feeds, st.sfd + 1); }
      var step := Turn(st, rounds[0]);
      if step.done.None? { n := LoopTells(step.state, rounds[1..]); }
      if rounds[0].Attach? { n := n + 1; }
    }
  }

  lemma {:induction false} CloseAllTells(st: State, cfd: int)
    requires AllTold(st.log, st.filter)
    ensures Told(st, CloseAll(st, cfd), 0)
    decreases st.maxfd - cfd + 1
  {
    if cfd <= st.maxfd { CloseAllTells(if cfd in st.clients then Close(st, cfd) else st, cfd + 1); }
  }

  /** Every client accepted is given the commands of the tool's filter, and unless the loop is left early every
      connection is accepted. */
  lemma EveryClientTold(sfd: int, filter: Executor.Filter, limits: Limits, rounds: seq<Round>)
    ensures var (t, ret) := TraceExt(sfd, filter, limits, rounds);
            && AllTold(t.log, filter) && Attached(t.log) <= Connections(rounds)
            && (ret == 0 ==> Attached(t.log) == Connections(rounds))
  {
    var n := LoopTells(Begin(sfd, filter, limits), rounds);
    CloseAllTells(Loop(Begin(sfd, filter, limits), rounds).0, sfd + 1);
  }

  // ----- descriptors

  /** The descriptors open after `h`; None if one was accepted while open or closed while not open. */
  function OpenAfter(h: Hist<FdEvent>): Option<set<int>> {
    match h
    case Start => Some({})
    case After(p, Accepted(fd, _)) =>
      var o := OpenAfter(p);
      if o.None? || fd in o.value then None else Some(o.value + {fd})
    case After(p, Closed(fd)) =>
      var o := OpenAfter(p);
      if o.None? || fd !in o.value then None else Some(o.value - {fd})
  }

  /** The tracked clients are the open descriptors, and all lie between the listening one and the highest. */
  ghost predicate Tracked(st: State) {
    && st.sfd <= st.maxfd
    && OpenAfter(st.log) == Some(st.clients)
    && (forall c <- st.clients :: st.sfd < c <= st.maxfd)
  }

  lemma CloseTracks(st: State, cfd: int)
    requires Tracked(st) && cfd in st.clients
    ensures Tracked(Close(st, cfd))
  {
  }

  lemma {:induction false} PollTracks(st: State, feeds: map<int, Feed>, cfd: int)
    requires Tracked(st)
    ensures Tracked(Poll(st, feeds, cfd).state) && Poll(st, feeds, cfd).state.sfd == st.sfd
    decreases st.maxfd - cfd + 1
  {
    hide ReadClient, OpenAfter;
    if cfd > st.maxfd {
    } else if cfd !in feeds || cfd !in st.clients {
      PollTracks(st, feeds, cfd + 1);
    } else {
      var r := ReadClient(st.limits, st.shown, feeds[cfd], 10);
      var st1 := st.(limits := r.limits, shown := r.shown);
      assert Tracked(st1);
      CloseTracks(st1, cfd);
      if r.ret != -2 { PollTracks(if r.ret == -1 then Close(st1, cfd) else st1, feeds, cfd + 1); }
    }
  }

  lemma AttachTracks(st: State, hint: int)
    requires Tracked(st)
    ensures Tracked(AttachClient(st, hint)) && AttachClient(st, hint).sfd == st.sfd
  {
  }

  /** Every pass of the loop keeps the descriptors tracked. */
  lemma {:induction false} LoopTracks(st: State, rounds: seq<Round>)
    requires Tracked(st)
    ensures Tracked(Loop(st, rounds).0) && Loop(st, rounds).0.sfd == st.sfd
    decreases rounds
  {
    hide OpenAfter, Poll, Accept, AttachClient;
    if rounds != [] {
      if rounds[0].Ready? { PollTracks(st, rounds[0].feeds, st.sfd + 1); }
      if rounds[0].Attach? { AttachTracks(st, rounds[0].hint); }
      var step := Turn(st, rounds[0]);
      if step.done.None? { LoopTracks(step.state, rounds[1..]); }
    }
  }

  lemma {:induction false} CloseAllCloses(st: State, cfd: int)
    requires Tracked(st) && forall c <- st.clients :: cfd <= c
    ensures OpenAfter(CloseAll(st, cfd).log) == Some({})
    decreases st.maxfd - cfd + 1
  {
    if cfd > st.maxfd {
      assert st.clients == {} by { forall c ensures c !in st.clients { } }
    } else {
      CloseAllCloses(if cfd in st.clients then Close(st, cfd) else st, cfd + 1);
    }
  }

  function Accepts(h: Hist<FdEvent>, fd: int): nat {
    if h.Start? then 0 else Accepts(h.past, fd) + (if h.last.Accepted? && h.last.fd == fd then 1 else 0)
  }

  function Closes(h: Hist<FdEvent>, fd: int): nat {
    if h.Start? then 0 else Closes(h.past, fd) + (if h.last == Closed(fd) then 1 else 0)
  }

  lemma {:induction false} OpenCounts(h: Hist<FdEvent>, fd: int)
    requires OpenAfter(h).Some?
    ensures Accepts(h, fd) == Closes(h, fd) + (if fd in OpenAfter(h).value then 1 else 0)
  {
    if h.After? { OpenCounts(h.past, fd); }
  }

  /** Whichever way the loop ends, every accepted descriptor is closed exactly once: closes match accepts
      one for one, in order, and nothing else is closed. */
  lemma EveryClientClosedOnce(sfd: int, filter: Executor.Filter, limits: Limits, rounds: seq<Round>, fd: int)
    ensures var (t, ret) := TraceExt(sfd, filter, limits, rounds);
            OpenAfter(t.log) == Some({}) && Accepts(t.log, fd) == Closes(t.log, fd)
  {
    LoopTracks(Begin(sfd, filter, limits), rounds);
    CloseAllCloses(Loop(Begin(sfd, filter, limits), rounds).0, sfd + 1);
    OpenCounts(TraceExt(sfd, filter, limits, rounds).0.log, fd);
  }
}
