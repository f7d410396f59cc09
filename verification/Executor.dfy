/** The request and function-call hooks of the PHP extension (extension/trace.c) as functions on one
    state value. Class `Tracer` runs them in place; the other executor modules prove what they keep.

    The environment is an input: before each read of the control bit it may overwrite the bit, each
    connection attempt has a given result, and each receive loop gets a given list of messages. */
module Executor {
  import opened Basics

  /** Length of the exclusive-time table; slots 1 .. EXC_TIME_LEN - 2 are accumulated. */
  const EXC_TIME_LEN: nat := 4096

  // ----- the tracing flags and the filter

  /** The bits of `dotrace` that exist outside debug builds. */
  datatype Flags = Flags(output: bool, tool: bool) {
    predicate On() { output || tool }
  }

  const NONE := Flags(false, false)

  /** The four bits of a filter type. */
  datatype Kind = Kind(empty: bool, url: bool, func: bool, cls: bool)

  const EMPTY_KIND := Kind(true, false, false, false)
  const URL_KIND := Kind(false, true, false, false)
  const FUNCTION_KIND := Kind(false, false, true, false)
  const CLASS_KIND := Kind(false, false, false, true)

  datatype Filter = Filter(kind: Kind, content: string)

  const NO_FILTER := Filter(EMPTY_KIND, "")

  /** What the frame filter reads of a called function: its name and its class's name. */
  datatype Func = Func(name: Option<string>, scope: Option<string>)

  /** The filter lets a frame of `fn` through. */
  predicate Passes(f: Filter, fn: Func) {
    || !(f.kind.func || f.kind.cls)
    || (f.kind.func && fn.name.Some? && Contains(fn.name.value, f.content))
    || (f.kind.cls && fn.scope.Some? && Contains(fn.scope.value, f.content))
  }

  // ----- the environment

  /** What another process did to the control bit since it was last looked at. */
  datatype Write = Keep | Put(bit: bool)

  datatype Msg = DoTrace | DoStatus | DoFilter(filter: Filter) | Unknown(code: int)

  /** How a receive loop ends: no more messages for now, or any of the four error codes. */
  datatype Ending = Drained | Failed

  /** Everything one pass through the control check can observe. A descriptor of -1 is a failed
      connection attempt. */
  datatype Probe = Probe(write: Write, fd: int, inbox: seq<Msg>, ending: Ending, rewrite: Write, refd: int)

  /** Sibling calls in order, each with the calls its body makes. `exits` says that the body itself
      bails out (exit(), fatal error) after the calls in `body`. */
  datatype Calls =
    | Nil
    | Call(probe: Probe, fn: Func, enter: int, body: Calls, leave: int, exits: bool, next: Calls)

  /** One request: what its start observes, its URI and its top-level engine invocations. */
  datatype Request = Request(probe: Probe, uri: string, tops: seq<Calls>)

  // ----- what is observed of a run

  datatype Site = AtRequest | AtEntry | AtError

  datatype Edge = Entry | Exit

  datatype Body =
    | StatusBody
    | RequestBody(edge: Edge)
    | FrameBody(edge: Edge, id: nat, level: nat, fn: Func, inc: int, exc: int)

  datatype Event =
    | Probed(site: Site, active: bool)
    | Connected(fd: int)
    | Got(msg: Msg)
    | Dropped
    | Sent(fd: int, uri: string, body: Body)

  /** The times a traced frame ends with. */
  datatype Timing = Timing(level: nat, inc: int, exc: int)

  /** The calls that really happened, with the tracing decision taken at each entry. */
  datatype Forest = Leaf | Frame(traced: bool, enter: int, leave: int, kids: Forest, next: Forest)

  // ----- the state

  /** The module globals, followed by history: the number of calls begun, the current request's URI,
      the events so far and the times of the traced frames that have ended. */
  datatype State = State(flags: Flags, sock: int, filter: Filter, ctrl: bool, level: nat, table: seq<int>,
                         serial: nat, uri: string, log: Hist<Event>, times: Hist<Timing>)
  {
    predicate Sized() { |table| == EXC_TIME_LEN }

    function Note(e: Event): State { this.(log := After(log, e)) }

    function Send(body: Body): State { Note(Sent(sock, uri, body)) }

    function SetTool(on: bool): State { this.(flags := flags.(tool := on)) }
  }

  /** The globals after module start-up. */
  function Init(output: bool): State {
    State(Flags(output, false), -1, NO_FILTER, false, 0, seq(EXC_TIME_LEN, _ => 0), 0, "", Start, Start)
  }

  /** Connection handling touches neither the nesting nor the times. */
  ghost predicate Kept(s: State, t: State) {
    t.level == s.level && t.serial == s.serial && t.uri == s.uri && t.table == s.table && t.times == s.times
  }

  // ----- connection handling

  /** Read the control bit. */
  function Look(s: State, site: Site, w: Write): State {
    var bit := if w.Put? then w.bit else s.ctrl;
    s.(ctrl := bit).Note(Probed(site, bit))
  }

  function Connect(s: State, fd: int): State {
    if fd == -1 then s.(sock := -1) else s.(sock := fd).Note(Connected(fd))
  }

  function Shut(s: State): State {
    s.SetTool(false).(ctrl := false, sock := -1, filter := NO_FILTER).Note(Dropped)
  }

  function HandleError(s: State, p: Probe): (t: State)
    ensures Kept(s, t)
  {
    if s.sock == -1 then Shut(s) else
      var s1 := Look(s, AtError, p.rewrite);
      if !s1.ctrl then Shut(s1) else
        var s2 := Connect(s1, p.refd);
        if s2.sock != -1 then s2 else Shut(s2)
  }

  function Receive(s: State, m: Msg): State {
    var s1 := s.Note(Got(m));
    match m
    case DoTrace => s1.SetTool(true)
    case DoStatus => s1.Send(StatusBody)
    case DoFilter(f) => s1.(filter := f)
    case Unknown(_) => s1
  }

  function ReceiveAll(s: State, inbox: seq<Msg>): (t: State)
    ensures Kept(s, t) && t.sock == s.sock
    decreases inbox
  {
    if inbox == [] then s else ReceiveAll(Receive(s, inbox[0]), inbox[1..])
  }

  function HandleCommand(s: State, p: Probe): (t: State)
    ensures Kept(s, t)
  {
    var s1 := if s.sock == -1 then Connect(s, p.fd) else s;
    if s1.sock == -1 then HandleError(s1, p) else
      var s2 := ReceiveAll(s1, p.inbox);
      if p.ending.Failed? then HandleError(s2, p) else s2
  }

  /** The control check at a function entry. */
  function CheckEntry(s: State, p: Probe): (t: State)
    ensures Kept(s, t)
  {
    var s1 := Look(s, AtEntry, p.write);
    if s1.ctrl then HandleCommand(s1, p)
    else if s1.sock != -1 then HandleError(s1, p)
    else s1
  }

  // ----- one function call

  function FilterFrame(s: State, fn: Func): Flags {
    if Passes(s.filter, fn) then s.flags else NONE
  }

  /** The flags a call captures at its entry. */
  function Local(s: State, c: Calls): Flags
    requires c.Call?
  {
    FilterFrame(CheckEntry(s, c.probe), c.fn)
  }

  /** From the entry of the hook to the call of the original function. */
  function Begin(s: State, c: Calls): (t: State)
    requires c.Call?
    ensures t.level == s.level + 1 && t.serial == s.serial + 1 && t.uri == s.uri
    ensures t.table == s.table && t.times == s.times
  {
    var s1 := CheckEntry(s, c.probe);
    var s2 := s1.(level := s1.level + 1, serial := s1.serial + 1);
    if Local(s, c).tool then s2.Send(FrameBody(Entry, s1.serial, s2.level, c.fn, 0, 0)) else s2
  }

  /** The table and the exclusive time when a traced frame at `level` ends. */
  function Tick(table: seq<int>, level: nat, inc: int): (r: (seq<int>, int))
    ensures |r.0| == |table|
  {
    if level + 1 < |table| then
      var added := table[level := table[level] + inc];
      (added[level + 1 := 0], inc - added[level + 1])
    else (table, 0)
  }

  /** From the return (or bailout) of the original function to the end of the hook. */
  function Finish(s: State, local: Flags, id: nat, c: Calls): State
    requires c.Call? && s.level > 0
  {
    var s1 := if local.On() then
                var inc := c.leave - c.enter;
                var (table, exc) := Tick(s.table, s.level, inc);
                var timed := s.(table := table, times := After(s.times, Timing(s.level, inc, exc)));
                if s.flags.tool && local.tool then timed.Send(FrameBody(Exit, id, s.level, c.fn, inc, exc)) else timed
              else s;
    s1.(level := s.level - 1)
  }

  /** What a list of sibling calls leads to: the state, the calls that happened, and whether the last
      of them bailed out of the caller. */
  datatype Ran = Ran(state: State, forest: Forest, bailed: bool)

  function Run(s: State, c: Calls): (r: Ran)
    ensures r.state.level == s.level && |r.state.table| == |s.table|
    decreases c
  {
    match c
    case Nil => Ran(s, Leaf, false)
    case Call(probe, fn, enter, body, leave, exits, next) =>
      var local := Local(s, c);
      var inner := Run(Begin(s, c), body);
      var ended := Finish(inner.state, local, s.serial, c);
      if inner.bailed || exits then Ran(ended, Frame(local.On(), enter, leave, inner.forest, Leaf), true)
      else
        var rest := Run(ended, next);
        Ran(rest.state, Frame(local.On(), enter, leave, inner.forest, rest.forest), rest.bailed)
  }

  // ----- requests

  /** The URL filter: at a request's start it alone decides the tool flag. */
  function FilterUrl(s: State): State {
    if s.filter.kind.url then s.SetTool(Contains(s.uri, s.filter.content)) else s
  }

  function SendRequest(s: State, edge: Edge): State {
    if s.flags.tool then s.Send(RequestBody(edge)) else s
  }

  function RequestStart(s: State, q: Request): State {
    var s1 := Look(s.(level := 0, uri := q.uri), AtRequest, q.probe.write);
    var s2 := if s1.ctrl then HandleCommand(s1, q.probe) else s1;
    SendRequest(FilterUrl(s2), Entry)
  }

  /** Top-level invocations run one after another; a bailout ends only the one it happens in. */
  function RunTops(s: State, tops: seq<Calls>): (t: State)
    ensures t.level == s.level
    decreases tops
  {
    if tops == [] then s else RunTops(Run(s, tops[0]).state, tops[1..])
  }

  function Serve(s: State, q: Request): State {
    SendRequest(RunTops(RequestStart(s, q), q.tops), Exit)
  }

  function ServeAll(s: State, qs: seq<Request>): State
    decreases qs
  {
    if qs == [] then s else ServeAll(Serve(s, qs[0]), qs[1..])
  }
}
