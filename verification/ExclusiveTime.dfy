/** The flat exclusive-time table against the call tree (extension/trace.c:1347-1355).

    The hook never sees the tree: it keeps one slot per nesting level. These lemmas say what the slots
    mean in every run, when the times they give are the ones the tree defines, and what is conserved. */
module ExclusiveTime {
  import opened Basics
  import opened Executor

  /** The deepest level that uses the table. */
  const DEEPEST: nat := 4094

  // ----- what the tree says

  /** Inclusive times of the traced frames among the siblings `f`. */
  function TracedSum(f: Forest): int {
    match f
    case Leaf => 0
    case Frame(traced, enter, leave, _, next) => (if traced then leave - enter else 0) + TracedSum(next)
  }

  /** The exclusive time of a frame by definition: its own time without its traced direct children,
      as far down as the table reaches. */
  function TreeExc(f: Forest, level: nat): int
    requires f.Frame?
  {
    if level < DEEPEST then f.leave - f.enter - TracedSum(f.kids)
    else if level == DEEPEST then f.leave - f.enter
    else 0
  }

  /** The times of every traced frame of `f`, in order of completion, by definition. */
  function TreeTimes(h: Hist<Timing>, f: Forest, level: nat): Hist<Timing>
    decreases f
  {
    match f
    case Leaf => h
    case Frame(traced, enter, leave, kids, next) =>
      var h1 := TreeTimes(h, kids, level + 1);
      TreeTimes(if traced then After(h1, Timing(level, leave - enter, TreeExc(f, level))) else h1, next, level)
  }

  predicate NoneTraced(f: Forest) {
    f.Frame? ==> !f.traced && NoneTraced(f.kids) && NoneTraced(f.next)
  }

  /** Every traced frame below the top has a traced parent. */
  predicate ParentClosed(f: Forest) {
    f.Frame? ==> (if f.traced then ParentClosed(f.kids) else NoneTraced(f.kids)) && ParentClosed(f.next)
  }

  // ----- what the table does on the same tree

  datatype Meter = Meter(table: seq<int>, times: Hist<Timing>)

  function Replay(m: Meter, f: Forest, level: nat): (r: Meter)
    ensures |r.table| == |m.table|
    decreases f
  {
    match f
    case Leaf => m
    case Frame(traced, enter, leave, kids, next) =>
      var m1 := Replay(m, kids, level + 1);
      var (table, exc) := Tick(m1.table, level, leave - enter);
      Replay(if traced then Meter(table, After(m1.times, Timing(level, leave - enter, exc))) else m1, next, level)
  }

  /** Of a run, the table and the times depend only on the calls that happened. */
  lemma {:induction false} RunReplays(s: State, c: Calls)
    ensures var r := Run(s, c);
            Meter(r.state.table, r.state.times) == Replay(Meter(s.table, s.times), r.forest, s.level + 1)
    decreases c
  {
    hide Begin, Local, Tick;
    if c.Call? {
      var inner := Run(Begin(s, c), c.body);
      RunReplays(Begin(s, c), c.body);
      var ended := Finish(inner.state, Local(s, c), s.serial, c);
      FinishTicks(inner.state, Local(s, c), s.serial, c);
      var m, m2 := Meter(s.table, s.times), Meter(ended.table, ended.times);
      if inner.bailed || c.exits {
        ReplayFrame(m, m2, m2, Frame(Local(s, c).On(), c.enter, c.leave, inner.forest, Leaf), s.level + 1);
      } else {
        RunReplays(ended, c.next);
        var rest := Run(ended, c.next);
        ReplayFrame(m, m2, Meter(rest.state.table, rest.state.times),
                    Frame(Local(s, c).On(), c.enter, c.leave, inner.forest, rest.forest), s.level + 1);
      }
    }
  }

  lemma ReplayFrame(m: Meter, m2: Meter, m3: Meter, f: Forest, level: nat)
    requires f.Frame?
    requires var m1 := Replay(m, f.kids, level + 1);
             var (table, exc) := Tick(m1.table, level, f.leave - f.enter);
             m2 == if f.traced then Meter(table, After(m1.times, Timing(level, f.leave - f.enter, exc))) else m1
    requires m3 == Replay(m2, f.next, level)
    ensures m3 == Replay(m, f, level)
  {
  }

  lemma FinishTicks(s: State, local: Flags, id: nat, c: Calls)
    requires c.Call? && s.level > 0
    ensures var t := Finish(s, local, id, c);
            var (table, exc) := Tick(s.table, s.level, c.leave - c.enter);
            Meter(t.table, t.times) ==
            if local.On() then Meter(table, After(s.times, Timing(s.level, c.leave - c.enter, exc)))
            else Meter(s.table, s.times)
  {
  }

  // ----- any tracing pattern: what a slot holds

  /** Replaying siblings at `level` leaves the slots below alone and adds their traced inclusive times
      to their own slot. */
  lemma {:induction false} SlotsBelow(m: Meter, f: Forest, level: nat)
    requires |m.table| == EXC_TIME_LEN
    ensures var r := Replay(m, f, level);
            && (forall j | 0 <= j < level && j < EXC_TIME_LEN :: r.table[j] == m.table[j])
            && (level <= DEEPEST ==> r.table[level] == m.table[level] + TracedSum(f))
            && (level == DEEPEST + 1 ==> r.table[level] == m.table[level])
    decreases f
  {
    if f.Frame? {
      var m1 := Replay(m, f.kids, level + 1);
      SlotsBelow(m, f.kids, level + 1);
      var (table, exc) := Tick(m1.table, level, f.leave - f.enter);
      var m2 := if f.traced then Meter(table, After(m1.times, Timing(level, f.leave - f.enter, exc))) else m1;
      SlotsBelow(m2, f.next, level);
    }
  }

  /** For every table and every tracing pattern: the exclusive time of a traced frame misses the tree's
      by exactly what the slot of its children held when it began. So it is exact precisely when that
      slot was zero. */
  lemma ExactIffSlotWasZero(m: Meter, f: Forest, level: nat)
    requires |m.table| == EXC_TIME_LEN && m.table[DEEPEST + 1] == 0
    requires f.Frame? && f.traced && f.next.Leaf?
    ensures var t := Replay(m, f, level).times;
            && t.After? && t.last.level == level && t.last.inc == f.leave - f.enter
            && (level <= DEEPEST ==> t.last.exc == TreeExc(f, level) - m.table[level + 1])
            && (level > DEEPEST ==> t.last.exc == TreeExc(f, level) == 0)
            && (level <= DEEPEST ==> (t.last.exc == TreeExc(f, level) <==> m.table[level + 1] == 0))
  {
    SlotsBelow(m, f.kids, level + 1);
  }

  // ----- every run: the table is a function of the times reported so far

  /** Inclusive times of the frames that ended at `level` since one last ended at `level - 1`. */
  function Since(h: Hist<Timing>, level: nat): int {
    match h
    case Start => 0
    case After(p, t) =>
      if t.level + 1 == level then 0 else (if t.level == level then t.inc else 0) + Since(p, level)
  }

  /** The exclusive time of a frame that ends after `h`: its own time minus what is pending one level below. */
  function Due(h: Hist<Timing>, level: nat, inc: int): int {
    if level < DEEPEST then inc - Since(h, level + 1) else if level == DEEPEST then inc else 0
  }

  /** Every exclusive time in `h` was due. */
  predicate Explained(h: Hist<Timing>) {
    h.After? ==> Explained(h.past) && h.last.exc == Due(h.past, h.last.level, h.last.inc)
  }

  predicate Metered(m: Meter) {
    && |m.table| == EXC_TIME_LEN
    && m.table[DEEPEST + 1] == 0
    && (forall j | 1 <= j <= DEEPEST :: m.table[j] == Since(m.times, j))
    && Explained(m.times)
  }

  lemma {:induction false} ReplayMetered(m: Meter, f: Forest, level: nat)
    requires Metered(m) && level >= 1
    ensures Metered(Replay(m, f, level))
    decreases f
  {
    if f.Frame? {
      ReplayMetered(m, f.kids, level + 1);
      var m1 := Replay(m, f.kids, level + 1);
      var (table, exc) := Tick(m1.table, level, f.leave - f.enter);
      var m2 := if f.traced then Meter(table, After(m1.times, Timing(level, f.leave - f.enter, exc))) else m1;
      ReplayMetered(m2, f.next, level);
    }
  }

  lemma {:induction false} TopsMetered(s: State, tops: seq<Calls>)
    requires Metered(Meter(s.table, s.times))
    ensures var t := RunTops(s, tops); Metered(Meter(t.table, t.times))
    decreases tops
  {
    if tops != [] {
      RunReplays(s, tops[0]);
      ReplayMetered(Meter(s.table, s.times), Run(s, tops[0]).forest, s.level + 1);
      TopsMetered(Run(s, tops[0]).state, tops[1..]);
    }
  }

  /** Over any number of requests, with any tracing pattern: slot L holds the inclusive times of the
      frames that ended at level L since one last ended at level L - 1, and every exclusive time ever
      reported is explained by that history alone. */
  lemma {:induction false} TableMeaning(s: State, qs: seq<Request>)
    requires Metered(Meter(s.table, s.times))
    ensures var t := ServeAll(s, qs); Metered(Meter(t.table, t.times))
    decreases qs
  {
    if qs != [] {
      TopsMetered(RequestStart(s, qs[0]), qs[0].tops);
      TableMeaning(Serve(s, qs[0]), qs[1..]);
    }
  }

  /** In particular from module start-up. */
  lemma TableMeaningFromStart(output: bool, qs: seq<Request>)
    ensures var t := ServeAll(Init(output), qs); Metered(Meter(t.table, t.times))
  {
    TableMeaning(Init(output), qs);
  }

  // ----- conservation

  function SumExc(h: Hist<Timing>): int {
    if h.Start? then 0 else SumExc(h.past) + h.last.exc
  }

  function Sum(t: seq<int>): int {
    if t == [] then 0 else Sum(t[..|t| - 1]) + t[|t| - 1]
  }

  lemma {:induction false} SumUpdate(t: seq<int>, i: nat, x: int)
    requires i < |t|
    ensures Sum(t[i := x]) == Sum(t) - t[i] + x
  {
    var n := |t| - 1;
    if i == n {
      assert t[i := x][..n] == t[..n];
    } else {
      SumUpdate(t[..n], i, x);
      assert t[i := x][..n] == t[..n][i := x];
    }
  }

  /** Whatever is traced, what the table gains is what is reported as exclusive time. */
  lemma {:induction false} NothingLost(m: Meter, f: Forest, level: nat)
    requires |m.table| == EXC_TIME_LEN
    ensures var r := Replay(m, f, level); SumExc(r.times) - Sum(r.table) == SumExc(m.times) - Sum(m.table)
    decreases f
  {
    if f.Frame? {
      NothingLost(m, f.kids, level + 1);
      var m1 := Replay(m, f.kids, level + 1);
      var inc := f.leave - f.enter;
      var (table, exc) := Tick(m1.table, level, inc);
      if level + 1 < EXC_TIME_LEN {
        SumUpdate(m1.table, level, m1.table[level] + inc);
        SumUpdate(m1.table[level := m1.table[level] + inc], level + 1, 0);
      }
      NothingLost(if f.traced then Meter(table, After(m1.times, Timing(level, inc, exc))) else m1, f.next, level);
    }
  }

  lemma {:induction false} TopsLoseNothing(s: State, tops: seq<Calls>)
    requires s.Sized()
    ensures var t := RunTops(s, tops); t.Sized() && SumExc(t.times) - Sum(t.table) == SumExc(s.times) - Sum(s.table)
    decreases tops
  {
    hide Run, Sum;
    if tops != [] {
      RunReplays(s, tops[0]);
      NothingLost(Meter(s.table, s.times), Run(s, tops[0]).forest, s.level + 1);
      TopsLoseNothing(Run(s, tops[0]).state, tops[1..]);
    }
  }

  /** Over any number of requests, whatever is traced: the exclusive times ever reported add up to what
      the table holds beyond its initial contents. */
  lemma {:induction false} TotalIsInTable(s: State, qs: seq<Request>)
    requires s.Sized()
    ensures var t := ServeAll(s, qs); t.Sized() && SumExc(t.times) - SumExc(s.times) == Sum(t.table) - Sum(s.table)
    decreases qs
  {
    hide Sum;
    if qs != [] {
      TopsLoseNothing(RequestStart(s, qs[0]), qs[0].tops);
      TotalIsInTable(Serve(s, qs[0]), qs[1..]);
    }
  }

  /** All slots above `level` are zero. */
  predicate ZeroAbove(table: seq<int>, level: nat) {
    forall j | level < j < |table| :: table[j] == 0
  }

  lemma {:induction false} UntracedReplay(m: Meter, f: Forest, level: nat)
    requires NoneTraced(f)
    ensures Replay(m, f, level) == m && TreeTimes(m.times, f, level) == m.times && TracedSum(f) == 0
    decreases f
  {
    if f.Frame? {
      UntracedReplay(m, f.kids, level + 1);
      UntracedReplay(m, f.next, level);
    }
  }

  /** The refinement: when every traced frame's parent is traced and the slots above are zero, the flat
      table yields exactly the times the tree defines, at every depth, and leaves the slots zero. */
  lemma {:induction false} TableRefinesTree(m: Meter, f: Forest, level: nat)
    requires |m.table| == EXC_TIME_LEN && ZeroAbove(m.table, level) && ParentClosed(f)
    ensures var r := Replay(m, f, level);
            r.times == TreeTimes(m.times, f, level) && ZeroAbove(r.table, level)
    decreases f
  {
    if f.Frame? {
      var m1 := Replay(m, f.kids, level + 1);
      if f.traced {
        TableRefinesTree(m, f.kids, level + 1);
        SlotsBelow(m, f.kids, level + 1);
        var (table, exc) := Tick(m1.table, level, f.leave - f.enter);
        assert exc == TreeExc(f, level);
        TableRefinesTree(Meter(table, After(m1.times, Timing(level, f.leave - f.enter, exc))), f.next, level);
      } else {
        UntracedReplay(m, f.kids, level + 1);
        TableRefinesTree(m, f.next, level);
      }
    }
  }

  lemma {:induction false} TreeSum(h: Hist<Timing>, f: Forest, level: nat)
    requires ParentClosed(f)
    ensures SumExc(TreeTimes(h, f, level)) == SumExc(h) + (if level <= DEEPEST then TracedSum(f) else 0)
    decreases f
  {
    if f.Frame? {
      var h1 := TreeTimes(h, f.kids, level + 1);
      if f.traced {
        TreeSum(h, f.kids, level + 1);
        TreeSum(After(h1, Timing(level, f.leave - f.enter, TreeExc(f, level))), f.next, level);
      } else {
        UntracedReplay(Meter([], h), f.kids, level + 1);
        TreeSum(h, f.next, level);
      }
    }
  }

  // ----- the same, of runs

  /** Conservation over a run of calls, bailouts and flag changes included: the times reported are the
      tree's, and their exclusive parts add up to the inclusive times of the outermost traced frames. */
  lemma RunConservesTime(s: State, c: Calls)
    requires s.Sized() && ZeroAbove(s.table, s.level + 1) && ParentClosed(Run(s, c).forest)
    ensures var r := Run(s, c);
            && r.state.times == TreeTimes(s.times, r.forest, s.level + 1)
            && ZeroAbove(r.state.table, s.level + 1)
            && SumExc(r.state.times) - SumExc(s.times) == (if s.level + 1 <= DEEPEST then TracedSum(r.forest) else 0)
  {
    RunReplays(s, c);
    TableRefinesTree(Meter(s.table, s.times), Run(s, c).forest, s.level + 1);
    TreeSum(s.times, Run(s, c).forest, s.level + 1);
  }

  // ----- exactly which tracing patterns give exact times

  /** The levels whose slots hold time left over after `f`, which depends only on what is traced and on which
      of it took time; None if a traced frame begins while time is left over in the slot of its children. */
  function Leftover(f: Forest, level: nat, d: set<nat>): Option<set<nat>>
    decreases f
  {
    match f
    case Leaf => Some(d)
    case Frame(traced, enter, leave, kids, next) =>
      if traced && level < DEEPEST && level + 1 in d then None else
        var inner := Leftover(kids, level + 1, d);
        if inner.None? then None
        else Leftover(next, level, if traced then Ticked(inner.value, level, leave - enter) else inner.value)
  }

  /** The slots that hold time after a traced frame at `level` ended. */
  function Ticked(d: set<nat>, level: nat, inc: int): set<nat> {
    if level <= DEEPEST then d - {level + 1} + (if inc > 0 then {level} else {}) else d
  }

  /** No traced frame ended before it began; it may have taken no time at all. */
  predicate Forward(f: Forest) {
    f.Frame? ==> (f.traced ==> f.enter <= f.leave) && Forward(f.kids) && Forward(f.next)
  }

  /** Exactly the slots of `d` hold time. */
  ghost predicate Holds(table: seq<int>, d: set<nat>) {
    && |table| == EXC_TIME_LEN && table[DEEPEST + 1] == 0
    && (forall j: nat | j <= DEEPEST :: table[j] >= 0 && (table[j] > 0 <==> j in d))
  }

  /** A replay and the tree append the same number of times, so a difference stays. */
  lemma {:induction false} DifferenceStays(m: Meter, h: Hist<Timing>, f: Forest, level: nat)
    requires Replay(m, f, level).times == TreeTimes(h, f, level)
    ensures m.times == h
    decreases f
  {
    hide Tick, TreeExc;
    if f.Frame? {
      var m1, h1 := Replay(m, f.kids, level + 1), TreeTimes(h, f.kids, level + 1);
      var (table, exc) := Tick(m1.table, level, f.leave - f.enter);
      DifferenceStays(if f.traced then Meter(table, After(m1.times, Timing(level, f.leave - f.enter, exc))) else m1,
                      if f.traced then After(h1, Timing(level, f.leave - f.enter, TreeExc(f, level))) else h1, f.next, level);
      DifferenceStays(m, h, f.kids, level + 1);
    }
  }

  /** Where no frame ends before it began, the flat table reports exactly the tree's times if and only if no
      traced frame begins while the slot of its children holds time left by frames whose parent was not
      traced. This can be told from which frames are traced and which of those took time. */
  lemma {:induction false} ExactIffNothingLeftover(m: Meter, f: Forest, level: nat, d: set<nat>)
    requires Holds(m.table, d) && Forward(f) && level >= 1
    ensures var r := Replay(m, f, level); var l := Leftover(f, level, d);
            && (r.times == TreeTimes(m.times, f, level) <==> l.Some?)
            && (l.Some? ==> Holds(r.table, l.value))
    decreases f
  {
    if f.Frame? {
      hide Replay, TreeTimes, Tick, TreeExc;
      var m1, h1 := Replay(m, f.kids, level + 1), TreeTimes(m.times, f.kids, level + 1);
      var inc := f.leave - f.enter;
      var (table, exc) := Tick(m1.table, level, inc);
      var m2 := if f.traced then Meter(table, After(m1.times, Timing(level, inc, exc))) else m1;
      var h2 := if f.traced then After(h1, Timing(level, inc, TreeExc(f, level))) else h1;
      FrameUnfolds(m, f, level);
      ExactIffNothingLeftover(m, f.kids, level + 1, d);
      FrameExact(m, f, level);
      if Replay(m2, f.next, level).times == TreeTimes(h2, f.next, level) { DifferenceStays(m2, h2, f.next, level); }
      var inner := Leftover(f.kids, level + 1, d);
      if inner.Some? && !(f.traced && level < DEEPEST && level + 1 in d) {
        var d2 := if f.traced then Ticked(inner.value, level, inc) else inner.value;
        if f.traced { TickHolds(m1.table, inner.value, level, inc); }
        ExactIffNothingLeftover(m2, f.next, level, d2);
      }
    }
  }

  /** The same of a run of calls. */
  lemma RunExactIffNothingLeftover(s: State, c: Calls, d: set<nat>)
    requires Holds(s.table, d) && Forward(Run(s, c).forest)
    ensures var r := Run(s, c);
            r.state.times == TreeTimes(s.times, r.forest, s.level + 1) <==> Leftover(r.forest, s.level + 1, d).Some?
  {
    RunReplays(s, c);
    ExactIffNothingLeftover(Meter(s.table, s.times), Run(s, c).forest, s.level + 1, d);
  }

  lemma FrameUnfolds(m: Meter, f: Forest, level: nat)
    requires f.Frame?
    ensures var m1, h1 := Replay(m, f.kids, level + 1), TreeTimes(m.times, f.kids, level + 1);
            var inc := f.leave - f.enter;
            var (table, exc) := Tick(m1.table, level, inc);
            && Replay(m, f, level)
               == Replay(if f.traced then Meter(table, After(m1.times, Timing(level, inc, exc))) else m1, f.next, level)
            && TreeTimes(m.times, f, level)
               == TreeTimes(if f.traced then After(h1, Timing(level, inc, TreeExc(f, level))) else h1, f.next, level)
  {
    hide Tick, TreeExc;
  }

  /** What ExactIffSlotWasZero says of a frame, without its siblings. */
  lemma FrameExact(m: Meter, f: Forest, level: nat)
    requires |m.table| == EXC_TIME_LEN && m.table[DEEPEST + 1] == 0 && f.Frame?
    ensures var (table, exc) := Tick(Replay(m, f.kids, level + 1).table, level, f.leave - f.enter);
            exc == TreeExc(f, level) <==> level > DEEPEST || m.table[level + 1] == 0
  {
    SlotsBelow(m, f.kids, level + 1);
  }

  lemma TickHolds(table: seq<int>, d: set<nat>, level: nat, inc: int)
    requires Holds(table, d) && inc >= 0 && level >= 1
    ensures Holds(Tick(table, level, inc).0, Ticked(d, level, inc))
  {
  }

  /** No traced frame of `f` begins while time is pending one level below it, if `h` are the times of the
      frames that ended before `f`. */
  predicate NothingPending(h: Hist<Timing>, f: Forest, level: nat)
    decreases f
  {
    f.Frame? ==>
      && (f.traced && level < DEEPEST ==> Since(h, level + 1) == 0)
      && NothingPending(h, f.kids, level + 1)
      && var h1 := TreeTimes(h, f.kids, level + 1);
         NothingPending(if f.traced then After(h1, Timing(level, f.leave - f.enter, TreeExc(f, level))) else h1, f.next, level)
  }

  /** For every tracing pattern and every clock, even one that goes back: from a state that some run reaches,
      the flat table reports exactly the tree's times if and only if no traced frame begins while the frames
      that ended one level below since one last ended at its own level add up to some time. */
  lemma {:induction false} ExactIffNothingPending(m: Meter, f: Forest, level: nat)
    requires Metered(m) && level >= 1
    ensures Replay(m, f, level).times == TreeTimes(m.times, f, level) <==> NothingPending(m.times, f, level)
    decreases f
  {
    if f.Frame? {
      hide Replay, TreeTimes, Tick, TreeExc, Since;
      var m1, h1 := Replay(m, f.kids, level + 1), TreeTimes(m.times, f.kids, level + 1);
      var inc := f.leave - f.enter;
      var (table, exc) := Tick(m1.table, level, inc);
      var m2 := if f.traced then Meter(table, After(m1.times, Timing(level, inc, exc))) else m1;
      var h2 := if f.traced then After(h1, Timing(level, inc, TreeExc(f, level))) else h1;
      FrameUnfolds(m, f, level);
      ExactIffNothingPending(m, f.kids, level + 1);
      FrameExact(m, f, level);
      if Replay(m2, f.next, level).times == TreeTimes(h2, f.next, level) { DifferenceStays(m2, h2, f.next, level); }
      ReplayMetered(m, f.kids, level + 1);
      if f.traced { TickMetered(m1, level, inc); }
      ExactIffNothingPending(m2, f.next, level);
    }
  }

  lemma TickMetered(m: Meter, level: nat, inc: int)
    requires Metered(m) && level >= 1
    ensures var (table, exc) := Tick(m.table, level, inc); Metered(Meter(table, After(m.times, Timing(level, inc, exc))))
  {
  }

  /** The same of a run of calls in any state that some run reaches. */
  lemma RunExactIffNothingPending(s: State, c: Calls)
    requires Metered(Meter(s.table, s.times))
    ensures var r := Run(s, c);
            r.state.times == TreeTimes(s.times, r.forest, s.level + 1) <==> NothingPending(s.times, r.forest, s.level + 1)
  {
    RunReplays(s, c);
    ExactIffNothingPending(Meter(s.table, s.times), Run(s, c).forest, s.level + 1);
  }

  // ----- a monotone clock

  /** The clock readings of `f`, in the order they are made and starting from `now`, never go back; the
      result is the last one. Only traced frames read the clock. */
  function Clock(f: Forest, now: int): Option<int>
    decreases f
  {
    match f
    case Leaf => Some(now)
    case Frame(traced, enter, leave, kids, next) =>
      if traced then
        if enter < now then None else
          var inner := Clock(kids, enter);
          if inner.None? || leave < inner.value then None else Clock(next, leave)
      else
        var inner := Clock(kids, now);
        if inner.None? then None else Clock(next, inner.value)
  }

  lemma {:induction false} ClockBounds(f: Forest, now: int)
    requires Clock(f, now).Some?
    ensures now <= Clock(f, now).value && 0 <= TracedSum(f) <= Clock(f, now).value - now
    decreases f
  {
    match f
    case Leaf =>
    case Frame(traced, enter, leave, kids, next) =>
      ClockBounds(kids, if traced then enter else now);
      ClockBounds(next, if traced then leave else Clock(kids, now).value);
  }

  /** Every time in `h` is within its inclusive time. */
  predicate Sane(h: Hist<Timing>) {
    h.After? ==> Sane(h.past) && 0 <= h.last.exc <= h.last.inc
  }

  lemma {:induction false} TreeTimesSane(h: Hist<Timing>, f: Forest, level: nat, now: int)
    requires Sane(h) && Clock(f, now).Some?
    ensures Sane(TreeTimes(h, f, level))
    decreases f
  {
    match f
    case Leaf =>
    case Frame(traced, enter, leave, kids, next) =>
      var start := if traced then enter else now;
      ClockBounds(kids, start);
      TreeTimesSane(h, kids, level + 1, start);
      var h1 := TreeTimes(h, kids, level + 1);
      TreeTimesSane(if traced then After(h1, Timing(level, leave - enter, TreeExc(f, level))) else h1, next, level,
                    if traced then leave else Clock(kids, now).value);
  }

  /** With a clock that never goes back and parent-closed tracing, no exclusive time is negative and
      none exceeds its inclusive time. */
  lemma RunTimesSane(s: State, c: Calls, now: int)
    requires s.Sized() && ZeroAbove(s.table, s.level + 1) && ParentClosed(Run(s, c).forest)
    requires Sane(s.times) && Clock(Run(s, c).forest, now).Some?
    ensures Sane(Run(s, c).state.times)
  {
    RunConservesTime(s, c);
    TreeTimesSane(s.times, Run(s, c).forest, s.level + 1, now);
  }

  // ----- when tracing is parent-closed, and what happens when it is not

  /** Nothing received during `c` starts tracing or brings a name filter. */
  ghost predicate Calm(c: Calls) {
    c.Call? ==> CalmProbe(c.probe) && Calm(c.body) && Calm(c.next)
  }

  ghost predicate CalmProbe(p: Probe) {
    forall m <- p.inbox :: CalmMsg(m)
  }

  predicate CalmMsg(m: Msg) { !m.DoTrace? && (m.DoFilter? ==> !m.filter.kind.func && !m.filter.kind.cls) }

  /** No name filter is in force. */
  predicate Unnamed(s: State) { !s.filter.kind.func && !s.filter.kind.cls }

  /** `t` traces nothing that `s` does not, and filters no names. */
  ghost predicate Fading(s: State, t: State) {
    Unnamed(t) && t.flags.output == s.flags.output && (t.flags.tool ==> s.flags.tool)
  }

  lemma {:induction false} CalmReceive(s: State, inbox: seq<Msg>)
    requires Unnamed(s) && forall m <- inbox :: CalmMsg(m)
    ensures Fading(s, ReceiveAll(s, inbox))
    decreases inbox
  {
    if inbox != [] {
      assert CalmMsg(inbox[0]);
      CalmReceive(Receive(s, inbox[0]), inbox[1..]);
    }
  }

  lemma CalmCheck(s: State, p: Probe)
    requires Unnamed(s) && CalmProbe(p)
    ensures Fading(s, CheckEntry(s, p))
  {
    var s1 := Look(s, AtEntry, p.write);
    if s1.ctrl { CalmReceive(if s1.sock == -1 then Connect(s1, p.fd) else s1, p.inbox); }
  }

  /** Tracing that is only ever switched off, even in the middle of the recursion, is parent-closed:
      a frame that began traced ends traced because it captured the flags at its entry. */
  lemma {:induction false} SwitchingOffStaysClosed(s: State, c: Calls)
    requires Unnamed(s) && Calm(c)
    ensures var r := Run(s, c);
            ParentClosed(r.forest) && Fading(s, r.state) && (!s.flags.On() ==> NoneTraced(r.forest))
    decreases c
  {
    if c.Call? {
      CalmCheck(s, c.probe);
      SwitchingOffStaysClosed(Begin(s, c), c.body);
      var inner := Run(Begin(s, c), c.body);
      if !(inner.bailed || c.exits) {
        SwitchingOffStaysClosed(Finish(inner.state, Local(s, c), s.serial, c), c.next);
      }
    }
  }

  /** So a run that is traced from its outermost call and at most switched off later reports exactly the
      tree's times, and loses none. */
  lemma CalmRunIsExact(s: State, c: Calls)
    requires s.Sized() && ZeroAbove(s.table, s.level + 1) && Unnamed(s) && Calm(c)
    ensures var r := Run(s, c);
            && r.state.times == TreeTimes(s.times, r.forest, s.level + 1)
            && SumExc(r.state.times) - SumExc(s.times) == (if s.level + 1 <= DEEPEST then TracedSum(r.forest) else 0)
  {
    SwitchingOffStaysClosed(s, c);
    RunConservesTime(s, c);
  }

  /** Nothing new from the tool, and the control bit is not switched off. */
  predicate QuietProbe(p: Probe) { p.write != Put(false) && p.inbox == [] && p.ending.Drained? }

  /** Calls during which the tool says nothing; they may bail out. */
  ghost predicate Undisturbed(c: Calls) {
    c.Call? ==> QuietProbe(c.probe) && Undisturbed(c.body) && Undisturbed(c.next)
  }

  /** The calls of `c` that happen, traced where the filter lets them through, and whether the last bails out. */
  function Filtered(f: Filter, c: Calls): (Forest, bool) {
    match c
    case Nil => (Leaf, false)
    case Call(_, fn, enter, body, leave, exits, next) =>
      var (kids, bailed) := Filtered(f, body);
      if bailed || exits then (Frame(Passes(f, fn), enter, leave, kids, Leaf), true)
      else
        var (rest, end) := Filtered(f, next);
        (Frame(Passes(f, fn), enter, leave, kids, rest), end)
  }

  /** In an undisturbed session the frames traced are exactly those the filter lets through. */
  lemma {:induction false} UndisturbedRun(s: State, c: Calls)
    requires s.ctrl && s.sock != -1 && s.flags.On() && Undisturbed(c)
    ensures var r := Run(s, c);
            && (r.forest, r.bailed) == Filtered(s.filter, c)
            && r.state.ctrl && r.state.sock == s.sock && r.state.flags == s.flags && r.state.filter == s.filter
    decreases c
  {
    hide Tick, Passes;
    if c.Call? {
      assert CheckEntry(s, c.probe) == s.Note(Probed(AtEntry, true));
      UndisturbedRun(Begin(s, c), c.body);
      var inner := Run(Begin(s, c), c.body);
      if !(inner.bailed || c.exits) { UndisturbedRun(Finish(inner.state, Local(s, c), s.serial, c), c.next); }
    }
  }

  function Plain(name: string, enter: int, body: Calls, leave: int, next: Calls): Calls {
    Call(Probe(Keep, -1, [], Drained, Keep, -1), Func(Some(name), None), enter, body, leave, false, next)
  }

  const F_ONLY := Filter(FUNCTION_KIND, "f")

  const SKEWED := Plain("a", 0, Plain("f", 0, Nil, 100, Nil), 100, Plain("f", 100, Nil, 110, Nil))

  /** Under the filter: `f` traced below the untraced `a`, then `f` again. */
  const SKEWED_FRAMES := Frame(false, 0, 100, Frame(true, 0, 100, Leaf, Leaf), Frame(true, 100, 110, Leaf, Leaf))

  lemma SkewedFrames()
    ensures Filtered(F_ONLY, SKEWED).0 == SKEWED_FRAMES && Undisturbed(SKEWED)
  {
    assert MatchesAt("f", "f", 0);
    assert "a"[0..1][0] != "f"[0];
  }

  lemma SkewedReplay(m: Meter)
    requires |m.table| == EXC_TIME_LEN && ZeroAbove(m.table, 0)
    ensures Replay(m, SKEWED_FRAMES, 1).times == After(After(m.times, Timing(2, 100, 100)), Timing(1, 10, -90))
  {
  }

  /** A name filter breaks the side condition, and then the code reports wrong times: `f` called from the
      untraced `a` leaves its 100 units in slot 2, and the next `f` at level 1, which took 10, is
      reported with an exclusive time of -90. */
  lemma NameFilterSkewsTimes(s: State)
    requires s.ctrl && s.sock != -1 && s.flags.On() && s.filter == F_ONLY && s.level == 0
    requires s.Sized() && ZeroAbove(s.table, 0)
    ensures Run(s, SKEWED).state.times == After(After(s.times, Timing(2, 100, 100)), Timing(1, 10, -90))
  {
    hide Run, Replay, Filtered, Undisturbed;
    SkewedFrames();
    UndisturbedRun(s, SKEWED);
    RunReplays(s, SKEWED);
    SkewedReplay(Meter(s.table, s.times));
  }

  /** A first request in which the tool asks for functions named like "f". */
  const F_REQUEST := Request(Probe(Put(true), 3, [DoFilter(F_ONLY), DoTrace], Drained, Keep, -1), "", [SKEWED])

  lemma NameFilterStarts()
    ensures var s := RequestStart(Init(false), F_REQUEST);
            && s.ctrl && s.sock == 3 && s.flags.tool && s.filter == F_ONLY && s.level == 0
            && s.table == Init(false).table && s.times == Start
  {
    var p := F_REQUEST.probe;
    var s1 := Look(Init(false), AtRequest, p.write);
    var s3 := Receive(Connect(s1, 3), DoFilter(F_ONLY));
    assert p.inbox[1..] == [DoTrace] && [DoTrace][1..] == [];
    assert ReceiveAll(s3, [DoTrace]) == Receive(s3, DoTrace);
    assert HandleCommand(s1, p) == Receive(s3, DoTrace);
  }

  /** So from module start-up one request under a name filter makes the extension report -90. */
  lemma NameFilterReportsNegative()
    ensures ServeAll(Init(false), [F_REQUEST]).times == After(After(Start, Timing(2, 100, 100)), Timing(1, 10, -90))
  {
    hide RequestStart, Run;
    NameFilterStarts();
    var s := RequestStart(Init(false), F_REQUEST);
    NameFilterSkewsTimes(s);
    assert [SKEWED][1..] == [] && [F_REQUEST][1..] == [];
    assert RunTops(Run(s, SKEWED).state, []) == Run(s, SKEWED).state;
    assert RunTops(s, [SKEWED]) == Run(s, SKEWED).state;
    assert ServeAll(Serve(Init(false), F_REQUEST), []) == Serve(Init(false), F_REQUEST);
  }

  /** For an undisturbed session the exact condition needs only the inputs, with any bailouts and any clock: the
      times reported are the tree's if and only if nothing is pending when a call that passes begins. */
  lemma FilteredExactIff(s: State, c: Calls)
    requires s.ctrl && s.sock != -1 && s.flags.On() && Undisturbed(c) && Metered(Meter(s.table, s.times))
    ensures var f := Filtered(s.filter, c).0;
            Run(s, c).state.times == TreeTimes(s.times, f, s.level + 1) <==> NothingPending(s.times, f, s.level + 1)
  {
    UndisturbedRun(s, c);
    RunExactIffNothingPending(s, c);
  }

  /** If moreover no call ends before it began, only which calls pass and which took time matters. */
  lemma FilteredPatternExactIff(s: State, c: Calls, d: set<nat>)
    requires s.ctrl && s.sock != -1 && s.flags.On() && Undisturbed(c)
    requires Holds(s.table, d) && Forward(Filtered(s.filter, c).0)
    ensures var f := Filtered(s.filter, c).0;
            Run(s, c).state.times == TreeTimes(s.times, f, s.level + 1) <==> Leftover(f, s.level + 1, d).Some?
  {
    UndisturbedRun(s, c);
    RunExactIffNothingLeftover(s, c, d);
  }
}
