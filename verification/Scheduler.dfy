/** Runs of the process table under the round-robin scheduler of one processor. */
module Scheduler {
  import opened Procs

  const IDLE := -1

  /** The table, the slot of the running process or IDLE, and the slot the scheduler looks at next. */
  datatype State = State(t: Table, cur: int, next: nat)

  function Me(s: State): Proc
    requires 0 <= s.cur < |s.t.proc|
  {
    s.t.proc[s.cur]
  }

  ghost predicate Enabled(s: State, x: Op)
    requires s.t.Shape()
  {
    if x.Look? then s.cur == IDLE && s.next < NPROC
    else if x.Wake? then true
    else
      && 0 <= s.cur < NPROC && Me(s).state == Running
      && match x
         case Kills(i) => i < NPROC
         case Alloc(i) => i < NPROC && s.t.proc[i].state == Unused
         case Abandons(i) => i < NPROC && s.t.proc[i].state == Embryo
         case Starts(i) => i < NPROC && s.t.proc[i].state == Embryo
         case Reaps(i) => i < NPROC && s.t.proc[i].state == Zombie && s.t.proc[i].parent == s.cur
         case SleepsInWait => !ZombieBelow(s.t.proc, s.cur, NPROC)
         case Exits => s.cur != s.t.init
         case _ => true
  }

  ghost function NextTable(s: State, x: Op): (g: Table)
    requires s.t.Shape() && Enabled(s, x)
    ensures g.Shape() && g.init == s.t.init
  {
    TableStep(s.t, if x.Look? then s.next else s.cur, x)
  }

  ghost predicate Dispatches(s: State, x: Op)
    requires s.t.Shape() && Enabled(s, x)
  {
    x.Look? && s.t.proc[s.next].state == Runnable
  }

  ghost function Next(s: State, x: Op): (r: State)
    requires s.t.Shape() && Enabled(s, x)
    ensures r.t.Shape()
  {
    State(NextTable(s, x),
          if Dispatches(s, x) then s.next
          else if x.SleepsOnEvent? || x.SleepsInWait? || x.Exits? || x.Yields? then IDLE
          else s.cur,
          if x.Look? then (if s.next + 1 == NPROC then 0 else s.next + 1) else s.next)
  }

  // ----- Safety over runs -----

  /** The running process is the current one, and there is no other. */
  ghost predicate Inv(s: State) {
    s.t.Ok() && s.next < NPROC && (s.cur == IDLE || 0 <= s.cur < NPROC)
    && forall i :: 0 <= i < NPROC ==> (s.t.proc[i].state == Running <==> i == s.cur)
  }

  lemma TableStaysOk(s: State, x: Op)
    requires Inv(s) && Enabled(s, x)
    ensures NextTable(s, x).Ok()
  {
    var t, g := s.t, NextTable(s, x);
    match x
    case Look =>
      if t.proc[s.next].state == Runnable {
        StillAliveOk(t, s.next, t.proc[s.next].(state := Running));
      }
    case Wake(c) => OnlyWokenOk(t, g);
    case Kills(i) => KilledOk(t, i);
    case Alloc(i) => NotStartedOk(t, g, i, Embryo);
    case Abandons(i) => NotStartedOk(t, g, i, Unused);
    case Starts(i) => StartOk(t, i, s.cur);
    case Reaps(i) => ReapOk(t, g, i);
    case SleepsOnEvent(id) => StillAliveOk(t, s.cur, Me(s).(state := Sleeping, chan := OnEvent(id)));
    case SleepsInWait => StillAliveOk(t, s.cur, Me(s).(state := Sleeping, chan := OnProc(s.cur)));
    case Exits => ExitedOk(t, g, s.cur);
    case Yields => StillAliveOk(t, s.cur, Me(s).(state := Runnable));
  }

  lemma StepKeepsInv(s: State, x: Op)
    requires Inv(s) && Enabled(s, x)
    ensures Inv(Next(s, x))
  {
    TableStaysOk(s, x);
  }

  /** The table as userinit leaves it, with the scheduler about to look at its first slot, is where every
  run starts. */
  method Boot() returns (p: ProcTable)
    ensures fresh(p) && Inv(State(p.T(), IDLE, 0)) && p.nextpid == 2
  {
    p := new ProcTable();
  }

  datatype Outcome = Stuck | Ran(s: State)

  ghost function Run(s: State, xs: seq<Op>): (o: Outcome)
    requires s.t.Shape()
    ensures o.Ran? ==> o.s.t.Shape()
    decreases |xs|
  {
    if xs == [] then Ran(s) else if !Enabled(s, xs[0]) then Stuck else Run(Next(s, xs[0]), xs[1..])
  }

  /** In every run, whenever the lock is free: each started process but the first has a living parent,
  nobody waits while a child of theirs is a zombie, nonzero pids are distinct, no pid is reaped twice
  or still in the table after it was, and only the current process runs. */
  lemma {:induction false} RunKeepsInv(s: State, xs: seq<Op>)
    requires Inv(s) && Run(s, xs).Ran?
    ensures Inv(Run(s, xs).s)
    decreases |xs|
  {
    if xs != [] {
      StepKeepsInv(s, xs[0]);
      RunKeepsInv(Next(s, xs[0]), xs[1..]);
    }
  }

  function Allocs(xs: seq<Op>): nat {
    if xs == [] then 0 else (if xs[0].Alloc? then 1 else 0) + Allocs(xs[1..])
  }

  /** Each allocproc uses up one pid and nothing gives one back: nextpid stays an int, and pids distinct,
  exactly until a run has made 2^31 - 2 processes after the first. */
  lemma {:induction false} RunPids(s: State, xs: seq<Op>)
    requires s.t.Shape() && Run(s, xs).Ran?
    ensures Run(s, xs).s.t.nextpid == s.t.nextpid + Allocs(xs)
    ensures s.t.nextpid == 2 ==> (Run(s, xs).s.t.nextpid < 0x8000_0000 <==> Allocs(xs) < 0x7FFF_FFFE)
    decreases |xs|
  {
    if xs != [] {
      RunPids(Next(s, xs[0]), xs[1..]);
    }
  }

  /** A zombie stays one until its parent reaps it. */
  lemma ZombieStays(s: State, x: Op, i: nat)
    requires Inv(s) && Enabled(s, x) && i < NPROC && s.t.proc[i].state == Zombie
    ensures x == Reaps(i) || (Next(s, x).t.proc[i].state == Zombie && Next(s, x).t.proc[i].pid == s.t.proc[i].pid)
    ensures x == Reaps(i) ==> s.t.proc[i].parent == s.cur && Next(s, x).t.reaped == s.t.reaped + [s.t.proc[i].pid]
  {
  }

  // ----- Bounded bypass -----

  /** Only the scheduler takes a process out of Runnable. */
  lemma RunnableStays(s: State, x: Op, i: nat)
    requires Inv(s) && Enabled(s, x) && i < NPROC && s.t.proc[i].state == Runnable
    ensures Next(s, x).t.proc[i].state == Runnable <==> !(x.Look? && s.next == i)
  {
  }

  /** Slots the scheduler looks at before slot i. */
  function Ahead(next: nat, i: nat): int {
    if next <= i then i - next else i + NPROC - next
  }

  ghost function Dispatched(s: State, xs: seq<Op>): nat
    requires s.t.Shape() && Run(s, xs).Ran?
    decreases |xs|
  {
    if xs == [] then 0 else Dispatched(Next(s, xs[0]), xs[1..]) + if Dispatches(s, xs[0]) then 1 else 0
  }

  /** Slot i is never the one dispatched. */
  ghost predicate PassedOver(s: State, xs: seq<Op>, i: nat)
    requires s.t.Shape() && Run(s, xs).Ran?
    decreases |xs|
  {
    xs == [] || (!(Dispatches(s, xs[0]) && s.next == i) && PassedOver(Next(s, xs[0]), xs[1..], i))
  }

  lemma {:induction false} PassedOverAtMost(s: State, xs: seq<Op>, i: nat)
    requires Inv(s) && Run(s, xs).Ran? && i < NPROC && s.t.proc[i].state == Runnable && PassedOver(s, xs, i)
    ensures Run(s, xs).s.t.proc[i].state == Runnable && Dispatched(s, xs) <= Ahead(s.next, i)
    decreases |xs|
  {
    if xs != [] {
      StepKeepsInv(s, xs[0]);
      RunnableStays(s, xs[0], i);
      PassedOverAtMost(Next(s, xs[0]), xs[1..], i);
    }
  }

  /** A runnable process is passed over by at most NPROC - 1 dispatches, whatever the others do. */
  lemma BoundedBypass(s: State, xs: seq<Op>, i: nat)
    requires Inv(s) && Run(s, xs).Ran? && i < NPROC && s.t.proc[i].state == Runnable && PassedOver(s, xs, i)
    ensures Dispatched(s, xs) <= NPROC - 1
  {
    PassedOverAtMost(s, xs, i);
  }
}
