/** The process table: fork, exit, wait, kill, sleep and wakeup.  Each method is what one process
does while it holds the process table lock. */
module Procs {
  const NPROC := 64
  const NOBODY := -1

  datatype PState = Unused | Embryo | Sleeping | Runnable | Running | Zombie

  /** What a process sleeps on: a process (its parent in wait) or anything else. */
  datatype Chan = Nothing | OnProc(i: int) | OnEvent(id: nat)

  datatype Proc = Proc(state: PState, pid: nat, parent: int, chan: Chan, killed: bool) {
    predicate Alive() {
      state == Sleeping || state == Runnable || state == Running
    }

    predicate Started() {
      Alive() || state == Zombie
    }

    predicate SleepsOn(c: Chan) {
      state == Sleeping && chan == c
    }
  }

  /** The table, the slot of the first process, the next pid and the pids wait has returned. */
  datatype Table = Table(proc: seq<Proc>, init: nat, nextpid: nat, reaped: seq<nat>) {
    ghost predicate Shape() {
      |proc| == NPROC && init < NPROC && 1 <= nextpid
    }

    /** The parent of a started process is alive; other slots have none. */
    ghost predicate FamilyAt(i: int)
      requires Shape() && 0 <= i < NPROC
    {
      if i == init then proc[i].Alive() && proc[i].parent == NOBODY
      else if proc[i].Started() then 0 <= proc[i].parent < NPROC && proc[i].parent != i && proc[proc[i].parent].Alive()
      else proc[i].parent == NOBODY
    }

    /** A process asleep in wait has no zombie child. */
    ghost predicate WaiterAt(q: int)
      requires Shape() && 0 <= q < NPROC
    {
      proc[q].SleepsOn(OnProc(q)) ==> forall i :: 0 <= i < NPROC && proc[i].parent == q ==> proc[i].state != Zombie
    }

    ghost predicate Families()
      requires Shape()
    {
      && (forall i {:trigger FamilyAt(i)} :: 0 <= i < NPROC ==> FamilyAt(i))
      && (forall q {:trigger WaiterAt(q)} :: 0 <= q < NPROC ==> WaiterAt(q))
    }

    /** Nonzero pids are distinct, and one that wait has returned is never in use again. */
    ghost predicate Pids()
      requires Shape()
    {
      && (forall i :: 0 <= i < NPROC ==> proc[i].pid < nextpid && (proc[i].state != Unused ==> proc[i].pid != 0))
      && (forall i, j :: 0 <= i < j < NPROC && proc[i].pid != 0 ==> proc[i].pid != proc[j].pid)
      && (forall k :: 0 <= k < |reaped| ==> 0 < reaped[k] < nextpid)
      && (forall k, l :: 0 <= k < l < |reaped| ==> reaped[k] != reaped[l])
      && (forall i, k :: 0 <= i < NPROC && 0 <= k < |reaped| ==> proc[i].pid != reaped[k])
    }

    ghost predicate Ok() {
      Shape() && Families() && Pids()
    }
  }

  // ----- Table changes -----

  function WokenProc(p: Proc, c: Chan): Proc {
    if p.SleepsOn(c) then p.(state := Runnable) else p
  }

  /** Everyone asleep on c made runnable. */
  function Woken(ps: seq<Proc>, c: Chan): (r: seq<Proc>)
    ensures |r| == |ps| && forall i :: 0 <= i < |ps| ==> r[i] == WokenProc(ps[i], c)
  {
    seq(|ps|, i requires 0 <= i < |ps| => WokenProc(ps[i], c))
  }

  /** g is h with some sleepers made runnable and nothing else changed. */
  ghost predicate OnlyWoken(h: Table, g: Table) {
    && h.Shape() && g == h.(proc := g.proc) && |g.proc| == NPROC
    && forall i :: 0 <= i < NPROC ==>
      g.proc[i] == h.proc[i] || (h.proc[i].state == Sleeping && g.proc[i] == h.proc[i].(state := Runnable))
  }

  lemma OnlyWokenOk(h: Table, g: Table)
    requires h.Ok() && OnlyWoken(h, g)
    ensures g.Ok()
  {
    forall i | 0 <= i < NPROC ensures g.FamilyAt(i) && g.WaiterAt(i) {
      assert h.FamilyAt(i) && h.WaiterAt(i);
    }
  }

  ghost function Put(h: Table, i: nat, p: Proc): Table
    requires i < |h.proc|
  {
    h.(proc := h.proc[i := p])
  }

  /** Slot i changes between states that are all alive, and does not start to wait with a zombie child. */
  lemma StillAliveOk(h: Table, i: nat, p: Proc)
    requires h.Ok() && i < NPROC && h.proc[i].Alive()
    requires p.Alive() && p.pid == h.proc[i].pid && p.parent == h.proc[i].parent
    requires p.SleepsOn(OnProc(i)) ==> forall j :: 0 <= j < NPROC && h.proc[j].parent == i ==> h.proc[j].state != Zombie
    ensures Put(h, i, p).Ok()
  {
    var g := Put(h, i, p);
    forall j | 0 <= j < NPROC ensures g.FamilyAt(j) && g.WaiterAt(j) {
      assert h.FamilyAt(j) && h.WaiterAt(j);
    }
  }

  /** A slot that is not started changes to another such state; allocproc also takes a new pid. */
  lemma NotStartedOk(h: Table, g: Table, i: nat, s: PState)
    requires h.Ok() && i < NPROC && !h.proc[i].Started()
    requires
      || (s == Embryo && g == Put(h, i, h.proc[i].(state := Embryo, pid := h.nextpid)).(nextpid := h.nextpid + 1))
      || (s == Unused && g == Put(h, i, h.proc[i].(state := Unused)))
    ensures g.Ok()
  {
    forall j | 0 <= j < NPROC ensures g.FamilyAt(j) && g.WaiterAt(j) {
      assert h.FamilyAt(j) && h.WaiterAt(j);
    }
  }

  /** A new process becomes runnable with a living parent. */
  lemma StartOk(h: Table, i: nat, me: nat)
    requires h.Ok() && i < NPROC && h.proc[i].state == Embryo && me < NPROC && h.proc[me].Alive()
    ensures Put(h, i, h.proc[i].(state := Runnable, parent := me)).Ok()
  {
    var g := Put(h, i, h.proc[i].(state := Runnable, parent := me));
    forall j | 0 <= j < NPROC ensures g.FamilyAt(j) && g.WaiterAt(j) {
      assert h.FamilyAt(j) && h.WaiterAt(j);
    }
    assert h.FamilyAt(i);
  }

  // ----- exit -----

  /** Slot i after me has exited: me is a zombie, its children belong to init, and its parent and, if
  it has inherited a zombie, init are woken from wait. */
  function ExitedProc(p: Proc, i: int, me: int, parent: int, init: int, zombies: bool): Proc {
    var q := WokenProc(p, OnProc(parent));
    var r := if zombies then WokenProc(q, OnProc(init)) else q;
    var s := if p.parent == me then r.(parent := init) else r;
    if i == me then s.(state := Zombie) else s
  }

  /** Some slot below k holds a zombie child of me. */
  predicate ZombieBelow(ps: seq<Proc>, me: int, k: int)
    requires k <= |ps|
  {
    exists i :: 0 <= i < k && ps[i].parent == me && ps[i].state == Zombie
  }

  function ExitingProc(p: Proc, i: int, me: int, parent: int, init: int, zombies: bool, k: int): Proc {
    var q := WokenProc(p, OnProc(parent));
    var r := if zombies then WokenProc(q, OnProc(init)) else q;
    if i < k && p.parent == me then r.(parent := init) else r
  }

  /** The table after the first k slots of the loop in exit. */
  ghost predicate Exiting(h: seq<Proc>, g: seq<Proc>, me: nat, init: nat, k: nat) {
    && |g| == |h| == NPROC && me < NPROC && k <= NPROC
    && forall i :: 0 <= i < NPROC ==> g[i] == ExitingProc(h[i], i, me, h[me].parent, init, ZombieBelow(h, me, k), k)
  }

  lemma ExitingNext(h: seq<Proc>, g: seq<Proc>, me: nat, init: nat, k: nat)
    requires Exiting(h, g, me, init, k) && k < NPROC && me != init
    ensures
      var e := if g[k].parent == me then g[k := g[k].(parent := init)] else g;
      Exiting(h, if g[k].parent == me && e[k].state == Zombie then Woken(e, OnProc(init)) else e, me, init, k + 1)
  {
    assert ZombieBelow(h, me, k + 1) <==> ZombieBelow(h, me, k) || (h[k].parent == me && h[k].state == Zombie);
  }

  lemma ExitingStart(h: seq<Proc>, me: nat, init: nat)
    requires |h| == NPROC && me < NPROC
    ensures Exiting(h, Woken(h, OnProc(h[me].parent)), me, init, 0)
  {
  }

  ghost predicate Exited(h: Table, g: Table, me: nat)
    requires h.Shape() && me < NPROC
  {
    && g == h.(proc := g.proc) && |g.proc| == NPROC
    && forall i :: 0 <= i < NPROC ==>
      g.proc[i] == ExitedProc(h.proc[i], i, me, h.proc[me].parent, h.init, ZombieBelow(h.proc, me, NPROC))
  }

  lemma ExitingEnd(h: Table, e: seq<Proc>, g: Table, me: nat)
    requires h.Shape() && me < NPROC == |e| && Exiting(h.proc, e, me, h.init, NPROC)
    requires g == h.(proc := e[me := e[me].(state := Zombie)])
    ensures Exited(h, g, me)
  {
  }

  lemma ExitedFamily(h: Table, g: Table, me: nat, i: nat)
    requires h.Ok() && me < NPROC && me != h.init && h.proc[me].state == Running && Exited(h, g, me) && i < NPROC
    ensures g.FamilyAt(i)
  {
    assert h.FamilyAt(me) && h.FamilyAt(h.init) && h.FamilyAt(i);
    assert h.proc[h.init].Alive() && g.proc[h.init].Alive();
    var q := h.proc[i].parent;
    if 0 <= q < NPROC && q != me {
      assert h.proc[q].Alive() ==> g.proc[q].Alive();
    }
  }

  lemma ExitedWaiter(h: Table, g: Table, me: nat, q: nat, i: nat)
    requires h.Ok() && me < NPROC && me != h.init && h.proc[me].state == Running && Exited(h, g, me) && q < NPROC
    requires i < NPROC
    requires g.proc[q].SleepsOn(OnProc(q)) && g.proc[i].parent == q
    ensures g.proc[i].state != Zombie
  {
    assert h.FamilyAt(me) && h.WaiterAt(q);
    assert h.proc[q].SleepsOn(OnProc(q)) && q != h.proc[me].parent;
  }

  lemma ExitedPids(h: Table, g: Table, me: nat)
    requires h.Ok() && me < NPROC && h.proc[me].state == Running && Exited(h, g, me)
    ensures g.Pids()
  {
    assert forall i :: 0 <= i < NPROC ==>
      g.proc[i].pid == h.proc[i].pid && (h.proc[i].state == Unused ==> g.proc[i].state == Unused);
  }

  lemma ExitedOk(h: Table, g: Table, me: nat)
    requires h.Ok() && me < NPROC && me != h.init && h.proc[me].state == Running && Exited(h, g, me)
    ensures g.Ok()
  {
    assert g.Shape();
    hide Exited;
    forall i | 0 <= i < NPROC ensures g.FamilyAt(i) {
      ExitedFamily(h, g, me, i);
    }
    forall q | 0 <= q < NPROC ensures g.WaiterAt(q) {
      forall i | 0 <= i < NPROC && g.proc[q].SleepsOn(OnProc(q)) && g.proc[i].parent == q
        ensures g.proc[i].state != Zombie
      {
        ExitedWaiter(h, g, me, q, i);
      }
    }
    ExitedPids(h, g, me);
  }

  // ----- wait -----

  function ReapedProc(p: Proc): Proc {
    Proc(Unused, 0, NOBODY, p.chan, false)
  }

  lemma ReapOk(h: Table, g: Table, i: nat)
    requires h.Ok() && i < NPROC && h.proc[i].state == Zombie
    requires g == Put(h, i, ReapedProc(h.proc[i])).(reaped := h.reaped + [h.proc[i].pid])
    ensures g.Ok()
  {
    forall j | 0 <= j < NPROC ensures g.FamilyAt(j) && g.WaiterAt(j) {
      assert h.FamilyAt(j) && h.WaiterAt(j);
    }
    assert h.FamilyAt(h.init);
  }

  // ----- Steps -----

  /** Look: the scheduler looks at a slot and runs what it finds runnable.  Wake: wakeup, by the running
  process or an interrupt.  The rest is done by the running process. */
  datatype Op =
    | Look
    | Wake(c: Chan)
    | Kills(i: nat)
    | Alloc(i: nat)
    | Abandons(i: nat)
    | Starts(i: nat)
    | Reaps(i: nat)
    | SleepsOnEvent(id: nat)
    | SleepsInWait
    | Exits
    | Yields

  predicate HasSlot(x: Op) {
    x.Kills? || x.Alloc? || x.Abandons? || x.Starts? || x.Reaps?
  }

  ghost function ExitTable(t: Table, me: nat): Table
    requires t.Shape() && me < NPROC
  {
    var z := ZombieBelow(t.proc, me, NPROC);
    t.(proc := seq(NPROC, i requires 0 <= i < NPROC => ExitedProc(t.proc[i], i, me, t.proc[me].parent, t.init, z)))
  }

  function KilledProc(p: Proc): Proc {
    p.(killed := true, state := if p.state == Sleeping then Runnable else p.state)
  }

  /** What a step does to the table; `at` is the slot looked at, or that of the running process. */
  ghost function TableStep(t: Table, at: int, x: Op): (g: Table)
    requires t.Shape() && (x.Wake? || 0 <= at < NPROC) && (HasSlot(x) ==> x.i < NPROC)
    ensures g.Shape() && g.init == t.init
  {
    match x
    case Look => if t.proc[at].state == Runnable then Put(t, at, t.proc[at].(state := Running)) else t
    case Wake(c) => t.(proc := Woken(t.proc, c))
    case Kills(i) => Put(t, i, KilledProc(t.proc[i]))
    case Alloc(i) => Put(t, i, t.proc[i].(state := Embryo, pid := t.nextpid)).(nextpid := t.nextpid + 1)
    case Abandons(i) => Put(t, i, t.proc[i].(state := Unused))
    case Starts(i) => Put(t, i, t.proc[i].(state := Runnable, parent := at))
    case Reaps(i) => Put(t, i, ReapedProc(t.proc[i])).(reaped := t.reaped + [t.proc[i].pid])
    case SleepsOnEvent(id) => Put(t, at, t.proc[at].(state := Sleeping, chan := OnEvent(id)))
    case SleepsInWait => Put(t, at, t.proc[at].(state := Sleeping, chan := OnProc(at)))
    case Exits => ExitTable(t, at)
    case Yields => Put(t, at, t.proc[at].(state := Runnable))
  }

  /** A step that one of the methods below makes, whichever process runs. */
  ghost predicate Stepped(t: Table, g: Table, x: Op)
    requires t.Shape() && (HasSlot(x) ==> x.i < NPROC)
  {
    forall at {:trigger TableStep(t, at, x)} :: 0 <= at < NPROC ==> g == TableStep(t, at, x)
  }

  lemma ExitedIs(h: Table, g: Table, me: nat)
    requires h.Shape() && me < NPROC && Exited(h, g, me)
    ensures g == TableStep(h, me, Exits)
  {
    assert g.proc == ExitTable(h, me).proc;
  }

  /** The fields that only allocproc, sleep and wait change. */
  predicate RestSame(p: Proc, q: Proc) {
    q.pid == p.pid && q.chan == p.chan
  }

  /** exit by me wakes slot i: it waits for the parent of me to have a zombie child, or for init to have
  one, and me leaves one to init. */
  predicate ExitWakes(ps: seq<Proc>, i: int, me: nat, init: nat)
    requires 0 <= i < |ps| && me < |ps|
  {
    && ps[i].state == Sleeping
    && (ps[i].chan == OnProc(ps[me].parent)
        || (ps[i].chan == OnProc(init) && exists j :: 0 <= j < |ps| && ps[j].parent == me && ps[j].state == Zombie))
  }

  lemma ExitedFields(h: Table, g: Table, me: nat, i: int)
    requires h.Shape() && me < NPROC && Exited(h, g, me) && 0 <= i < NPROC
    ensures g.proc[i].parent == (if h.proc[i].parent == me then h.init else h.proc[i].parent)
    ensures g.proc[i].killed == h.proc[i].killed && RestSame(h.proc[i], g.proc[i])
    ensures g.proc[i].state ==
      if i == me then Zombie else if ExitWakes(h.proc, i, me, h.init) then Runnable else h.proc[i].state
  {
  }

  // ----- The table in place -----

  datatype WaitResult = Reaped(pid: nat) | NoChildren | Sleeps

  /** me has a child in one of the first k slots. */
  predicate ChildBelow(ps: seq<Proc>, me: int, k: int)
    requires k <= |ps|
  {
    exists i :: 0 <= i < k && ps[i].parent == me
  }

  /** me's first zombie child was in slot i; it is gone and its pid, returned now, never was before. */
  ghost predicate ReapedAt(h: Table, g: Table, me: nat, i: int, pid: nat) {
    && h.Shape() && 0 <= i < NPROC && h.proc[i].state == Zombie && h.proc[i].parent == me && h.proc[i].pid == pid
    && !ZombieBelow(h.proc, me, i) && pid !in h.reaped
    && g == h.(proc := h.proc[i := Proc(Unused, 0, NOBODY, h.proc[i].chan, false)], reaped := h.reaped + [pid])
    && Stepped(h, g, Reaps(i))
  }

  /** Slot i, unused before, holds me's new child. */
  ghost predicate Forked(ps: seq<Proc>, qs: seq<Proc>, i: int, me: nat, pid: nat) {
    && 0 <= i < |ps| && ps[i].state == Unused
    && qs == ps[i := ps[i].(state := Runnable, pid := pid, parent := me)]
  }

  ghost predicate FirstWith(ps: seq<Proc>, pid: nat, i: int) {
    0 <= i < |ps| && ps[i].pid == pid && forall j :: 0 <= j < i ==> ps[j].pid != pid
  }

  lemma KilledOk(h: Table, i: nat)
    requires h.Ok() && i < NPROC
    ensures Put(h, i, KilledProc(h.proc[i])).Ok()
  {
    var g := Put(h, i, KilledProc(h.proc[i]));
    forall j | 0 <= j < NPROC ensures g.FamilyAt(j) && g.WaiterAt(j) {
      assert h.FamilyAt(j) && h.WaiterAt(j);
    }
  }

  class ProcTable {
    var proc: seq<Proc>
    var nextpid: nat
    const init: nat
    ghost var reaped: seq<nat>

    ghost function T(): Table
      reads this
    {
      Table(proc, init, nextpid, reaped)
    }

    /** The table with the first process only, as userinit leaves it. */
    constructor ()
      ensures T().Ok() && reaped == [] && nextpid == 2 && |proc| == 64
      ensures forall i :: 0 <= i < NPROC ==> proc[i].state != Running
    {
      var empty := Proc(Unused, 0, NOBODY, Nothing, false);
      init := 0;
      nextpid := 2;
      reaped := [];
      proc := seq(NPROC, i => if i == 0 then Proc(Runnable, 1, NOBODY, Nothing, false) else empty);
      new;
      forall i | 0 <= i < NPROC ensures T().FamilyAt(i) && T().WaiterAt(i) {
      }
    }

    /** allocproc up to releasing the lock: the first unused slot becomes an embryo with a new pid. */
    method AllocProc() returns (i: nat)
      requires T().Ok()
      modifies this
      ensures T().Ok() && i <= NPROC
      ensures forall j :: 0 <= j < i ==> old(proc)[j].state != Unused
      ensures i < NPROC ==> old(proc)[i].state == Unused && nextpid == old(nextpid) + 1
      ensures i < NPROC ==> proc == old(proc)[i := old(proc)[i].(state := Embryo, pid := old(nextpid))]
      ensures i < NPROC ==> Stepped(old(T()), T(), Alloc(i))
      ensures i == NPROC ==> T() == old(T())
      ensures reaped == old(reaped)
    {
      i := 0;
      while i < NPROC && proc[i].state != Unused
        invariant 0 <= i <= NPROC && forall j :: 0 <= j < i ==> proc[j].state != Unused
      {
        i := i + 1;
      }
      if i < NPROC {
        ghost var h := T();
        proc := proc[i := proc[i].(state := Embryo, pid := nextpid)];
        nextpid := nextpid + 1;
        NotStartedOk(h, T(), i, Embryo);
      }
    }

    /** fork when memory runs out: the embryo is given up. */
    method Abandon(i: nat)
      requires T().Ok() && i < NPROC && proc[i].state == Embryo
      modifies `proc
      ensures T().Ok() && proc == old(proc)[i := old(proc)[i].(state := Unused)] && Stepped(old(T()), T(), Abandons(i))
    {
      ghost var h := T();
      proc := proc[i := proc[i].(state := Unused)];
      NotStartedOk(h, T(), i, Unused);
    }

    /** The end of fork: the child of me becomes runnable. */
    method Start(i: nat, me: nat)
      requires T().Ok() && i < NPROC && proc[i].state == Embryo && me < NPROC && proc[me].state == Running
      modifies `proc
      ensures T().Ok() && proc == old(proc)[i := old(proc)[i].(state := Runnable, parent := me)]
      ensures T() == TableStep(old(T()), me, Starts(i))
    {
      StartOk(T(), i, me);
      proc := proc[i := proc[i].(state := Runnable, parent := me)];
    }

    /** fork by me, with whether kernel stack and address space could be allocated. */
    method Fork(me: nat, memory: bool) returns (pid: int)
      requires T().Ok() && me < NPROC && proc[me].state == Running
      modifies this
      ensures T().Ok() && reaped == old(reaped)
      ensures pid == -1 <==> !memory || forall j :: 0 <= j < NPROC ==> old(proc)[j].state != Unused
      ensures pid != -1 ==>
        pid == old(nextpid) && exists i :: 0 <= i < NPROC && Forked(old(proc), proc, i, me, old(nextpid))
      ensures pid == -1 ==> forall j :: 0 <= j < NPROC ==> proc[j].(pid := 0) == old(proc)[j].(pid := 0)
    {
      var i := AllocProc();
      if i == NPROC {
        return -1;
      }
      if !memory {
        Abandon(i);
        return -1;
      }
      Start(i, me);
      assert Forked(old(proc), proc, i, me, old(nextpid));
      return proc[i].pid;
    }

    /** wakeup1. */
    method Wakeup1(c: Chan)
      requires |proc| == NPROC
      modifies `proc
      ensures proc == Woken(old(proc), c) && (old(T()).Ok() ==> T().Ok() && Stepped(old(T()), T(), Wake(c)))
      ensures forall i :: 0 <= i < NPROC ==>
        && proc[i].state ==
          (if old(proc)[i].state == Sleeping && old(proc)[i].chan == c then Runnable else old(proc)[i].state)
        && RestSame(old(proc)[i], proc[i]) && proc[i].parent == old(proc)[i].parent && proc[i].killed == old(proc)[i].killed
    {
      ghost var h := T();
      var i := 0;
      while i < NPROC
        invariant 0 <= i <= NPROC == |proc|
        invariant forall j :: 0 <= j < NPROC ==> proc[j] == if j < i then WokenProc(h.proc[j], c) else h.proc[j]
      {
        if proc[i].state == Sleeping && proc[i].chan == c {
          proc := proc[i := proc[i].(state := Runnable)];
        }
        i := i + 1;
      }
      assert proc == Woken(h.proc, c);
      if h.Ok() {
        OnlyWokenOk(h, T());
      }
    }

    /** sleep on anything but a process, from taking the lock to switching away. */
    method Sleep(me: nat, id: nat)
      requires T().Ok() && me < NPROC && proc[me].state == Running
      modifies `proc
      ensures T().Ok() && proc == old(proc)[me := old(proc)[me].(state := Sleeping, chan := OnEvent(id))]
      ensures T() == TableStep(old(T()), me, SleepsOnEvent(id))
    {
      StillAliveOk(T(), me, proc[me].(state := Sleeping, chan := OnEvent(id)));
      proc := proc[me := proc[me].(state := Sleeping, chan := OnEvent(id))];
    }

    /** kill: the first slot with that pid is marked, and woken if it sleeps. */
    method Kill(pid: nat) returns (r: int)
      requires T().Ok()
      modifies `proc
      ensures T().Ok() && (r == 0 || r == -1)
      ensures r == -1 <==> forall j :: 0 <= j < NPROC ==> old(proc)[j].pid != pid
      ensures r == -1 ==> proc == old(proc)
      ensures r == 0 ==>
        exists i :: FirstWith(old(proc), pid, i) && T() == Put(old(T()), i, KilledProc(old(proc)[i]))
          && Stepped(old(T()), T(), Kills(i))
      ensures r == 0 ==> forall i :: 0 <= i < NPROC ==>
        var hit := FirstWith(old(proc), pid, i);
        && proc[i].state == (if hit && old(proc)[i].state == Sleeping then Runnable else old(proc)[i].state)
        && proc[i].killed == (hit || old(proc)[i].killed)
        && RestSame(old(proc)[i], proc[i]) && proc[i].parent == old(proc)[i].parent
    {
      var i := 0;
      while i < NPROC
        invariant 0 <= i <= NPROC && forall j :: 0 <= j < i ==> proc[j].pid != pid
      {
        if proc[i].pid == pid {
          ghost var h := T();
          KilledOk(h, i);
          assert FirstWith(proc, pid, i);
          proc := proc[i := proc[i].(killed := true)];
          if proc[i].state == Sleeping {
            proc := proc[i := proc[i].(state := Runnable)];
          }
          assert proc == h.proc[i := KilledProc(h.proc[i])];
          return 0;
        }
        i := i + 1;
      }
      return -1;
    }

    /** exit by me up to the switch to the scheduler; the first process must not exit. */
    method Exit(me: nat) returns (panic: bool)
      requires T().Ok() && me < NPROC && proc[me].state == Running
      modifies `proc
      ensures T().Ok() && (panic <==> me == init)
      ensures if panic then proc == old(proc) else Exited(old(T()), T(), me) && T() == TableStep(old(T()), me, Exits)
      ensures !panic ==> forall i :: 0 <= i < NPROC ==>
        && proc[i].parent == (if old(proc)[i].parent == me then init else old(proc)[i].parent)
        && proc[i].killed == old(proc)[i].killed && RestSame(old(proc)[i], proc[i])
        && proc[i].state ==
          (if i == me then Zombie else if ExitWakes(old(proc), i, me, init) then Runnable else old(proc)[i].state)
    {
      hide Table.Families, Table.Pids, Exiting, Exited, ExitedProc, ExitTable, Stepped, ExitWakes;
      if me == init {
        return true;
      }
      ghost var h := T();
      ExitingStart(h.proc, me, init);
      Wakeup1(OnProc(proc[me].parent));
      var i := 0;
      while i < NPROC
        invariant 0 <= i <= NPROC == |proc|
        invariant Exiting(h.proc, proc, me, init, i)
      {
        ExitingNext(h.proc, proc, me, init, i);
        if proc[i].parent == me {
          proc := proc[i := proc[i].(parent := init)];
          if proc[i].state == Zombie {
            Wakeup1(OnProc(init));
          }
        }
        i := i + 1;
      }
      ghost var e := proc;
      proc := proc[me := proc[me].(state := Zombie)];
      ExitingEnd(h, e, T(), me);
      ExitedOk(h, T(), me);
      ExitedIs(h, T(), me);
      forall j | 0 <= j < NPROC
        ensures proc[j].parent == (if h.proc[j].parent == me then init else h.proc[j].parent)
        ensures proc[j].killed == h.proc[j].killed && RestSame(h.proc[j], proc[j])
        ensures proc[j].state ==
          if j == me then Zombie else if ExitWakes(h.proc, j, me, init) then Runnable else h.proc[j].state
      {
        ExitedFields(h, T(), me, j);
      }
      return false;
    }

    /** One turn of wait by me under the lock: the first zombie child is reaped; without one, me has no
    children left to wait for, has been killed, or goes to sleep on itself. */
    method Wait(me: nat) returns (r: WaitResult)
      requires T().Ok() && me < NPROC && proc[me].state == Running
      modifies `proc, `reaped
      ensures T().Ok()
      ensures r.Reaped? <==> ZombieBelow(old(proc), me, NPROC)
      ensures r.Reaped? ==> exists i :: ReapedAt(old(T()), T(), me, i, r.pid)
      ensures r.NoChildren? ==> T() == old(T()) && (!ChildBelow(proc, me, NPROC) || proc[me].killed)
      ensures r.Sleeps? ==> ChildBelow(old(proc), me, NPROC) && !old(proc)[me].killed && reaped == old(reaped)
      ensures r.Sleeps? ==> proc == old(proc)[me := old(proc)[me].(state := Sleeping, chan := OnProc(me))]
      ensures r.Sleeps? ==> T() == TableStep(old(T()), me, SleepsInWait)
    {
      var havekids := false;
      var i := 0;
      while i < NPROC
        invariant 0 <= i <= NPROC && !ZombieBelow(proc, me, i) && (havekids <==> ChildBelow(proc, me, i))
      {
        if proc[i].parent == me {
          havekids := true;
          if proc[i].state == Zombie {
            var pid := Reap(me, i);
            return Reaped(pid);
          }
        }
        i := i + 1;
      }
      if !havekids || proc[me].killed {
        return NoChildren;
      }
      StillAliveOk(T(), me, proc[me].(state := Sleeping, chan := OnProc(me)));
      proc := proc[me := proc[me].(state := Sleeping, chan := OnProc(me))];
      return Sleeps;
    }

    method Reap(me: nat, i: nat) returns (pid: nat)
      requires T().Ok() && i < NPROC && proc[i].parent == me && proc[i].state == Zombie && !ZombieBelow(proc, me, i)
      modifies `proc, `reaped
      ensures T().Ok() && ReapedAt(old(T()), T(), me, i, pid)
    {
      ghost var h := T();
      pid := proc[i].pid;
      proc := proc[i := ReapedProc(proc[i])];
      reaped := reaped + [pid];
      ReapOk(h, T(), i);
    }

    /** The scan of the scheduler's inner loop from a slot on. */
    method FindRunnable(from: nat) returns (i: nat)
      requires T().Ok() && from <= NPROC
      ensures from <= i <= NPROC && (i < NPROC ==> proc[i].state == Runnable)
      ensures forall j :: from <= j < i ==> proc[j].state != Runnable
    {
      i := from;
      while i < NPROC && proc[i].state != Runnable
        invariant from <= i <= NPROC && forall j :: from <= j < i ==> proc[j].state != Runnable
      {
        i := i + 1;
      }
    }

    /** The scheduler starts a runnable process. */
    method Dispatch(i: nat)
      requires T().Ok() && i < NPROC && proc[i].state == Runnable
      modifies `proc
      ensures T().Ok() && proc == old(proc)[i := old(proc)[i].(state := Running)]
      ensures T() == TableStep(old(T()), i, Look)
    {
      StillAliveOk(T(), i, proc[i].(state := Running));
      proc := proc[i := proc[i].(state := Running)];
    }

    /** yield up to the switch to the scheduler. */
    method Yield(me: nat)
      requires T().Ok() && me < NPROC && proc[me].state == Running
      modifies `proc
      ensures T().Ok() && proc == old(proc)[me := old(proc)[me].(state := Runnable)]
      ensures T() == TableStep(old(T()), me, Yields)
    {
      StillAliveOk(T(), me, proc[me].(state := Runnable));
      proc := proc[me := proc[me].(state := Runnable)];
    }
  }
}
