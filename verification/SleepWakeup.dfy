/** sleep and wakeup as a step machine over any number of processes, channels and locks.  Every
process on some processor may take the next step at any time; a step is what happens between two
points where another process could intervene. */
module SleepWakeup {
  datatype Lock = Ptable | Other(id: nat)

  /** A channel, with the lock under which the condition its sleepers wait for may change. */
  datatype Chan = Chan(id: nat, lk: Lock)

  /** Where a process is in sleep or wakeup. */
  datatype Pc =
    | Run                                // in the caller
    | Want(c: Chan)                      // in sleep, before it takes the process table lock
    | Hold(c: Chan)                      // holds both locks
    | Let(c: Chan)                       // has let go of the condition's lock
    | Asleep(c: Chan)                    // SLEEPING on the channel
    | Woken(c: Chan)                     // RUNNABLE again
    | Back(c: Chan)                      // running again, with the process table lock
    | Relock(c: Chan)                    // about to take the condition's lock back
    | Scan(c: Chan, k: nat, keep: bool)  // in wakeup1, at slot k; wakeup lets the lock go at the end

  /** The scheduler as the holder of the process table lock. */
  const SCHED := -1

  /** ready: the channels whose condition holds; owes: the wakeups a process still has to do. */
  datatype State = State(pc: seq<Pc>, holder: map<Lock, int>, ready: set<Chan>, owes: seq<set<Chan>>) {
    ghost predicate Wf() {
      |pc| == |owes|
    }

    predicate Holds(p: nat, l: Lock) {
      l in holder && holder[l] == p
    }
  }

  datatype Step =
    | Acquire(p: nat, l: Lock)
    | Release(p: nat, l: Lock)
    | Change(p: nat, c: Chan, on: bool)
    | CallSleep(p: nat, c: Chan)
    | TakePtable(p: nat)
    | LetGo(p: nat)
    | Switch(p: nat)
    | Dispatch(p: nat)
    | Tidy(p: nat)
    | TakeBack(p: nat)
    | CallWakeup(p: nat, c: Chan)
    | ScanOne(p: nat)
    | ScanDone(p: nat)
    | Kill(p: nat, q: nat)
    | SchedAcquire
    | SchedRelease

  predicate Enabled(s: State, x: Step)
    requires s.Wf()
  {
    (x.SchedAcquire? || x.SchedRelease? || x.p < |s.pc|) &&
    match x
    case Acquire(p, l) => s.pc[p] == Run && l !in s.holder
    case Release(p, l) => s.pc[p] == Run && s.Holds(p, l)
    case Change(p, c, _) => s.pc[p] == Run && s.Holds(p, c.lk)
    case CallSleep(p, c) => s.pc[p] == Run && s.Holds(p, c.lk) && c !in s.ready
    case TakePtable(p) => s.pc[p].Want? && Ptable !in s.holder
    case LetGo(p) => s.pc[p].Hold?
    case Switch(p) => s.pc[p].Let?
    case Dispatch(p) => s.pc[p].Woken? && Ptable in s.holder && s.holder[Ptable] == SCHED
    case Tidy(p) => s.pc[p].Back?
    case TakeBack(p) => s.pc[p].Relock? && s.pc[p].c.lk !in s.holder
    case CallWakeup(p, c) => s.pc[p] == Run && (Ptable !in s.holder || s.Holds(p, Ptable))
    case ScanOne(p) => s.pc[p].Scan? && s.pc[p].k < |s.pc|
    case ScanDone(p) => s.pc[p].Scan? && s.pc[p].k == |s.pc|
    case Kill(p, q) => s.pc[p] == Run && s.Holds(p, Ptable) && q < |s.pc| && s.pc[q].Asleep?
    case SchedAcquire => Ptable !in s.holder
    case SchedRelease => Ptable in s.holder && s.holder[Ptable] == SCHED
  }

  function Next(s: State, x: Step): (r: State)
    requires s.Wf() && Enabled(s, x)
    ensures r.Wf() && |r.pc| == |s.pc|
  {
    match x
    case Acquire(p, l) => s.(holder := s.holder[l := p])
    case Release(p, l) => s.(holder := s.holder - {l})
    // The condition is made true only together with the duty to call wakeup.
    case Change(p, c, on) =>
      if on then s.(ready := s.ready + {c}, owes := s.owes[p := s.owes[p] + {c}]) else s.(ready := s.ready - {c})
    case CallSleep(p, c) => s.(pc := s.pc[p := if c.lk == Ptable then Let(c) else Want(c)])
    case TakePtable(p) => s.(pc := s.pc[p := Hold(s.pc[p].c)], holder := s.holder[Ptable := p])
    case LetGo(p) => s.(pc := s.pc[p := Let(s.pc[p].c)], holder := s.holder - {s.pc[p].c.lk})
    case Switch(p) => s.(pc := s.pc[p := Asleep(s.pc[p].c)], holder := s.holder[Ptable := SCHED])
    case Dispatch(p) => s.(pc := s.pc[p := Back(s.pc[p].c)], holder := s.holder[Ptable := p])
    case Tidy(p) =>
      if s.pc[p].c.lk == Ptable then s.(pc := s.pc[p := Run])
      else s.(pc := s.pc[p := Relock(s.pc[p].c)], holder := s.holder - {Ptable})
    case TakeBack(p) => s.(pc := s.pc[p := Run], holder := s.holder[s.pc[p].c.lk := p])
    case CallWakeup(p, c) =>
      s.(pc := s.pc[p := Scan(c, 0, Ptable in s.holder)], holder := s.holder[Ptable := p], owes := s.owes[p := s.owes[p] - {c}])
    case ScanOne(p) =>
      var k := s.pc[p].k;
      var pc := s.pc[p := Scan(s.pc[p].c, k + 1, s.pc[p].keep)];
      s.(pc := if s.pc[k] == Asleep(s.pc[p].c) then pc[k := Woken(s.pc[p].c)] else pc)
    case ScanDone(p) =>
      s.(pc := s.pc[p := Run], holder := if s.pc[p].keep then s.holder else s.holder - {Ptable})
    case Kill(p, q) => s.(pc := s.pc[q := Woken(s.pc[q].c)])
    case SchedAcquire => s.(holder := s.holder[Ptable := SCHED])
    case SchedRelease => s.(holder := s.holder - {Ptable})
  }

  // ----- The invariant -----

  /** Some process has made c's condition true and not yet called wakeup. */
  ghost predicate Owed(s: State, c: Chan) {
    exists q :: 0 <= q < |s.owes| && c in s.owes[q]
  }

  predicate ScansTo(pc: Pc, c: Chan, p: nat) {
    pc.Scan? && pc.c == c && pc.k <= p
  }

  /** Some wakeup of c is on its way to slot p. */
  ghost predicate Coming(s: State, c: Chan, p: nat) {
    exists q :: 0 <= q < |s.pc| && ScansTo(s.pc[q], c, p)
  }

  /** Process p has released the condition's lock, unless that is the process table lock itself. */
  predicate Released(s: State, p: nat, c: Chan) {
    c.lk != Ptable ==> !s.Holds(p, c.lk)
  }

  /** What process p relies on. */
  ghost predicate Good(s: State, p: nat)
    requires p < |s.pc|
  {
    match s.pc[p]
    case Run => true
    case Want(c) => c.lk != Ptable && s.Holds(p, c.lk) && c !in s.ready
    case Hold(c) => c.lk != Ptable && s.Holds(p, c.lk) && c !in s.ready && s.Holds(p, Ptable)
    case Let(c) => s.Holds(p, Ptable) && Released(s, p, c) && (c in s.ready ==> Owed(s, c))
    case Asleep(c) => !s.Holds(p, Ptable) && Released(s, p, c) && (c in s.ready ==> Owed(s, c) || Coming(s, c, p))
    case Woken(c) => !s.Holds(p, Ptable) && Released(s, p, c)
    case Back(c) => s.Holds(p, Ptable) && Released(s, p, c)
    case Relock(c) => c.lk != Ptable && !s.Holds(p, Ptable) && Released(s, p, c)
    case Scan(_, k, _) => s.Holds(p, Ptable) && k <= |s.pc|
  }

  ghost predicate Inv(s: State) {
    s.Wf() && forall p :: 0 <= p < |s.pc| ==> Good(s, p)
  }

  /** A wakeup that is owed or coming for a sleeper stays so, or reaches it. */
  lemma StepKeepsPromise(s: State, x: Step, c: Chan, p: nat)
    requires Inv(s) && Enabled(s, x) && p < |s.pc| && s.pc[p] == Asleep(c) == Next(s, x).pc[p] && c in s.ready
    ensures Owed(Next(s, x), c) || Coming(Next(s, x), c, p)
  {
    var r := Next(s, x);
    assert Good(s, p);
    if Owed(s, c) {
      var q :| 0 <= q < |s.owes| && c in s.owes[q];
      assert c in r.owes[q] || ScansTo(r.pc[q], c, p);
    } else {
      var q :| 0 <= q < |s.pc| && ScansTo(s.pc[q], c, p);
      assert ScansTo(r.pc[q], c, p);
    }
  }

  /** While p holds the process table lock no wakeup can start, so an owed one stays owed. */
  lemma StepKeepsOwed(s: State, x: Step, c: Chan, p: nat)
    requires Inv(s) && Enabled(s, x) && p < |s.pc| && s.pc[p] == Let(c) == Next(s, x).pc[p] && c in s.ready
    ensures Owed(Next(s, x), c)
  {
    assert Good(s, p);
    var q :| 0 <= q < |s.owes| && c in s.owes[q];
    assert c in Next(s, x).owes[q];
  }

  lemma StepKeepsLocks(s: State, x: Step, p: nat, l: Lock)
    requires Inv(s) && Enabled(s, x) && p < |s.pc| && s.Holds(p, l) && Next(s, x).pc[p] == s.pc[p] != Run
    ensures Next(s, x).Holds(p, l)
  {
    if x.ScanDone? || x.LetGo? || x.Switch? || x.Tidy? {
      assert Good(s, x.p);
    }
  }

  lemma StepKeepsGood(s: State, x: Step, p: nat)
    requires Inv(s) && Enabled(s, x) && p < |s.pc| && Next(s, x).pc[p] == s.pc[p]
    ensures Good(Next(s, x), p)
  {
    var r := Next(s, x);
    assert Good(s, p);
    match s.pc[p] {
      case Run =>
      case Want(c) =>
        StepKeepsLocks(s, x, p, c.lk);
      case Hold(c) =>
        StepKeepsLocks(s, x, p, c.lk);
        StepKeepsLocks(s, x, p, Ptable);
      case Let(c) =>
        StepKeepsLocks(s, x, p, Ptable);
        if c in r.ready {
          if c in s.ready {
            StepKeepsOwed(s, x, c, p);
          } else {
            assert c in r.owes[x.p];
          }
        }
      case Asleep(c) =>
        if c in r.ready {
          if c in s.ready {
            StepKeepsPromise(s, x, c, p);
          } else {
            assert c in r.owes[x.p];
          }
        }
      case Woken(_) =>
      case Back(_) =>
        StepKeepsLocks(s, x, p, Ptable);
      case Relock(_) =>
      case Scan(_, _, _) =>
        StepKeepsLocks(s, x, p, Ptable);
    }
  }

  lemma StepMovesGood(s: State, x: Step, p: nat)
    requires Inv(s) && Enabled(s, x) && p < |s.pc| && Next(s, x).pc[p] != s.pc[p]
    ensures Good(Next(s, x), p)
  {
    var r := Next(s, x);
    assert Good(s, p);
    if x.Switch? && s.pc[p].c in s.ready {
      var q :| 0 <= q < |s.owes| && s.pc[p].c in s.owes[q];
      assert s.pc[p].c in r.owes[q];
    }
  }

  lemma StepKeepsInv(s: State, x: Step)
    requires Inv(s) && Enabled(s, x)
    ensures Inv(Next(s, x))
  {
    var r := Next(s, x);
    forall p | 0 <= p < |r.pc| ensures Good(r, p) {
      if r.pc[p] == s.pc[p] {
        StepKeepsGood(s, x, p);
      } else {
        StepMovesGood(s, x, p);
      }
    }
  }

  // ----- Runs -----

  datatype Outcome = Stuck | Ran(s: State)

  function Execute(s: State, xs: seq<Step>): (o: Outcome)
    requires s.Wf()
    ensures o.Ran? ==> o.s.Wf() && |o.s.pc| == |s.pc|
    decreases |xs|
  {
    if xs == [] then Ran(s)
    else if !Enabled(s, xs[0]) then Stuck
    else Execute(Next(s, xs[0]), xs[1..])
  }

  lemma {:induction false} RunKeepsInv(s: State, xs: seq<Step>)
    requires Inv(s) && Execute(s, xs).Ran?
    ensures Inv(Execute(s, xs).s)
    decreases |xs|
  {
    if xs != [] {
      StepKeepsInv(s, xs[0]);
      RunKeepsInv(Next(s, xs[0]), xs[1..]);
    }
  }

  /** All n processes outside sleep and wakeup, with no lock held and no wakeup owed. */
  ghost predicate Initial(s: State) {
    s.Wf() && s.holder == map[] && forall p :: 0 <= p < |s.pc| ==> s.pc[p] == Run && s.owes[p] == {}
  }

  lemma InitialInv(s: State)
    requires Initial(s)
    ensures Inv(s)
  {
    forall q | 0 <= q < |s.pc| ensures Good(s, q) {
    }
  }

  /** No wakeup is lost: in every reachable state of any number of processes, if a process is asleep on
  a channel whose condition is true, some process still owes that channel a wakeup or is in the
  middle of one that has not passed the sleeper yet. */
  lemma NoLostWakeup(s: State, xs: seq<Step>, p: nat)
    requires Initial(s) && Execute(s, xs).Ran?
    ensures
      var r := Execute(s, xs).s;
      p < |r.pc| && r.pc[p].Asleep? && r.pc[p].c in r.ready ==> Owed(r, r.pc[p].c) || Coming(r, r.pc[p].c, p)
  {
    InitialInv(s);
    RunKeepsInv(s, xs);
    var r := Execute(s, xs).s;
    if p < |r.pc| {
      assert Good(r, p);
    }
  }

  /** Once every wakeup has been done, only processes whose condition is false are asleep. */
  lemma QuietMeansNotReady(s: State, xs: seq<Step>, p: nat)
    requires Initial(s) && Execute(s, xs).Ran?
    requires var r := Execute(s, xs).s; forall q :: 0 <= q < |r.pc| ==> r.owes[q] == {} && !r.pc[q].Scan?
    ensures var r := Execute(s, xs).s; p < |r.pc| && r.pc[p].Asleep? ==> r.pc[p].c !in r.ready
  {
    NoLostWakeup(s, xs, p);
  }

  // ----- The condition's lock -----

  /** In every reachable state a process between letting go of the condition's lock and taking it back does
  not hold it, so that another process can change the condition meanwhile. */
  lemma LockIsFreeWhileAsleep(s: State, xs: seq<Step>, p: nat, c: Chan)
    requires Initial(s) && Execute(s, xs).Ran? && c.lk != Ptable
    ensures
      var r := Execute(s, xs).s;
      p < |r.pc| && r.pc[p] in {Let(c), Asleep(c), Woken(c), Back(c), Relock(c)} ==> !r.Holds(p, c.lk)
  {
    InitialInv(s);
    RunKeepsInv(s, xs);
    var r := Execute(s, xs).s;
    if p < |r.pc| {
      assert Good(r, p);
    }
  }

  /** sleep returns with the condition's lock, and with the process table lock just if that is the one. */
  lemma SleepReturnsLocked(s: State, xs: seq<Step>, x: Step, p: nat)
    requires Initial(s) && Execute(s, xs).Ran? && Enabled(Execute(s, xs).s, x)
    ensures
      var r := Execute(s, xs).s;
      p < |r.pc| && (r.pc[p].Back? || r.pc[p].Relock?) && Next(r, x).pc[p] == Run ==>
        var c := r.pc[p].c;
        Next(r, x).Holds(p, c.lk) && (Next(r, x).Holds(p, Ptable) <==> c.lk == Ptable)
  {
    InitialInv(s);
    RunKeepsInv(s, xs);
    var r := Execute(s, xs).s;
    if p < |r.pc| {
      assert Good(r, p);
    }
  }

  /** A sleeper leaves its sleep only when a wakeup of its channel reaches its slot or it is killed. */
  lemma WokenBy(s: State, x: Step, p: nat, c: Chan)
    requires Inv(s) && Enabled(s, x) && p < |s.pc| && s.pc[p] == Asleep(c) != Next(s, x).pc[p]
    ensures Next(s, x).pc[p] == Woken(c)
    ensures (x.ScanOne? && s.pc[x.p].c == c && s.pc[x.p].k == p) || (x.Kill? && x.q == p)
  {
  }

  // ----- A sleeper can be woken and return -----

  function Repeat(x: Step, n: nat): (xs: seq<Step>)
    ensures |xs| == n && forall k :: 0 <= k < n ==> xs[k] == x
  {
    if n == 0 then [] else [x] + Repeat(x, n - 1)
  }

  lemma {:induction false} ExecuteJoin(s: State, xs: seq<Step>, ys: seq<Step>)
    requires s.Wf() && Execute(s, xs).Ran?
    ensures Execute(s, xs + ys) == Execute(Execute(s, xs).s, ys)
    decreases |xs|
  {
    if xs == [] {
      assert xs + ys == ys;
    } else {
      assert (xs + ys)[1..] == xs[1..] + ys;
      ExecuteJoin(Next(s, xs[0]), xs[1..], ys);
    }
  }

  /** s after q's scan has come to slot n: the sleepers on c it has passed are awake. */
  ghost predicate Scanned(s: State, r: State, q: nat, c: Chan, k: nat, n: nat, keep: bool) {
    && s.Wf() && q < |s.pc| && r == s.(pc := r.pc) && |r.pc| == |s.pc| && k <= n <= |s.pc| && r.pc[q] == Scan(c, n, keep)
    && forall j :: 0 <= j < |s.pc| && j != q ==>
      r.pc[j] == if k <= j < n && s.pc[j] == Asleep(c) then Woken(c) else s.pc[j]
  }

  /** wakeup1, undisturbed, wakes exactly the sleepers on its channel. */
  lemma {:induction false} ScanWakes(s: State, q: nat, c: Chan, k: nat, n: nat, keep: bool)
    requires s.Wf() && q < |s.pc| && s.pc[q] == Scan(c, k, keep) && k <= n <= |s.pc|
    ensures var o := Execute(s, Repeat(ScanOne(q), n - k)); o.Ran? && Scanned(s, o.s, q, c, k, n, keep)
    decreases n - k
  {
    if k < n {
      var m := Next(s, ScanOne(q));
      assert Repeat(ScanOne(q), n - k)[1..] == Repeat(ScanOne(q), n - k - 1);
      ScanWakes(m, q, c, k + 1, n, keep);
    }
  }

  /** q takes the condition's lock, makes the condition true and calls wakeup. */
  function Signal(q: nat, c: Chan, n: nat): seq<Step> {
    [Acquire(q, c.lk), Change(q, c, true), CallWakeup(q, c)] + Repeat(ScanOne(q), n)
  }

  lemma SignalStarts(s: State, q: nat, c: Chan)
    requires s.Wf() && q < |s.pc| && s.pc[q] == Run && c.lk !in s.holder && Ptable !in s.holder
    ensures var o := Execute(s, [Acquire(q, c.lk), Change(q, c, true), CallWakeup(q, c)]);
      && o.Ran? && o.s.pc == s.pc[q := Scan(c, 0, c.lk == Ptable)] && o.s.ready == s.ready + {c}
      && o.s.holder == s.holder[c.lk := q][Ptable := q]
  {
    var s1 := Next(s, Acquire(q, c.lk));
    var s2 := Next(s1, Change(q, c, true));
    var s3 := Next(s2, CallWakeup(q, c));
    var xs := [Acquire(q, c.lk), Change(q, c, true), CallWakeup(q, c)];
    assert xs[1..] == [Change(q, c, true), CallWakeup(q, c)] && xs[1..][1..] == [CallWakeup(q, c)];
    assert [CallWakeup(q, c)][1..] == [];
    assert Execute(s3, []) == Ran(s3);
    assert Execute(s2, [CallWakeup(q, c)]) == Ran(s3);
    assert Execute(s1, xs[1..]) == Ran(s3);
  }

  /** In any state, reachable or not, in which p sleeps on c and both locks are free, another process that
  runs can make the condition true and wake p. */
  lemma SleeperCanBeWoken(s: State, p: nat, q: nat, c: Chan)
    requires s.Wf() && p < |s.pc| && q < |s.pc| && s.pc[p] == Asleep(c) && s.pc[q] == Run
    requires c.lk !in s.holder && Ptable !in s.holder
    ensures var o := Execute(s, Signal(q, c, p + 1)); o.Ran? && o.s.pc[p] == Woken(c) && c in o.s.ready
  {
    hide Execute, Next, Enabled, Repeat;
    var xs := [Acquire(q, c.lk), Change(q, c, true), CallWakeup(q, c)];
    SignalStarts(s, q, c);
    var m := Execute(s, xs).s;
    ScanWakes(m, q, c, 0, p + 1, c.lk == Ptable);
    ExecuteJoin(s, xs, Repeat(ScanOne(q), p + 1));
  }

  /** The end of wakeup and of q's critical section, and p's way back. */
  function Return(p: nat, q: nat, c: Chan): seq<Step> {
    [ScanDone(q), Release(q, c.lk), SchedAcquire, Dispatch(p), Tidy(p)] + if c.lk == Ptable then [] else [TakeBack(p)]
  }

  lemma ExecuteFirst(s: State, x: Step, xs: seq<Step>)
    requires s.Wf() && Enabled(s, x)
    ensures Execute(s, [x] + xs) == Execute(Next(s, x), xs)
  {
    assert ([x] + xs)[1..] == xs;
  }

  /** The waker is done and the scheduler runs p: p is back with the process table lock. */
  lemma WokenIsBack(s: State, p: nat, q: nat, c: Chan, xs: seq<Step>) returns (r: State)
    requires s.Wf() && p < |s.pc| && q < |s.pc| && p != q && s.pc[p] == Woken(c)
    requires s.pc[q] == Scan(c, |s.pc|, c.lk == Ptable) && s.Holds(q, Ptable) && s.Holds(q, c.lk)
    ensures r.Wf() && |r.pc| == |s.pc| && r.pc[p] == Back(c) && r.Holds(p, Ptable) && r.ready == s.ready
    ensures c.lk != Ptable ==> c.lk !in r.holder
    ensures Execute(s, [ScanDone(q)] + ([Release(q, c.lk)] + ([SchedAcquire] + ([Dispatch(p)] + xs)))) == Execute(r, xs)
  {
    hide Execute;
    var s1 := Next(s, ScanDone(q));
    var s2 := Next(s1, Release(q, c.lk));
    var s3 := Next(s2, SchedAcquire);
    r := Next(s3, Dispatch(p));
    ExecuteFirst(s3, Dispatch(p), xs);
    ExecuteFirst(s2, SchedAcquire, [Dispatch(p)] + xs);
    ExecuteFirst(s1, Release(q, c.lk), [SchedAcquire] + ([Dispatch(p)] + xs));
    ExecuteFirst(s, ScanDone(q), [Release(q, c.lk)] + ([SchedAcquire] + ([Dispatch(p)] + xs)));
  }

  /** p tidies up and takes the condition's lock back. */
  lemma BackReturns(s: State, p: nat, c: Chan)
    requires s.Wf() && p < |s.pc| && s.pc[p] == Back(c) && s.Holds(p, Ptable) && (c.lk != Ptable ==> c.lk !in s.holder)
    ensures var o := Execute(s, [Tidy(p)] + if c.lk == Ptable then [] else [TakeBack(p)]);
      o.Ran? && o.s.pc[p] == Run && o.s.Holds(p, c.lk) && o.s.ready == s.ready
  {
    var s1 := Next(s, Tidy(p));
    if c.lk == Ptable {
      ExecuteFirst(s, Tidy(p), []);
    } else {
      ExecuteFirst(s, Tidy(p), [TakeBack(p)]);
      ExecuteFirst(s1, TakeBack(p), []);
      assert [TakeBack(p)] + [] == [TakeBack(p)];
    }
  }

  lemma WokenReturns(s: State, p: nat, q: nat, c: Chan)
    requires s.Wf() && p < |s.pc| && q < |s.pc| && p != q && s.pc[p] == Woken(c)
    requires s.pc[q] == Scan(c, |s.pc|, c.lk == Ptable) && s.Holds(q, Ptable) && s.Holds(q, c.lk)
    ensures var o := Execute(s, Return(p, q, c)); o.Ran? && o.s.pc[p] == Run && o.s.Holds(p, c.lk) && o.s.ready == s.ready
  {
    hide Execute, Next, Enabled;
    var xs := [Tidy(p)] + if c.lk == Ptable then [] else [TakeBack(p)];
    var r := WokenIsBack(s, p, q, c, xs);
    BackReturns(r, p, c);
    assert Return(p, q, c) == [ScanDone(q)] + ([Release(q, c.lk)] + ([SchedAcquire] + ([Dispatch(p)] + xs)));
  }

  /** And p can then return from sleep, holding the condition's lock, with the condition true. */
  lemma SleeperCanReturn(s: State, p: nat, q: nat, c: Chan)
    requires s.Wf() && p < |s.pc| && q < |s.pc| && s.pc[p] == Asleep(c) && s.pc[q] == Run
    requires c.lk !in s.holder && Ptable !in s.holder
    ensures var o := Execute(s, Signal(q, c, |s.pc|) + Return(p, q, c));
      o.Ran? && o.s.pc[p] == Run && o.s.Holds(p, c.lk) && c in o.s.ready
  {
    hide Execute, Next, Enabled, Return, Repeat;
    var xs := [Acquire(q, c.lk), Change(q, c, true), CallWakeup(q, c)];
    SignalStarts(s, q, c);
    var m := Execute(s, xs).s;
    ScanWakes(m, q, c, 0, |s.pc|, c.lk == Ptable);
    ExecuteJoin(s, xs, Repeat(ScanOne(q), |s.pc|));
    var r := Execute(s, Signal(q, c, |s.pc|)).s;
    WokenReturns(r, p, q, c);
    ExecuteJoin(s, Signal(q, c, |s.pc|), Return(p, q, c));
  }
}
