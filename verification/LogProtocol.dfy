/** The on-disk protocol of the redo log (log.c) as a machine whose every step is at most one
disk write, so that a crash can fall between any two writes.

The log occupies sectors [start, start + size): a header sector followed by one slot per logged
block.  Sectors outside that range are home sectors. */
module LogProtocol {
  import opened Blocks

  const LOGSIZE: nat := 10

  type Disk = seq<Block>

  datatype Geometry = Geometry(start: nat, size: nat, disksize: nat) {
    predicate Wf() {
      1 <= size && start + size <= disksize
    }

    predicate Home(s: int) {
      0 <= s < disksize && !(start <= s < start + size)
    }

    /** The sector of log slot i. */
    function Slot(i: int): int {
      start + 1 + i
    }
  }

  // ----- The header sector -----

  /** What read_head extracts from the header block: the first n recorded sector numbers. */
  function Header(b: Block): seq<Word>
  {
    var n := GetWord(b, 0);
    seq(if n < WORDS then n else WORDS - 1, i requires 0 <= i < WORDS - 1 => GetWord(b, 1 + i))
  }

  /** What write_head leaves in the header block: n, then the first k sector numbers. */
  function StoreSectors(b: Block, lh: seq<Word>, k: nat): Block
    requires k <= |lh| < WORDS
  {
    if k == 0 then SetWord(b, 0, |lh|)
    else SetWord(StoreSectors(b, lh, k - 1), k, lh[k - 1])
  }

  lemma {:induction false} StoreSectorsWords(b: Block, lh: seq<Word>, k: nat, i: nat)
    requires k <= |lh| < WORDS && i <= k
    ensures GetWord(StoreSectors(b, lh, k), i) == if i == 0 then |lh| else lh[i - 1]
  {
    if k == 0 {
      WordRoundTrip(b, 0, |lh|, 0);
    } else {
      WordRoundTrip(StoreSectors(b, lh, k - 1), k, lh[k - 1], i);
      if i < k {
        StoreSectorsWords(b, lh, k - 1, i);
      }
    }
  }

  /** The header is a count and as many sector numbers; a count past the end of the block is cut off. */
  lemma HeaderWords(b: Block, i: nat)
    ensures |Header(b)| == if GetWord(b, 0) < 128 then GetWord(b, 0) else 127
    ensures i < |Header(b)| ==> Header(b)[i] == GetWord(b, 1 + i)
  {
  }

  /** Reading the header back gives exactly the sectors written, whatever the block held before. */
  lemma HeaderRoundTrip(b: Block, lh: seq<Word>)
    requires |lh| < WORDS
    ensures Header(StoreSectors(b, lh, |lh|)) == lh
  {
    forall i: nat | i <= |lh| ensures GetWord(StoreSectors(b, lh, |lh|), i) == if i == 0 then |lh| else lh[i - 1] {
      StoreSectorsWords(b, lh, |lh|, i);
    }
  }

  // ----- Transactions, and what they do to the disk when nothing ever fails -----

  datatype Write = Write(sector: Word, data: Block)

  type Tx = seq<Write>

  function Apply(d: Disk, tx: Tx): (r: Disk)
    ensures |r| == |d|
  {
    if tx == [] then d
    else
      var w := tx[|tx| - 1];
      var e := Apply(d, tx[..|tx| - 1]);
      if w.sector < |e| then e[w.sector := w.data] else e
  }

  function ApplyAll(d: Disk, txs: seq<Tx>): (r: Disk)
    ensures |r| == |d|
  {
    if txs == [] then d else Apply(ApplyAll(d, txs[..|txs| - 1]), txs[|txs| - 1])
  }

  /** The distinct sectors a transaction logs. */
  ghost function Sectors(tx: Tx): set<int> {
    set k: nat | k < |tx| :: tx[k].sector as int
  }

  /** The transactions that log anything: an empty one writes no header. */
  function NonEmpty(txs: seq<Tx>): seq<Tx> {
    if txs == [] then []
    else NonEmpty(txs[..|txs| - 1]) + if txs[|txs| - 1] == [] then [] else [txs[|txs| - 1]]
  }

  /** A transaction that the log has room for, of home sectors only. */
  ghost predicate Fitting(g: Geometry, tx: Tx) {
    |Sectors(tx)| <= 7 && LOGSIZE <= g.size && forall k :: 0 <= k < |tx| ==> g.Home(tx[k].sector)
  }

  // ----- The machine -----

  /** Memory contents that a crash destroys.  `tail` is the loop counter of install_trans. */
  datatype Memory =
    | Down
    | Up(lh: seq<Word>, busy: bool)
    | Installing(lh: seq<Word>, tail: nat)

  datatype State = State(disk: Disk, mem: Memory)

  datatype Step =
    | Begin                   // begin_trans
    | LogWrite(w: Write)      // log_write: one slot written
    | WriteHead               // commit_trans: the header written
    | InstallOne              // install_trans: one home sector written
    | Erase                   // the header cleared
    | CommitEmpty             // commit_trans with nothing logged
    | Crash
    | ReadHead                // recover_from_log after a reboot

  predicate Distinct(s: seq<Word>) {
    forall i, j :: 0 <= i < j < |s| ==> s[i] != s[j]
  }

  function IndexOf(s: seq<Word>, x: Word): (i: nat)
    ensures i <= |s|
    ensures x in s <==> i < |s|
    ensures i < |s| ==> s[i] == x
    ensures x !in s[..i]
  {
    if s == [] then 0
    else if s[0] == x then 0
    else
      var k := IndexOf(s[1..], x);
      assert s == [s[0]] + s[1..];
      assert s[..k + 1] == [s[0]] + s[1..][..k];
      k + 1
  }

  /** The in-memory header after log_write: an already logged sector is absorbed. */
  function Absorb(lh: seq<Word>, s: Word): seq<Word> {
    if s in lh then lh else lh + [s]
  }

  predicate Fits(g: Geometry, lh: seq<Word>) {
    |lh| <= LOGSIZE && |lh| < g.size && forall i :: 0 <= i < |lh| ==> g.Home(lh[i])
  }

  predicate Enabled(g: Geometry, s: State, ev: Step)
    requires g.Wf() && |s.disk| == g.disksize
  {
    match ev
    case Begin => s.mem.Up? && !s.mem.busy
    case LogWrite(w) => s.mem.Up? && s.mem.busy && |s.mem.lh| < LOGSIZE && |s.mem.lh| < g.size - 1 && g.Home(w.sector)
    case WriteHead => s.mem.Up? && s.mem.busy && 0 < |s.mem.lh| && Fits(g, s.mem.lh)
    case InstallOne => s.mem.Installing? && s.mem.tail < |s.mem.lh| && Fits(g, s.mem.lh)
    case Erase => s.mem.Installing? && s.mem.tail == |s.mem.lh|
    case CommitEmpty => s.mem.Up? && s.mem.busy && s.mem.lh == []
    case Crash => true
    case ReadHead => s.mem.Down?
  }

  function Next(g: Geometry, s: State, ev: Step): (t: State)
    requires g.Wf() && |s.disk| == g.disksize && Enabled(g, s, ev)
    ensures |t.disk| == g.disksize
  {
    match ev
    case Begin => s.(mem := Up(s.mem.lh, true))
    case LogWrite(w) =>
      State(s.disk[g.Slot(IndexOf(s.mem.lh, w.sector)) := w.data], Up(Absorb(s.mem.lh, w.sector), true))
    case WriteHead =>
      State(s.disk[g.start := StoreSectors(s.disk[g.start], s.mem.lh, |s.mem.lh|)], Installing(s.mem.lh, 0))
    case InstallOne =>
      State(s.disk[s.mem.lh[s.mem.tail] := s.disk[g.Slot(s.mem.tail)]], Installing(s.mem.lh, s.mem.tail + 1))
    case Erase => State(s.disk[g.start := StoreSectors(s.disk[g.start], [], 0)], Up([], false))
    case CommitEmpty => s.(mem := Up([], false))
    case Crash => s.(mem := Down)
    case ReadHead => s.(mem := Installing(Header(s.disk[g.start]), 0))
  }

  datatype Outcome = Stuck | Ran(state: State)

  /** The state the steps of `trace` lead to from `s`, if each was enabled when taken. */
  function Run(g: Geometry, s: State, trace: seq<Step>): (r: Outcome)
    requires g.Wf() && |s.disk| == g.disksize
    ensures r.Ran? ==> |r.state.disk| == g.disksize
  {
    if trace == [] then Ran(s)
    else
      var ev := trace[|trace| - 1];
      match Run(g, s, trace[..|trace| - 1])
      case Stuck => Stuck
      case Ran(m) => if Enabled(g, m, ev) then Ran(Next(g, m, ev)) else Stuck
  }

  /** The transactions of a trace whose header write happened, in order, and the writes of the one
  still open.  A crash throws the open one away. */
  function Committed(trace: seq<Step>): (seq<Tx>, Tx)
  {
    if trace == [] then ([], [])
    else
      var (done, open) := Committed(trace[..|trace| - 1]);
      match trace[|trace| - 1]
      case LogWrite(w) => (done, open + [w])
      case WriteHead => (done + [open], [])
      case Crash => (done, [])
      case _ => (done, open)
  }

  // ----- Recovery -----

  /** The disk after install_trans has copied the first k slots home. */
  function Install(g: Geometry, d: Disk, lh: seq<Word>, k: nat): (r: Disk)
    requires g.Wf() && |d| == g.disksize && Fits(g, lh) && k <= |lh|
    ensures |r| == |d|
  {
    if k == 0 then d else Install(g, d, lh, k - 1)[lh[k - 1] := d[g.Slot(k - 1)]]
  }

  /** The disk after recover_from_log has run to completion. */
  function Recover(g: Geometry, d: Disk): (r: Disk)
    requires g.Wf() && |d| == g.disksize && Fits(g, Header(d[g.start]))
    ensures |r| == |d|
  {
    var lh := Header(d[g.start]);
    var e := Install(g, d, lh, |lh|);
    e[g.start := StoreSectors(e[g.start], [], 0)]
  }

  ghost predicate SameHome(g: Geometry, d: Disk, e: Disk)
    requires |d| == |e| == g.disksize
  {
    forall s :: g.Home(s) ==> d[s] == e[s]
  }

  lemma {:induction false} InstallFrame(g: Geometry, d: Disk, lh: seq<Word>, k: nat)
    requires g.Wf() && |d| == g.disksize && Fits(g, lh) && k <= |lh|
    ensures forall s :: 0 <= s < g.disksize && s !in lh[..k] ==> Install(g, d, lh, k)[s] == d[s]
  {
    if k > 0 {
      InstallFrame(g, d, lh, k - 1);
      assert lh[..k] == lh[..k - 1] + [lh[k - 1]];
    }
  }

  /** Installing depends on the slots and on the home sectors that are not overwritten, so it does
  not matter how many slots an earlier, interrupted attempt had already copied. */
  lemma {:induction false} InstallDetermined(g: Geometry, d: Disk, e: Disk, lh: seq<Word>, k: nat)
    requires g.Wf() && |d| == |e| == g.disksize && Fits(g, lh) && k <= |lh|
    requires forall i :: 0 <= i < |lh| ==> d[g.Slot(i)] == e[g.Slot(i)]
    ensures forall s :: g.Home(s) && (s in lh[..k] || d[s] == e[s]) ==>
      Install(g, d, lh, k)[s] == Install(g, e, lh, k)[s]
  {
    if k > 0 {
      InstallDetermined(g, d, e, lh, k - 1);
      assert lh[..k] == lh[..k - 1] + [lh[k - 1]];
      assert d[g.Slot(k - 1)] == e[g.Slot(k - 1)];
    }
  }

  // ----- The invariant -----

  /** Every home sector except those whose slots from `tail` on are still to be copied is final. */
  ghost predicate Installed(g: Geometry, d: Disk, h: Disk, lh: seq<Word>, tail: nat)
    requires |d| == |h| == g.disksize && tail <= |lh|
  {
    forall t :: g.Home(t) && t !in lh[tail..] ==> d[t] == h[t]
  }

  /** Slot i holds what disk `a` has in the i-th logged sector. */
  ghost predicate SlotsHold(g: Geometry, d: Disk, a: Disk, lh: seq<Word>)
    requires g.Wf() && |d| == |a| == g.disksize && Fits(g, lh)
  {
    forall i {:trigger g.Slot(i)} :: 0 <= i < |lh| ==> d[g.Slot(i)] == a[lh[i]]
  }

  /** The open transaction: its sectors are exactly those in the in-memory header, each once
  despite absorption, and each slot holds what the transaction last wrote there. */
  ghost predicate OpenInv(g: Geometry, d: Disk, h: Disk, open: Tx, lh: seq<Word>, busy: bool)
    requires g.Wf() && |d| == |h| == g.disksize
  {
    && Fits(g, lh)
    && Distinct(lh)
    && (!busy ==> lh == [])
    && (lh == [] ==> open == [])
    && (forall i :: 0 <= i < |open| ==> open[i].sector in lh)
    && (forall t :: g.Home(t) && t !in lh ==> Apply(h, open)[t] == h[t])
    && SlotsHold(g, d, Apply(h, open), lh)
  }

  /** `h` is the disk that the committed transactions have produced; `open` the writes so far of
  the transaction in progress. */
  ghost predicate Inv(g: Geometry, s: State, h: Disk, open: Tx)
    requires g.Wf()
  {
    && |s.disk| == |h| == g.disksize
    && Fits(g, Header(s.disk[g.start]))
    && match s.mem
       case Down => open == [] && SameHome(g, Recover(g, s.disk), h)
       case Up(lh, busy) =>
         && Header(s.disk[g.start]) == []
         && SameHome(g, s.disk, h)
         && OpenInv(g, s.disk, h, open, lh, busy)
       case Installing(lh, tail) =>
         && open == []
         && Header(s.disk[g.start]) == lh
         && tail <= |lh|
         && SameHome(g, Recover(g, s.disk), h)
         && Installed(g, s.disk, h, lh, tail)
  }

  lemma ApplyLast(h: Disk, open: Tx, w: Write)
    requires w.sector < |h|
    ensures Apply(h, open + [w]) == Apply(h, open)[w.sector := w.data]
  {
    assert (open + [w])[..|open|] == open;
  }

  lemma SlotWritten(g: Geometry, d: Disk, a: Disk, lh: seq<Word>, w: Write, i: nat)
    requires g.Wf() && |d| == |a| == g.disksize && Fits(g, lh) && SlotsHold(g, d, a, lh) && Distinct(lh)
    requires |lh| < LOGSIZE && |lh| < g.size - 1 && g.Home(w.sector)
    requires i <= |lh| && (if i < |lh| then lh[i] == w.sector else w.sector !in lh)
    ensures
      var lh' := if i < |lh| then lh else lh + [w.sector];
      Fits(g, lh') && Distinct(lh') && SlotsHold(g, d[g.Slot(i) := w.data], a[w.sector := w.data], lh')
  {
    if i < |lh| {
      assert forall j :: 0 <= j < |lh| && j != i ==> lh[j] != w.sector;
    }
  }

  lemma LogWriteKeepsOpen(g: Geometry, d: Disk, h: Disk, open: Tx, lh: seq<Word>, w: Write)
    requires g.Wf() && |d| == |h| == g.disksize && OpenInv(g, d, h, open, lh, true)
    requires |lh| < LOGSIZE && |lh| < g.size - 1 && g.Home(w.sector)
    ensures OpenInv(g, d[g.Slot(IndexOf(lh, w.sector)) := w.data], h, open + [w], Absorb(lh, w.sector), true)
  {
    ApplyLast(h, open, w);
    SlotWritten(g, d, Apply(h, open), lh, w, IndexOf(lh, w.sector));
  }

  lemma LogWriteKeepsInv(g: Geometry, s: State, h: Disk, open: Tx, w: Write)
    requires g.Wf() && Inv(g, s, h, open) && Enabled(g, s, LogWrite(w))
    ensures Inv(g, Next(g, s, LogWrite(w)), h, open + [w])
  {
    LogWriteKeepsOpen(g, s.disk, h, open, s.mem.lh, w);
    assert Next(g, s, LogWrite(w)).disk[g.start] == s.disk[g.start];
  }

  lemma RecoverIsInstall(g: Geometry, d: Disk, lh: seq<Word>)
    requires g.Wf() && |d| == g.disksize && Fits(g, lh) && Header(d[g.start]) == lh
    ensures SameHome(g, Recover(g, d), Install(g, d, lh, |lh|))
  {
  }

  lemma {:induction false} InstalledIsApplied(g: Geometry, d: Disk, h: Disk, lh: seq<Word>, k: nat)
    requires g.Wf() && |d| == |h| == g.disksize && Fits(g, lh) && k <= |lh|
    requires SlotsHold(g, d, h, lh)
    requires forall t :: g.Home(t) && t !in lh ==> d[t] == h[t]
    ensures forall t :: g.Home(t) && t !in lh[k..] ==> Install(g, d, lh, k)[t] == h[t]
  {
    if k == 0 {
      assert lh[0..] == lh;
    } else {
      InstalledIsApplied(g, d, h, lh, k - 1);
      assert lh[k - 1..] == [lh[k - 1]] + lh[k..];
      assert d[g.Slot(k - 1)] == h[lh[k - 1]];
    }
  }

  /** Once slots and header are on disk, recovery yields the committed disk. */
  lemma WriteHeadKeepsInv(g: Geometry, s: State, h: Disk, open: Tx)
    requires g.Wf() && Inv(g, s, h, open) && Enabled(g, s, WriteHead)
    ensures Inv(g, Next(g, s, WriteHead), Apply(h, open), [])
  {
    var lh := s.mem.lh;
    var t := Next(g, s, WriteHead);
    HeaderRoundTrip(s.disk[g.start], lh);
    InstalledIsApplied(g, t.disk, Apply(h, open), lh, |lh|);
    RecoverIsInstall(g, t.disk, lh);
  }

  /** Slot i ends up in its home sector unless a later slot has the same home. */
  lemma {:induction false} InstalledSlot(g: Geometry, d: Disk, lh: seq<Word>, i: nat, k: nat)
    requires g.Wf() && |d| == g.disksize && Fits(g, lh) && i < k <= |lh|
    requires forall j :: i < j < k ==> lh[j] != lh[i]
    ensures Install(g, d, lh, k)[lh[i]] == d[g.Slot(i)]
  {
    if k > i + 1 {
      InstalledSlot(g, d, lh, i, k - 1);
    }
  }

  /** Copying one more slot home changes nothing that recovery would produce. */
  lemma InstallOneKeepsRecovery(g: Geometry, s: State, h: Disk)
    requires g.Wf() && Inv(g, s, h, []) && Enabled(g, s, InstallOne)
    ensures
      var t := Next(g, s, InstallOne);
      && t.disk[g.start] == s.disk[g.start]
      && SameHome(g, Recover(g, t.disk), h)
  {
    var lh := s.mem.lh;
    var t := Next(g, s, InstallOne);
    InstallDetermined(g, s.disk, t.disk, lh, |lh|);
    assert lh[..|lh|] == lh;
    RecoverIsInstall(g, s.disk, lh);
    RecoverIsInstall(g, t.disk, lh);
  }

  lemma InstallOneKeepsInstalled(g: Geometry, d: Disk, h: Disk, lh: seq<Word>, tail: nat)
    requires g.Wf() && |d| == |h| == g.disksize && Fits(g, lh) && tail < |lh|
    requires Installed(g, d, h, lh, tail) && SameHome(g, Install(g, d, lh, |lh|), h)
    ensures Installed(g, d[lh[tail] := d[g.Slot(tail)]], h, lh, tail + 1)
  {
    assert lh[tail..] == [lh[tail]] + lh[tail + 1..];
    if lh[tail] !in lh[tail + 1..] {
      forall j | tail < j < |lh| ensures lh[j] != lh[tail] {
        assert lh[j] == lh[tail + 1..][j - tail - 1];
      }
      InstalledSlot(g, d, lh, tail, |lh|);
    }
  }

  lemma InstallOneKeepsInv(g: Geometry, s: State, h: Disk)
    requires g.Wf() && Inv(g, s, h, []) && Enabled(g, s, InstallOne)
    ensures Inv(g, Next(g, s, InstallOne), h, [])
  {
    InstallOneKeepsRecovery(g, s, h);
    RecoverIsInstall(g, s.disk, s.mem.lh);
    InstallOneKeepsInstalled(g, s.disk, h, s.mem.lh, s.mem.tail);
  }

  lemma EraseKeepsInv(g: Geometry, s: State, h: Disk)
    requires g.Wf() && Inv(g, s, h, []) && Enabled(g, s, Erase)
    ensures Inv(g, Next(g, s, Erase), h, [])
  {
    HeaderRoundTrip(s.disk[g.start], []);
  }

  lemma CrashKeepsInv(g: Geometry, s: State, h: Disk, open: Tx)
    requires g.Wf() && Inv(g, s, h, open)
    ensures Inv(g, Next(g, s, Crash), h, [])
  {
    if s.mem.Up? {
      RecoverIsInstall(g, s.disk, []);
    }
  }

  lemma ReadHeadKeepsInv(g: Geometry, s: State, h: Disk)
    requires g.Wf() && Inv(g, s, h, []) && Enabled(g, s, ReadHead)
    ensures Inv(g, Next(g, s, ReadHead), h, [])
  {
    var lh := Header(s.disk[g.start]);
    assert lh[0..] == lh;
    InstallFrame(g, s.disk, lh, |lh|);
    assert lh[..|lh|] == lh;
    RecoverIsInstall(g, s.disk, lh);
  }

  /** What a step does to the committed disk and to the open transaction. */
  ghost function History(h: Disk, open: Tx, ev: Step): (Disk, Tx) {
    match ev
    case LogWrite(w) => (h, open + [w])
    case WriteHead => (Apply(h, open), [])
    case Crash => (h, [])
    case _ => (h, open)
  }

  lemma StepKeepsInv(g: Geometry, s: State, h: Disk, open: Tx, ev: Step)
    requires g.Wf() && Inv(g, s, h, open) && Enabled(g, s, ev)
    ensures Inv(g, Next(g, s, ev), History(h, open, ev).0, History(h, open, ev).1)
  {
    match ev {
      case Begin =>
      case LogWrite(w) => LogWriteKeepsInv(g, s, h, open, w);
      case WriteHead => WriteHeadKeepsInv(g, s, h, open);
      case InstallOne => InstallOneKeepsInv(g, s, h);
      case Erase => EraseKeepsInv(g, s, h);
      case CommitEmpty =>
      case Crash => CrashKeepsInv(g, s, h, open);
      case ReadHead => ReadHeadKeepsInv(g, s, h);
    }
  }

  lemma {:induction false} RunKeepsInv(g: Geometry, d0: Disk, trace: seq<Step>)
    requires g.Wf() && |d0| == g.disksize && Fits(g, Header(d0[g.start]))
    requires Run(g, State(d0, Down), trace).Ran?
    ensures Inv(g, Run(g, State(d0, Down), trace).state, ApplyAll(Recover(g, d0), Committed(trace).0), Committed(trace).1)
  {
    if trace != [] {
      var pre, ev := trace[..|trace| - 1], trace[|trace| - 1];
      RunKeepsInv(g, d0, pre);
      var m := Run(g, State(d0, Down), pre).state;
      var (done, open) := Committed(pre);
      StepKeepsInv(g, m, ApplyAll(Recover(g, d0), done), open, ev);
      if ev.WriteHead? {
        assert (done + [open])[..|done|] == done;
      }
    }
  }

  /** Crash atomicity.  Start from any disk whose header is well formed and take any run of
  transactions, crashes and recoveries, with crashes after any disk write, inside recovery too.
  Recovering the disk then reached gives, in every home sector, exactly the initial (recovered)
  disk with the transactions applied whose header write reached the disk, in commit order. */
  lemma CrashAtomicity(g: Geometry, d0: Disk, trace: seq<Step>)
    requires g.Wf() && |d0| == g.disksize && Fits(g, Header(d0[g.start]))
    requires Run(g, State(d0, Down), trace).Ran?
    ensures
      var d := Run(g, State(d0, Down), trace).state.disk;
      Fits(g, Header(d[g.start])) && SameHome(g, Recover(g, d), ApplyAll(Recover(g, d0), Committed(trace).0))
  {
    RunKeepsInv(g, d0, trace);
    var s := Run(g, State(d0, Down), trace).state;
    CrashKeepsInv(g, s, ApplyAll(Recover(g, d0), Committed(trace).0), Committed(trace).1);
  }
}
