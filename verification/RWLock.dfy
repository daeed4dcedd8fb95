/** The writer-preferring readers/writer spin lock of webget.cpp as a transition
    system: any number of threads, one access to a shared field per step,
    sequentially consistent, with compare-and-swaps that may fail spuriously. */
module RWLock {

  type Tid = nat

  datatype Owner = NoThread | Thread(id: Tid)

  /** The fields m_lockCount, m_writeWaitCount and m_write_thread_id. */
  datatype Shared = Shared(lockCount: int, waiting: int, owner: Owner)

  const WRITE_LOCK_STATUS := -1
  const FREE_STATUS := 0

  /** Where a thread stands; each constructor but Idle, Reading, Writing and Threw
      names the shared access that the thread performs next. */
  datatype Pc =
    | Idle
      // readLock
    | ReadId
    | ReadCount
    | ReadWait(count: int)
    | ReadCas(count: int)
    | Reading
      // readUnlock
    | UnreadId
    | Unread
      // writeLock
    | WriteId
    | WriteAnnounce
    | WriteCas
    | WriteRetract
    | WriteClaim
    | Writing(nested: nat)
      // reads nested inside a write of the same thread
    | NestedReadId(nested: nat)
    | NestedUnreadId(nested: nat)
      // writeUnlock
    | UnwriteId
    | UnwriteCount
    | UnwriteClear
    | UnwriteStore
    | Threw

  /** What the code leaves open at a step: which call an idle thread makes, whether
      a writer starts another nested read, and whether a weak CAS fails anyway. */
  datatype Choice = Choice(write: bool, nest: bool, spurious: bool)

  datatype Local = Local(shared: Shared, pc: Pc)

  /** One shared access of thread t, branch for branch as the four methods do it. */
  function Advance(s: Shared, t: Tid, pc: Pc, c: Choice): Local {
    match pc
    case Idle => Local(s, if c.write then WriteId else ReadId)
    case ReadId => Local(s, if s.owner != Thread(t) then ReadCount else Reading)
    case ReadCount => Local(s, if s.lockCount == WRITE_LOCK_STATUS then ReadCount else ReadWait(s.lockCount))
    case ReadWait(count) => Local(s, if s.waiting > 0 then ReadCount else ReadCas(count))
    case ReadCas(count) =>
      if s.lockCount == count && !c.spurious
      then Local(s.(lockCount := count + 1), Reading)
      else Local(s, ReadCount)
    case Reading => Local(s, UnreadId)
    case UnreadId => Local(s, if s.owner != Thread(t) then Unread else Idle)
    case Unread => Local(s.(lockCount := s.lockCount - 1), Idle)
    case WriteId => Local(s, if s.owner != Thread(t) then WriteAnnounce else Writing(0))
    case WriteAnnounce => Local(s.(waiting := s.waiting + 1), WriteCas)
    case WriteCas =>
      if s.lockCount == FREE_STATUS && !c.spurious
      then Local(s.(lockCount := WRITE_LOCK_STATUS), WriteRetract)
      else Local(s, WriteCas)
    case WriteRetract => Local(s.(waiting := s.waiting - 1), WriteClaim)
    case WriteClaim => Local(s.(owner := Thread(t)), Writing(0))
    case Writing(n) =>
      Local(s, if c.nest then NestedReadId(n) else if n > 0 then NestedUnreadId(n - 1) else UnwriteId)
    case NestedReadId(n) => Local(s, if s.owner != Thread(t) then ReadCount else Writing(n + 1))
    case NestedUnreadId(n) => Local(s, if s.owner != Thread(t) then Unread else Writing(n))
    case UnwriteId => Local(s, if s.owner != Thread(t) then Threw else UnwriteCount)
    case UnwriteCount => Local(s, if s.lockCount != WRITE_LOCK_STATUS then Threw else UnwriteClear)
    case UnwriteClear => Local(s.(owner := NoThread), UnwriteStore)
    case UnwriteStore => Local(s.(lockCount := FREE_STATUS), Idle)
    case Threw => Local(s, Threw)
  }

  datatype State = State(shared: Shared, pcs: seq<Pc>)

  datatype Turn = Turn(t: Tid, choice: Choice)

  function Init(n: nat): State {
    State(Shared(FREE_STATUS, 0, NoThread), seq(n, _ => Idle))
  }

  function Step(s: State, turn: Turn): State {
    if turn.t >= |s.pcs| then s else
    var r := Advance(s.shared, turn.t, s.pcs[turn.t], turn.choice);
    State(r.shared, s.pcs[turn.t := r.pc])
  }

  function Run(s: State, turns: seq<Turn>): State
    decreases |turns|
  {
    if turns == [] then s else Run(Step(s, turns[0]), turns[1..])
  }

  // ----- who holds what -----

  /** Between the winning reader CAS and the decrement. */
  predicate HoldsRead(pc: Pc) { pc.Reading? || pc.UnreadId? || pc.Unread? }

  /** m_write_thread_id names the thread. */
  predicate Claimed(pc: Pc) {
    pc.Writing? || pc.NestedReadId? || pc.NestedUnreadId? || pc.UnwriteId? || pc.UnwriteCount? || pc.UnwriteClear?
  }

  /** Between the winning writer CAS and the releasing store. */
  predicate HoldsWrite(pc: Pc) { pc.WriteRetract? || pc.WriteClaim? || Claimed(pc) || pc.UnwriteStore? }

  predicate Holds(pc: Pc) { HoldsRead(pc) || HoldsWrite(pc) }

  /** Between ++m_writeWaitCount and --m_writeWaitCount. */
  predicate Announced(pc: Pc) { pc.WriteCas? || pc.WriteRetract? }

  predicate AtReaderCas(pc: Pc) { pc.ReadCas? }

  /** Inside readLock or writeLock without holding anything yet. */
  predicate Waits(pc: Pc) {
    pc.ReadId? || pc.ReadCount? || pc.ReadWait? || pc.ReadCas? || pc.WriteId? || pc.WriteAnnounce? || pc.WriteCas?
  }

  function Count(pcs: seq<Pc>, p: Pc -> bool): nat {
    if pcs == [] then 0 else (if p(pcs[0]) then 1 else 0) + Count(pcs[1..], p)
  }

  lemma {:induction false} CountUpdate(pcs: seq<Pc>, i: nat, q: Pc, p: Pc -> bool)
    requires i < |pcs|
    ensures Count(pcs[i := q], p) == Count(pcs, p) - (if p(pcs[i]) then 1 else 0) + (if p(q) then 1 else 0)
  {
    if i == 0 {
      assert pcs[0 := q][1..] == pcs[1..];
    } else {
      assert pcs[i := q][1..] == pcs[1..][i - 1 := q];
      CountUpdate(pcs[1..], i - 1, q, p);
    }
  }

  lemma {:induction false} CountAtLeast(pcs: seq<Pc>, i: nat, p: Pc -> bool)
    requires i < |pcs| && p(pcs[i])
    ensures Count(pcs, p) >= 1
    ensures Count(pcs, p) == 1 ==> forall j | 0 <= j < |pcs| && j != i :: !p(pcs[j])
  {
    var rest := pcs[1..];
    if i == 0 {
      forall j | 0 <= j < |rest| && p(rest[j]) ensures Count(rest, p) >= 1 { CountAtLeast(rest, j, p); }
      assert forall j | 1 <= j < |pcs| :: pcs[j] == rest[j - 1];
    } else {
      CountAtLeast(rest, i - 1, p);
      assert forall j | 1 <= j < |pcs| :: pcs[j] == rest[j - 1];
    }
  }

  lemma {:induction false} CountSome(pcs: seq<Pc>, p: Pc -> bool) returns (i: nat)
    requires Count(pcs, p) > 0
    ensures i < |pcs| && p(pcs[i])
  {
    if p(pcs[0]) {
      i := 0;
    } else {
      i := CountSome(pcs[1..], p);
      i := i + 1;
    }
  }

  // ----- the invariant -----

  ghost predicate CountersOk(s: State) {
    var writers, readers := Count(s.pcs, HoldsWrite), Count(s.pcs, HoldsRead);
    && writers <= 1
    && (writers == 1 ==> readers == 0)
    && s.shared.lockCount == (if writers == 1 then WRITE_LOCK_STATUS else readers)
    && s.shared.waiting == Count(s.pcs, Announced)
  }

  ghost predicate OwnerOk(s: State) {
    && (forall t | 0 <= t < |s.pcs| :: Claimed(s.pcs[t]) <==> s.shared.owner == Thread(t))
    && (s.shared.owner.Thread? ==> s.shared.owner.id < |s.pcs|)
  }

  ghost predicate Inv(s: State) {
    && CountersOk(s)
    && OwnerOk(s)
    && forall t | 0 <= t < |s.pcs| :: PcOk(s.pcs[t])
  }

  predicate PcOk(pc: Pc) {
    && !pc.Threw?
    && (pc.ReadWait? || pc.ReadCas? ==> pc.count >= 0)
  }

  lemma {:induction false} CountIdle(n: nat, p: Pc -> bool)
    requires !p(Idle)
    ensures Count(seq(n, _ => Idle), p) == 0
  {
    if n > 0 {
      assert seq(n, _ => Idle)[1..] == seq(n - 1, _ => Idle);
      CountIdle(n - 1, p);
    }
  }

  lemma InitInv(n: nat)
    ensures Inv(Init(n))
  {
    CountIdle(n, HoldsWrite);
    CountIdle(n, HoldsRead);
    CountIdle(n, Announced);
  }

  function One(b: bool): nat { if b then 1 else 0 }

  /** The effect of one access on the counters, given how many threads hold what. */
  lemma AdvanceCounters(s: Shared, t: Tid, pc: Pc, c: Choice, writers: nat, readers: nat, announced: nat)
    requires PcOk(pc) && (Claimed(pc) <==> s.owner == Thread(t))
    requires One(HoldsWrite(pc)) <= writers <= 1 && One(HoldsRead(pc)) <= readers && One(Announced(pc)) <= announced
    requires writers == 1 ==> readers == 0
    requires s.lockCount == (if writers == 1 then WRITE_LOCK_STATUS else readers) && s.waiting == announced
    ensures var r := Advance(s, t, pc, c);
            var w := writers - One(HoldsWrite(pc)) + One(HoldsWrite(r.pc));
            var n := readers - One(HoldsRead(pc)) + One(HoldsRead(r.pc));
            && w <= 1 && (w == 1 ==> n == 0) && PcOk(r.pc)
            && r.shared.lockCount == (if w == 1 then WRITE_LOCK_STATUS else n)
            && r.shared.waiting == announced - One(Announced(pc)) + One(Announced(r.pc))
  {
  }

  lemma StepCounters(s: State, turn: Turn)
    requires Inv(s) && turn.t < |s.pcs|
    ensures CountersOk(Step(s, turn)) && PcOk(Step(s, turn).pcs[turn.t])
  {
    var t := turn.t;
    var pc := s.pcs[t];
    var q := Advance(s.shared, t, pc, turn.choice).pc;
    CountUpdate(s.pcs, t, q, HoldsWrite);
    CountUpdate(s.pcs, t, q, HoldsRead);
    CountUpdate(s.pcs, t, q, Announced);
    if HoldsWrite(pc) { CountAtLeast(s.pcs, t, HoldsWrite); }
    if HoldsRead(pc) { CountAtLeast(s.pcs, t, HoldsRead); }
    if Announced(pc) { CountAtLeast(s.pcs, t, Announced); }
    AdvanceCounters(s.shared, t, pc, turn.choice,
                    Count(s.pcs, HoldsWrite), Count(s.pcs, HoldsRead), Count(s.pcs, Announced));
  }

  lemma AdvanceOwner(s: Shared, t: Tid, pc: Pc, c: Choice)
    requires Claimed(pc) <==> s.owner == Thread(t)
    requires HoldsWrite(pc) ==> s.lockCount == WRITE_LOCK_STATUS
    ensures var r := Advance(s, t, pc, c);
            && (Claimed(r.pc) <==> r.shared.owner == Thread(t))
            && (r.shared.owner == s.owner || pc.WriteClaim? || (s.owner == Thread(t) && r.shared.owner == NoThread))
            && (pc.WriteClaim? ==> r.shared.owner == Thread(t))
  {
  }

  lemma StepOwner(s: State, turn: Turn)
    requires Inv(s) && turn.t < |s.pcs|
    ensures OwnerOk(Step(s, turn))
  {
    var t := turn.t;
    var pc := s.pcs[t];
    if HoldsWrite(pc) { CountAtLeast(s.pcs, t, HoldsWrite); }
    AdvanceOwner(s.shared, t, pc, turn.choice);
    var s' := Step(s, turn);
    forall j | 0 <= j < |s.pcs| ensures Claimed(s'.pcs[j]) <==> s'.shared.owner == Thread(j) {
      if j != t {
        assert Claimed(s.pcs[j]) ==> HoldsWrite(s.pcs[j]);
      }
    }
  }

  /** Every access of every thread keeps the invariant. */
  lemma StepInv(s: State, turn: Turn)
    requires Inv(s)
    ensures Inv(Step(s, turn))
  {
    if turn.t < |s.pcs| {
      StepCounters(s, turn);
      StepOwner(s, turn);
    }
  }

  lemma {:induction false} RunInv(s: State, turns: seq<Turn>)
    requires Inv(s)
    ensures Inv(Run(s, turns))
    decreases |turns|
  {
    if turns != [] {
      StepInv(s, turns[0]);
      RunInv(Step(s, turns[0]), turns[1..]);
    }
  }

  // ----- safety over whole runs -----

  /** In every interleaving: a writer excludes every other holder, the counters count
      exactly the holders and the announced writers, the owner field names only the
      actual owner, and writeUnlock never throws. */
  lemma Safety(n: nat, turns: seq<Turn>)
    ensures var s := Run(Init(n), turns);
            && (forall w, t | 0 <= w < |s.pcs| && 0 <= t < |s.pcs| && w != t && HoldsWrite(s.pcs[w]) :: !Holds(s.pcs[t]))
            && (s.shared.lockCount == WRITE_LOCK_STATUS <==> exists w | 0 <= w < |s.pcs| :: HoldsWrite(s.pcs[w]))
            && (s.shared.lockCount != WRITE_LOCK_STATUS ==> s.shared.lockCount == Count(s.pcs, HoldsRead))
            && s.shared.waiting == Count(s.pcs, Announced)
            && (forall t | 0 <= t < |s.pcs| :: (s.shared.owner == Thread(t) <==> Claimed(s.pcs[t])) && !s.pcs[t].Threw?)
  {
    InitInv(n);
    RunInv(Init(n), turns);
    Exclusion(Run(Init(n), turns));
  }

  lemma Exclusion(s: State)
    requires Inv(s)
    ensures forall w, t | 0 <= w < |s.pcs| && 0 <= t < |s.pcs| && w != t && HoldsWrite(s.pcs[w]) :: !Holds(s.pcs[t])
    ensures s.shared.lockCount == WRITE_LOCK_STATUS <==> exists w | 0 <= w < |s.pcs| :: HoldsWrite(s.pcs[w])
  {
    forall w, t | 0 <= w < |s.pcs| && 0 <= t < |s.pcs| && w != t && HoldsWrite(s.pcs[w])
      ensures !Holds(s.pcs[t])
    {
      CountAtLeast(s.pcs, w, HoldsWrite);
      if HoldsRead(s.pcs[t]) { CountAtLeast(s.pcs, t, HoldsRead); }
    }
    if w :| 0 <= w < |s.pcs| && HoldsWrite(s.pcs[w]) {
      CountAtLeast(s.pcs, w, HoldsWrite);
    }
    if Count(s.pcs, HoldsWrite) > 0 {
      var w := CountSome(s.pcs, HoldsWrite);
    }
  }

  // ----- bounded overtaking -----

  /** A writer is announced before and after each of the turns. */
  predicate WaitedThroughout(s: State, turns: seq<Turn>)
    decreases |turns|
  {
    s.shared.waiting > 0 && (turns == [] || WaitedThroughout(Step(s, turns[0]), turns[1..]))
  }

  predicate AdmitsReader(s: State, turn: Turn) {
    turn.t < |s.pcs| && s.pcs[turn.t].ReadCas? && HoldsRead(Step(s, turn).pcs[turn.t])
  }

  function ReadersAdmitted(s: State, turns: seq<Turn>): nat
    decreases |turns|
  {
    if turns == [] then 0 else
    (if AdmitsReader(s, turns[0]) then 1 else 0) + ReadersAdmitted(Step(s, turns[0]), turns[1..])
  }

  /** While some writer stays announced, at most the threads already at the reader CAS
      get in: admissions plus the threads still there never exceed that number. */
  lemma {:induction false} BoundedOvertaking(s: State, turns: seq<Turn>)
    requires WaitedThroughout(s, turns)
    ensures ReadersAdmitted(s, turns) + Count(Run(s, turns).pcs, AtReaderCas) <= Count(s.pcs, AtReaderCas)
    decreases |turns|
  {
    if turns != [] {
      var t := turns[0].t;
      if t < |s.pcs| {
        CountUpdate(s.pcs, t, Advance(s.shared, t, s.pcs[t], turns[0].choice).pc, AtReaderCas);
      }
      BoundedOvertaking(Step(s, turns[0]), turns[1..]);
    }
  }

  // ----- progress -----

  /** Steps a holder still takes until it is idle, opening no new nested reads. */
  function ToRelease(pc: Pc): nat {
    match pc
    case Reading => 3
    case UnreadId => 2
    case Unread => 1
    case WriteRetract => 7
    case WriteClaim => 6
    case Writing(n) => 5 + 2 * n
    case NestedReadId(n) => 8 + 2 * n
    case NestedUnreadId(n) => 6 + 2 * n
    case UnwriteId => 4
    case UnwriteCount => 3
    case UnwriteClear => 2
    case UnwriteStore => 1
    case _ => 0
  }

  function Effort(pcs: seq<Pc>): nat {
    if pcs == [] then 0 else ToRelease(pcs[0]) + Effort(pcs[1..])
  }

  lemma {:induction false} EffortUpdate(pcs: seq<Pc>, i: nat, q: Pc)
    requires i < |pcs|
    ensures Effort(pcs[i := q]) == Effort(pcs) - ToRelease(pcs[i]) + ToRelease(q)
  {
    if i == 0 {
      assert pcs[0 := q][1..] == pcs[1..];
    } else {
      assert pcs[i := q][1..] == pcs[1..][i - 1 := q];
      EffortUpdate(pcs[1..], i - 1, q);
    }
  }

  lemma {:induction false} RunAppend(s: State, xs: seq<Turn>, ys: seq<Turn>)
    ensures Run(s, xs + ys) == Run(Run(s, xs), ys)
    decreases |xs|
  {
    if xs == [] {
      assert xs + ys == ys;
    } else {
      assert (xs + ys)[0] == xs[0] && (xs + ys)[1..] == xs[1..] + ys;
      RunAppend(Step(s, xs[0]), xs[1..], ys);
    }
  }

  const GO := Choice(false, false, false)

  lemma HolderStep(s: State, h: Tid, write: bool := false)
    requires Inv(s) && h < |s.pcs| && Holds(s.pcs[h])
    ensures var q := Step(s, Turn(h, Choice(write, false, false))).pcs[h];
            ToRelease(q) < ToRelease(s.pcs[h]) && (Holds(q) || q == Idle)
  {
    var pc := s.pcs[h];
    assert PcOk(pc) && (Claimed(pc) <==> s.shared.owner == Thread(h));
    if HoldsWrite(pc) { CountAtLeast(s.pcs, h, HoldsWrite); }
  }

  // ----- readers share -----

  /** About to call readLock or inside it. */
  predicate InReadLock(pc: Pc) { pc.Idle? || pc.ReadId? || pc.ReadCount? || pc.ReadWait? || pc.ReadCas? }

  ghost predicate NoWriters(s: State) {
    s.shared.waiting == 0 && forall t | 0 <= t < |s.pcs| :: !HoldsWrite(s.pcs[t])
  }

  /** Steps a reader takes to get in. */
  function ToRead(pc: Pc, lockCount: int): nat {
    match pc
    case Idle => 5
    case ReadId => 4
    case ReadCount => 3
    case ReadWait(count) => if count == lockCount then 2 else 5
    case ReadCas(count) => if count == lockCount then 1 else 4
    case _ => 0
  }

  lemma ReaderStep(s: State, t: Tid)
    requires Inv(s) && NoWriters(s) && t < |s.pcs| && InReadLock(s.pcs[t])
    ensures var r := Step(s, Turn(t, GO)); var q := r.pcs[t];
            && Inv(r) && NoWriters(r) && r.pcs == s.pcs[t := q]
            && (q == Reading || (InReadLock(q) && ToRead(q, r.shared.lockCount) < ToRead(s.pcs[t], s.shared.lockCount)))
  {
    StepInv(s, Turn(t, GO));
    if Count(s.pcs, HoldsWrite) > 0 { var _ := CountSome(s.pcs, HoldsWrite); }
    assert !Claimed(s.pcs[t]);
  }

  /** However many readers are inside, one more gets in by its own turns alone and
      everybody else stays where he is, as long as no writer is inside or announced. */
  lemma {:induction false} JoinReaders(s: State, t: Tid) returns (turns: seq<Turn>)
    requires Inv(s) && NoWriters(s) && t < |s.pcs| && InReadLock(s.pcs[t])
    ensures forall k | 0 <= k < |turns| :: turns[k].t == t
    ensures var r := Run(s, turns); Inv(r) && NoWriters(r) && r.pcs == s.pcs[t := Reading]
    decreases ToRead(s.pcs[t], s.shared.lockCount)
  {
    hide Inv, NoWriters, Advance;
    var turn := Turn(t, GO);
    var s' := Step(s, turn);
    ReaderStep(s, t);
    turns := [turn];
    assert turns[1..] == [] && Run(s, turns) == Run(s', turns[1..]) == s';
    if s'.pcs[t] != Reading {
      var rest := JoinReaders(s', t);
      assert (turns + rest)[1..] == rest;
      turns := turns + rest;
    }
  }

  /** All threads can hold the lock for reading at the same time. */
  lemma {:induction false} AllReading(n: nat, k: nat) returns (turns: seq<Turn>)
    requires k <= n
    ensures var r := Run(Init(n), turns);
            && Inv(r) && NoWriters(r) && |r.pcs| == n
            && forall t | 0 <= t < n :: r.pcs[t] == if t < k then Reading else Idle
    decreases k
  {
    if k == 0 {
      turns := [];
      InitInv(n);
      CountIdle(n, Announced);
    } else {
      turns := AllReading(n, k - 1);
      var s := Run(Init(n), turns);
      hide Inv, NoWriters, Init;
      var more := JoinReaders(s, k - 1);
      RunAppend(Init(n), turns, more);
      turns := turns + more;
    }
  }

  // ----- every waiting thread can get in -----

  ghost predicate NoHolders(s: State) { forall t | 0 <= t < |s.pcs| :: !Holds(s.pcs[t]) }

  /** Letting only the holders run, every hold is released and nobody else moves. */
  lemma {:induction false} Drain(s: State) returns (turns: seq<Turn>)
    requires Inv(s)
    ensures var r := Run(s, turns);
            && Inv(r) && NoHolders(r)
            && |r.pcs| == |s.pcs|
            && (forall t | 0 <= t < |s.pcs| :: r.pcs[t] == if Holds(s.pcs[t]) then Idle else s.pcs[t])
    decreases Effort(s.pcs)
  {
    if h: nat :| h < |s.pcs| && Holds(s.pcs[h]) {
      var turn := Turn(h, GO);
      var s' := Step(s, turn);
      StepInv(s, turn);
      EffortUpdate(s.pcs, h, s'.pcs[h]);
      HolderStep(s, h);
      var rest := Drain(s');
      turns := [turn] + rest;
      assert turns[1..] == rest;
    } else {
      turns := [];
    }
  }

  lemma FreeLock(s: State)
    requires Inv(s) && NoHolders(s)
    ensures s.shared.lockCount == FREE_STATUS && s.shared.owner == NoThread
  {
    if Count(s.pcs, HoldsWrite) > 0 { var _ := CountSome(s.pcs, HoldsWrite); }
    if Count(s.pcs, HoldsRead) > 0 { var _ := CountSome(s.pcs, HoldsRead); }
  }

  /** With no hold, thread t gets the lock by running alone, unless it would wait for
      an announced writer. */
  lemma {:induction false} Acquire(s: State, t: Tid) returns (turns: seq<Turn>)
    requires Inv(s) && t < |s.pcs| && Waits(s.pcs[t])
    requires s.shared.lockCount == FREE_STATUS
    requires s.shared.owner == NoThread
    requires s.shared.waiting == 0 || s.pcs[t].WriteCas?
    ensures var r := Run(s, turns);
            Inv(r) && t < |r.pcs| && Holds(r.pcs[t]) && r.pcs == s.pcs[t := r.pcs[t]]
    decreases match s.pcs[t] case ReadId => 5 case ReadCas(c) => if c == 0 then 1 else 4 case ReadCount => 3
              case ReadWait(c) => if c == 0 then 2 else 5 case WriteId => 3 case WriteAnnounce => 2 case _ => 1
  {
    var turn := Turn(t, GO);
    var s' := Step(s, turn);
    StepInv(s, turn);
    if Holds(s'.pcs[t]) {
      turns := [turn];
      assert turns[1..] == [];
      assert Run(s, turns) == Run(s', turns[1..]) == s';
    } else {
      var rest := Acquire(s', t);
      turns := [turn] + rest;
      assert turns[1..] == rest;
    }
  }

  /** With no hold, the announced writers can run through one after the other, and
      nobody else moves. */
  lemma {:induction false} RunWriters(s: State) returns (turns: seq<Turn>)
    requires Inv(s) && NoHolders(s)
    ensures var r := Run(s, turns);
            && Inv(r) && NoHolders(r) && r.shared.waiting == 0
            && |r.pcs| == |s.pcs|
            && (forall t | 0 <= t < |s.pcs| :: r.pcs[t] == if s.pcs[t].WriteCas? then Idle else s.pcs[t])
    decreases Count(s.pcs, Announced)
  {
    if Count(s.pcs, Announced) == 0 {
      turns := [];
      forall t | 0 <= t < |s.pcs| ensures !s.pcs[t].WriteCas? {
        if s.pcs[t].WriteCas? { CountAtLeast(s.pcs, t, Announced); }
      }
    } else {
      var w := CountSome(s.pcs, Announced);
      FreeLock(s);
      assert s.pcs[w].WriteCas?;
      hide Run, Step, Advance;
      var enter := Acquire(s, w);
      var inside := Run(s, enter);
      var leave := Drain(inside);
      var after := Run(inside, leave);
      assert after.pcs == s.pcs[w := Idle];
      CountUpdate(s.pcs, w, Idle, Announced);
      var rest := RunWriters(after);
      RunAppend(s, enter, leave);
      RunAppend(s, enter + leave, rest);
      turns := enter + leave + rest;
    }
  }

  /** From every state that satisfies the invariant, each waiting thread can get in. */
  lemma LetIn(s: State, t: Tid) returns (turns: seq<Turn>)
    requires Inv(s) && t < |s.pcs| && Waits(s.pcs[t])
    ensures var r := Run(s, turns); t < |r.pcs| && Holds(r.pcs[t])
  {
    assert !Holds(s.pcs[t]);
    hide Inv, NoHolders, Holds, Run, Step, Advance;
    turns := Drain(s);
    var free := Run(s, turns);
    if !s.pcs[t].WriteCas? {
      var writers := RunWriters(free);
      RunAppend(s, turns, writers);
      turns := turns + writers;
      free := Run(s, turns);
    }
    FreeLock(free);
    var acquire := Acquire(free, t);
    RunAppend(s, turns, acquire);
    turns := turns + acquire;
  }

  /** No reachable state blocks anyone for good: whenever a thread waits in readLock or
      writeLock, whatever the others do, some continuation lets that very thread in. */
  lemma Progress(n: nat, before: seq<Turn>, waiter: Tid) returns (after: seq<Turn>)
    requires waiter < |Run(Init(n), before).pcs| && Waits(Run(Init(n), before).pcs[waiter])
    ensures var r := Run(Init(n), before + after); waiter < |r.pcs| && Holds(r.pcs[waiter])
  {
    InitInv(n);
    RunInv(Init(n), before);
    after := LetIn(Run(Init(n), before), waiter);
    RunAppend(Init(n), before, after);
  }

  // ----- reads inside a write -----

  /** A reader call inside the thread's own write returns at once and touches nothing, and
      so does its end. */
  lemma NestedRead(s: State, t: Tid, n: nat)
    requires Inv(s) && t < |s.pcs| && s.pcs[t] == Writing(n)
    ensures Run(s, [Turn(t, Choice(false, true, false)), Turn(t, GO)]) == State(s.shared, s.pcs[t := Writing(n + 1)])
    ensures n > 0 ==> Run(s, [Turn(t, GO), Turn(t, GO)]) == State(s.shared, s.pcs[t := Writing(n - 1)])
  {
    var read := Turn(t, Choice(false, true, false));
    assert Claimed(s.pcs[t]);
    assert Step(s, read) == State(s.shared, s.pcs[t := NestedReadId(n)]);
    assert s.pcs[t := NestedReadId(n)][t := Writing(n + 1)] == s.pcs[t := Writing(n + 1)];
    if n > 0 {
      assert Step(s, Turn(t, GO)) == State(s.shared, s.pcs[t := NestedUnreadId(n - 1)]);
      assert s.pcs[t := NestedUnreadId(n - 1)][t := Writing(n - 1)] == s.pcs[t := Writing(n - 1)];
    }
    hide Inv;
    TwoSteps(s, read, Turn(t, GO));
    TwoSteps(s, Turn(t, GO), Turn(t, GO));
  }

  lemma TwoSteps(s: State, a: Turn, b: Turn)
    ensures Run(s, [a, b]) == Step(Step(s, a), b)
  {
    assert [a, b][1..] == [b] && [b][1..] == [];
    assert Run(Step(s, a), [b]) == Run(Step(Step(s, a), b), []);
  }
}
