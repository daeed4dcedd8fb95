/** webGet with its TTL cache and flushCache (webget.cpp), run by any number of
    threads over the lock of module RWLock. A file is written and read byte by byte,
    and stat happens outside the lock; transfers, the clock and the schedule are open. */
module DownloadCache {
  import opened Common
  import opened RWLock

  type Path = string

  datatype File = File(body: string, mtime: nat)

  /** The path of a URL's cache file, and global.serveCacheOnFetchFail. */
  datatype Config = Config(path: string -> Path, serveOnFail: bool)

  datatype Reading = Unopened | Opened(size: nat, content: string) | Full(content: string)

  datatype Saving = Unwritten | Truncated(written: nat) | Complete

  /** What a thread does; the constructor names its next step outside the lock calls. */
  datatype Job =
    | Ready
    | Stat(url: string, ttl: nat)
    | Fetch(url: string, ttl: nat)
    | Probe(url: string, via: Via)
    | Read(url: string, via: Via, reading: Reading)
    | Save(url: string, via: Via, body: string, saving: Saving)
    | Flush(flushing: Flushing)
    | Answer(reply: Reply)

  /** Before the lock, with the files still to be removed, and after the last one. */
  datatype Flushing = Waiting | Removing(left: set<Path>) | Done

  /** What a call of webGet has seen: a passed TTL test with the mtime it read and the time
      it was made, or the outcome of its transfer. */
  datatype Via = CacheHit(ttl: nat, mtime: nat, tested: nat) | Fetched(ttl: nat, ok: bool, status: int, body: string)

  /** A result of webGet. */
  datatype Reply = Reply(url: string, content: string, via: Via)

  datatype Write = Write(url: string, body: string, time: nat)

  /** The shared world, with a history of completed 200 transfers and finished writes. */
  datatype World = World(
    files: map<Path, File>,
    now: nat,
    lock: State,
    jobs: seq<Job>,
    completed: set<(string, string)>,
    writes: set<Write>,
    replies: set<Reply>)

  datatype Call = WebGet(url: string, ttl: nat) | FlushCache

  /** Everything the environment decides at a step. */
  datatype Oracle = Oracle(
    call: Call,
    ok: bool, status: int, body: string,  // outcome of a transfer
    victim: Path,                         // what flushCache removes next
    spurious: bool)

  datatype Event = Tick | Go(t: Tid, oracle: Oracle)

  function InitWorld(n: nat): World {
    World(map[], 0, Init(n), seq(n, _ => Ready), {}, {}, {})
  }

  function Become(w: World, t: Tid, job: Job): World
    requires t < |w.jobs|
  {
    w.(jobs := w.jobs[t := job])
  }

  function LockStep(w: World, t: Tid, write: bool, spurious: bool): World {
    w.(lock := Step(w.lock, Turn(t, Choice(write, false, spurious))))
  }

  /** One step of thread t. */
  function Act(cfg: Config, w: World, t: Tid, o: Oracle): World
    requires t < |w.jobs| == |w.lock.pcs|
  {
    match w.jobs[t]
    case Ready =>
      Become(w, t, match o.call
                   case WebGet(url, ttl) => if ttl > 0 then Stat(url, ttl) else Fetch(url, ttl)
                   case FlushCache => Flush(Waiting))
    case Stat(url, ttl) =>
      var p := cfg.path(url);
      Become(w, t, if p in w.files && w.now - w.files[p].mtime <= ttl
                   then Read(url, CacheHit(ttl, w.files[p].mtime, w.now), Unopened)
                   else Fetch(url, ttl))
    case Fetch(url, ttl) =>
      var done := o.ok && o.status == 200;
      var content, via := if done then o.body else "", Fetched(ttl, o.ok, o.status, o.body);
      var next := if ttl == 0 then Answer(Reply(url, content, via))
                  else if o.status == 200 then Save(url, via, content, Unwritten)
                  else Probe(url, via);
      Become(w.(completed := if done then w.completed + {(url, o.body)} else w.completed), t, next)
    case Probe(url, via) =>
      Become(w, t, if cfg.path(url) in w.files && cfg.serveOnFail
                   then Read(url, via, Unopened)
                   else Answer(Reply(url, "", via)))
    case Read(url, via, reading) => ActRead(cfg, w, t, o, url, via, reading)
    case Save(url, via, body, saving) => ActSave(cfg, w, t, o, url, via, body, saving)
    case Flush(flushing) => ActFlush(w, t, o, flushing)
    case Answer(reply) => Become(w.(replies := w.replies + {reply}), t, Ready)
  }

  /** fileGet between readLock and readUnlock: take the size, then byte by byte. */
  function ActRead(cfg: Config, w: World, t: Tid, o: Oracle, url: string, via: Via, reading: Reading): World
    requires t < |w.jobs| == |w.lock.pcs|
  {
    var p := cfg.path(url);
    match reading
    case Unopened =>
      if !w.lock.pcs[t].Reading? then LockStep(w, t, false, o.spurious)
      else Become(w, t, Read(url, via, if p in w.files then Opened(|w.files[p].body|, "") else Full("")))
    case Opened(size, content) =>
      var k := |content|;
      Become(w, t, Read(url, via,
        if k >= size then Full(content)
        else Opened(size, content + [if p in w.files && k < |w.files[p].body| then w.files[p].body[k] else '\0'])))
    case Full(content) =>
      if w.lock.pcs[t].Idle? then Become(w, t, Answer(Reply(url, content, via)))
      else LockStep(w, t, false, o.spurious)
  }

  /** fileWrite between writeLock and writeUnlock: truncate, then byte by byte. */
  function ActSave(cfg: Config, w: World, t: Tid, o: Oracle, url: string, via: Via, body: string, saving: Saving): World
    requires t < |w.jobs| == |w.lock.pcs|
  {
    var p := cfg.path(url);
    match saving
    case Unwritten =>
      if !w.lock.pcs[t].Writing? then LockStep(w, t, true, o.spurious)
      else Become(w.(files := w.files[p := File("", w.now)]), t, Save(url, via, body, Truncated(0)))
    case Truncated(k) =>
      var prefix := if p in w.files then w.files[p].body else "";
      var time := if p in w.files then w.files[p].mtime else w.now;
      if k < |body|
      then Become(w.(files := w.files[p := File(prefix + [body[k]], w.now)]), t, Save(url, via, body, Truncated(k + 1)))
      else Become(w.(writes := w.writes + {Write(url, prefix, time)}), t, Save(url, via, body, Complete))
    case Complete =>
      if w.lock.pcs[t].Idle? then Become(w, t, Answer(Reply(url, body, via)))
      else LockStep(w, t, true, o.spurious)
  }

  /** operateFiles between writeLock and writeUnlock: every file there is is removed. */
  function ActFlush(w: World, t: Tid, o: Oracle, flushing: Flushing): World
    requires t < |w.jobs| == |w.lock.pcs|
  {
    match flushing
    case Waiting =>
      if !w.lock.pcs[t].Writing? then LockStep(w, t, true, o.spurious)
      else Become(w, t, Flush(Removing(w.files.Keys)))
    case Removing(left) =>
      if left == {} then Become(w, t, Flush(Done))
      else if o.victim in left
      then Become(w.(files := w.files - {o.victim}), t, Flush(Removing(left - {o.victim})))
      else w
    case Done =>
      if w.lock.pcs[t].Idle? then Become(w, t, Ready)
      else LockStep(w, t, true, o.spurious)
  }

  function Next(cfg: Config, w: World, e: Event): World {
    match e
    case Tick => w.(now := w.now + 1)
    case Go(t, o) => if t < |w.jobs| == |w.lock.pcs| then Act(cfg, w, t, o) else w
  }

  function Play(cfg: Config, w: World, events: seq<Event>): World
    decreases |events|
  {
    if events == [] then w else Play(cfg, Next(cfg, w, events[0]), events[1..])
  }

  // ----- the invariant -----

  ghost predicate Injective(path: string -> Path) {
    forall u, v :: path(u) == path(v) ==> u == v
  }

  ghost predicate Genuine(w: World, url: string, content: string) {
    content == "" || (url, content) in w.completed
  }

  predicate Passed(via: Via) {
    via.CacheHit? ==> 0 < via.ttl && via.mtime <= via.tested <= via.mtime + via.ttl
  }

  /** The content is empty or a finished write of this URL, no older than the mtime of a
      test that was passed. */
  ghost predicate Served(w: World, url: string, content: string, via: Via) {
    Passed(via) && (content == "" || exists time: nat ::
      Write(url, content, time) in w.writes && (via.CacheHit? ==> via.mtime <= time))
  }

  /** The content is what the call has seen: after a transfer with status 200 its body, or
      nothing if it broke off; after any other transfer nothing, or a finished write if a
      cache is asked for and may be served; without a transfer a finished write. */
  ghost predicate Honest(cfg: Config, w: World, r: Reply) {
    match r.via
    case CacheHit(_, _, _) => Served(w, r.url, r.content, r.via)
    case Fetched(ttl, ok, status, body) =>
      if status == 200
      then r.content == (if ok then body else "") && (ok ==> (r.url, body) in w.completed)
      else r.content == "" || (ttl > 0 && cfg.serveOnFail && Served(w, r.url, r.content, r.via))
  }

  /** A cache that is read after a transfer is read because the transfer failed. */
  predicate MayRead(cfg: Config, via: Via) {
    via.Fetched? ==> via.status != 200 && via.ttl > 0 && cfg.serveOnFail
  }

  ghost predicate Settled(cfg: Config, w: World, url: string) {
    var p := cfg.path(url);
    p in w.files ==> w.files[p].body == "" || Write(url, w.files[p].body, w.files[p].mtime) in w.writes
  }

  predicate WritesFile(job: Job) { job.Save? && job.saving.Truncated? }

  /** Where in the lock each phase of a job can be. */
  predicate Placed(job: Job, pc: Pc) {
    match job
    case Read(_, _, Unopened) => pc.Idle? || (Waits(pc) && !Announced(pc) && !pc.WriteId? && !pc.WriteAnnounce?) || pc.Reading?
    case Read(_, _, Opened(_, _)) => pc.Reading?
    case Read(_, _, Full(_)) => HoldsRead(pc) || pc.Idle?
    case Save(_, _, _, Unwritten) => ToWrite(pc)
    case Save(_, _, _, Truncated(_)) => pc == Writing(0)
    case Save(_, _, _, Complete) => FromWrite(pc)
    case Flush(Waiting) => ToWrite(pc)
    case Flush(Removing(_)) => pc == Writing(0)
    case Flush(Done) => FromWrite(pc)
    case _ => pc.Idle?
  }

  predicate ToWrite(pc: Pc) {
    pc.Idle? || pc.WriteId? || pc.WriteAnnounce? || pc.WriteCas? || pc.WriteRetract? || pc.WriteClaim? || pc == Writing(0)
  }

  predicate FromWrite(pc: Pc) {
    pc == Writing(0) || pc.UnwriteId? || pc.UnwriteCount? || pc.UnwriteClear? || pc.UnwriteStore? || pc.Idle?
  }

  /** What is known about the data of one job. */
  ghost predicate JobOk(cfg: Config, w: World, job: Job) {
    match job
    case Stat(_, ttl) => ttl > 0
    case Probe(_, via) => via.Fetched? && via.status != 200 && via.ttl > 0
    case Read(url, via, reading) =>
      var p := cfg.path(url);
      && Passed(via) && MayRead(cfg, via)
      && (via.CacheHit? ==> via.mtime <= w.now && (p in w.files ==> via.mtime <= w.files[p].mtime))
      && (match reading
          case Unopened => true
          case Opened(size, content) => p in w.files && size == |w.files[p].body| && content <= w.files[p].body
          case Full(content) => Served(w, url, content, via))
    case Save(url, via, body, saving) =>
      && Genuine(w, url, body) && via.Fetched? && Honest(cfg, w, Reply(url, body, via)) && via.status == 200
      && (saving.Truncated? ==>
          && saving.written <= |body|
          && cfg.path(url) in w.files
          && w.files[cfg.path(url)].body == body[..saving.written])
    case Flush(flushing) => flushing.Removing? ==> w.files.Keys <= flushing.left
    case Answer(reply) => Genuine(w, reply.url, reply.content) && Honest(cfg, w, reply)
    case _ => true
  }

  ghost predicate FilesOk(cfg: Config, w: World) {
    && (forall p | p in w.files :: w.files[p].mtime <= w.now)
    && (forall url :: Settled(cfg, w, url) || exists t: nat :: t < |w.jobs| && WritesFile(w.jobs[t]) && w.jobs[t].url == url)
  }

  ghost predicate HistoryOk(cfg: Config, w: World) {
    && (forall x | x in w.writes :: Genuine(w, x.url, x.body))
    && (forall r | r in w.replies :: Genuine(w, r.url, r.content) && Honest(cfg, w, r))
  }

  ghost predicate WorldInv(cfg: Config, w: World) {
    && Inv(w.lock)
    && |w.jobs| == |w.lock.pcs|
    && (forall t | 0 <= t < |w.jobs| :: Placed(w.jobs[t], w.lock.pcs[t]))
    && (forall t | 0 <= t < |w.jobs| :: JobOk(cfg, w, w.jobs[t]))
    && FilesOk(cfg, w)
    && HistoryOk(cfg, w)
  }

  lemma InitWorldInv(cfg: Config, n: nat)
    ensures WorldInv(cfg, InitWorld(n))
  {
    InitInv(n);
  }

  // ----- every step keeps the invariant -----

  /** The history only grows and time never runs back. */
  ghost predicate Grows(w: World, w': World) {
    w.completed <= w'.completed && w.writes <= w'.writes && w.now <= w'.now
  }

  /** Files either stay as they are or are stamped with the current time. */
  ghost predicate Stamped(w: World, w': World) {
    forall p | p in w'.files :: (p in w.files && w'.files[p] == w.files[p]) || w'.files[p].mtime == w'.now
  }

  /** Only thread t moved, and it touched the files only while holding the write lock. */
  ghost predicate OnlyMoves(w: World, w': World, t: Tid) {
    && t < |w.jobs| == |w'.jobs| == |w.lock.pcs| == |w'.lock.pcs|
    && (forall j | 0 <= j < |w.jobs| && j != t :: w'.jobs[j] == w.jobs[j] && w'.lock.pcs[j] == w.lock.pcs[j])
    && (w'.files == w.files || HoldsWrite(w.lock.pcs[t]))
  }

  /** Another thread's data stays good: whoever reads or writes a file excludes t. */
  lemma OtherJob(cfg: Config, w: World, w': World, t: Tid, j: Tid)
    requires WorldInv(cfg, w) && Grows(w, w') && Stamped(w, w') && OnlyMoves(w, w', t)
    requires j < |w.jobs| && j != t
    ensures JobOk(cfg, w', w'.jobs[j])
  {
    Exclusion(w.lock);
    var job := w.jobs[j];
    assert JobOk(cfg, w, job) && Placed(job, w.lock.pcs[j]);
    if (job.Read? && job.reading.Opened?) || WritesFile(job) || (job.Flush? && job.flushing.Removing?) {
      assert Holds(w.lock.pcs[j]);
      assert w'.files == w.files;
    }
  }

  lemma Moved(cfg: Config, w: World, w': World, t: Tid)
    requires WorldInv(cfg, w) && Grows(w, w') && Stamped(w, w') && OnlyMoves(w, w', t)
    requires Inv(w'.lock)
    requires Placed(w'.jobs[t], w'.lock.pcs[t]) && JobOk(cfg, w', w'.jobs[t])
    requires FilesOk(cfg, w') && HistoryOk(cfg, w')
    ensures WorldInv(cfg, w')
  {
    forall j | 0 <= j < |w'.jobs| ensures JobOk(cfg, w', w'.jobs[j]) && Placed(w'.jobs[j], w'.lock.pcs[j]) {
      if j != t {
        OtherJob(cfg, w, w', t, j);
        assert Placed(w.jobs[j], w.lock.pcs[j]);
      }
    }
  }

  /** Steps that leave the files alone and neither start nor end a write. */
  lemma QuietFiles(cfg: Config, w: World, w': World, t: Tid)
    requires WorldInv(cfg, w) && Grows(w, w') && OnlyMoves(w, w', t) && w'.files == w.files
    requires WritesFile(w.jobs[t]) ==> WritesFile(w'.jobs[t]) && w'.jobs[t].url == w.jobs[t].url
    ensures FilesOk(cfg, w')
  {
    forall url ensures Settled(cfg, w', url) || exists j: nat :: j < |w'.jobs| && WritesFile(w'.jobs[j]) && w'.jobs[j].url == url {
      if !Settled(cfg, w, url) {
        var j: nat :| j < |w.jobs| && WritesFile(w.jobs[j]) && w.jobs[j].url == url;
        assert WritesFile(w'.jobs[j]) && w'.jobs[j].url == url;
      }
    }
  }

  lemma QuietHistory(cfg: Config, w: World, w': World)
    requires WorldInv(cfg, w) && Grows(w, w')
    requires forall x | x in w'.writes :: x in w.writes || Genuine(w', x.url, x.body)
    requires forall r | r in w'.replies :: r in w.replies || (Genuine(w', r.url, r.content) && Honest(cfg, w', r))
    ensures HistoryOk(cfg, w')
  {
  }

  /** A lock access keeps everything as long as the job allows the next place. */
  lemma LockStepInv(cfg: Config, w: World, t: Tid, write: bool, spurious: bool)
    requires WorldInv(cfg, w) && t < |w.jobs|
    requires Placed(w.jobs[t], LockStep(w, t, write, spurious).lock.pcs[t])
    ensures WorldInv(cfg, LockStep(w, t, write, spurious))
  {
    var w' := LockStep(w, t, write, spurious);
    StepInv(w.lock, Turn(t, Choice(write, false, spurious)));
    assert JobOk(cfg, w, w.jobs[t]);
    assert JobOk(cfg, w', w'.jobs[t]) by { SameData(cfg, w, w', w.jobs[t]); }
    QuietFiles(cfg, w, w', t);
    QuietHistory(cfg, w, w');
    Moved(cfg, w, w', t);
  }

  lemma SameData(cfg: Config, w: World, w': World, job: Job)
    requires JobOk(cfg, w, job) && Grows(w, w') && w'.files == w.files
    ensures JobOk(cfg, w', job)
  {
  }

  const READING := Read("", CacheHit(1, 0, 0), Unopened)

  /** Where a lock access takes a thread inside a webGet or flushCache call. */
  lemma LockPlaces(s: State, t: Tid, spurious: bool)
    requires Inv(s) && t < |s.pcs|
    ensures var q := Step(s, Turn(t, Choice(true, false, spurious))).pcs[t];
            && (ToWrite(s.pcs[t]) && !s.pcs[t].Writing? ==> ToWrite(q))
            && (FromWrite(s.pcs[t]) && !s.pcs[t].Idle? ==> FromWrite(q))
    ensures var q := Step(s, Turn(t, Choice(false, false, spurious))).pcs[t];
            && (Placed(READING, s.pcs[t]) && !s.pcs[t].Reading? ==> Placed(READING, q))
            && (HoldsRead(s.pcs[t]) ==> HoldsRead(q) || q.Idle?)
  {
    assert PcOk(s.pcs[t]) && (Claimed(s.pcs[t]) <==> s.shared.owner == Thread(t));
    if HoldsWrite(s.pcs[t]) { CountAtLeast(s.pcs, t, HoldsWrite); }
  }

  /** Steps that only change what thread t is doing. */
  lemma JobStepInv(cfg: Config, w: World, w': World, t: Tid)
    requires WorldInv(cfg, w) && Grows(w, w') && OnlyMoves(w, w', t)
    requires w'.files == w.files && w'.lock == w.lock && w'.writes == w.writes
    requires !WritesFile(w.jobs[t])
    requires Placed(w'.jobs[t], w'.lock.pcs[t]) && JobOk(cfg, w', w'.jobs[t])
    requires forall r | r in w'.replies :: r in w.replies || (Genuine(w', r.url, r.content) && Honest(cfg, w', r))
    ensures WorldInv(cfg, w')
  {
    QuietFiles(cfg, w, w', t);
    QuietHistory(cfg, w, w');
    Moved(cfg, w, w', t);
  }

  lemma ReadInv(cfg: Config, w: World, t: Tid, o: Oracle)
    requires WorldInv(cfg, w) && t < |w.jobs| && w.jobs[t].Read?
    ensures WorldInv(cfg, Act(cfg, w, t, o))
  {
    var Read(url, via, reading) := w.jobs[t];
    var w' := Act(cfg, w, t, o);
    assert JobOk(cfg, w, w.jobs[t]) && Placed(w.jobs[t], w.lock.pcs[t]);
    LockPlaces(w.lock, t, o.spurious);
    if reading.Unopened? && w.lock.pcs[t].Reading? { assert JobOk(cfg, w', w'.jobs[t]); }
    hide WorldInv, Inv;
    match reading
    case Unopened =>
      if w.lock.pcs[t].Reading? {
        JobStepInv(cfg, w, w', t);
      } else {
        LockStepInv(cfg, w, t, false, o.spurious);
      }
    case Opened(size, content) =>
      if |content| >= size { ReadWhole(cfg, w, t); }
      JobStepInv(cfg, w, w', t);
    case Full(content) =>
      if w.lock.pcs[t].Idle? {
        ReadEndInv(cfg, w, t, o);
      } else {
        LockStepInv(cfg, w, t, false, o.spurious);
      }
  }

  /** What was read is answered. */
  lemma ReadEndInv(cfg: Config, w: World, t: Tid, o: Oracle)
    requires WorldInv(cfg, w) && t < |w.jobs| && w.jobs[t].Read? && w.jobs[t].reading.Full? && w.lock.pcs[t].Idle?
    ensures WorldInv(cfg, Act(cfg, w, t, o))
  {
    var Read(url, via, Full(content)) := w.jobs[t];
    assert JobOk(cfg, w, w.jobs[t]);
    if content != "" {
      var time: nat :| Write(url, content, time) in w.writes;
      assert Genuine(w, Write(url, content, time).url, content);
    }
    JobStepInv(cfg, w, Act(cfg, w, t, o), t);
  }

  lemma WritersHold(cfg: Config, w: World)
    requires WorldInv(cfg, w)
    ensures forall j | 0 <= j < |w.jobs| && WritesFile(w.jobs[j]) :: HoldsWrite(w.lock.pcs[j])
  {
  }

  /** A reader that has reached the end holds a finished body, since no writer is inside. */
  lemma ReadWhole(cfg: Config, w: World, t: Tid)
    requires WorldInv(cfg, w) && t < |w.jobs| && w.jobs[t].Read? && w.jobs[t].reading.Opened?
    requires |w.jobs[t].reading.content| >= w.jobs[t].reading.size
    ensures Served(w, w.jobs[t].url, w.jobs[t].reading.content, w.jobs[t].via)
  {
    var Read(url, via, Opened(size, content)) := w.jobs[t];
    var p := cfg.path(url);
    assert JobOk(cfg, w, w.jobs[t]) && Placed(w.jobs[t], w.lock.pcs[t]);
    assert content == w.files[p].body;
    Exclusion(w.lock);
    WritersHold(cfg, w);
    assert Settled(cfg, w, url);
  }

  /** With t holding the write lock outside a write, every file is settled. */
  lemma AllSettled(cfg: Config, w: World, t: Tid, url: string)
    requires WorldInv(cfg, w) && t < |w.jobs| && HoldsWrite(w.lock.pcs[t])
    requires WritesFile(w.jobs[t]) ==> w.jobs[t].url != url
    ensures Settled(cfg, w, url)
  {
    Exclusion(w.lock);
    WritersHold(cfg, w);
  }

  /** A change of one file under the write lock leaves the other ones settled. */
  lemma OthersSettled(cfg: Config, w: World, w': World, t: Tid, url: string)
    requires WorldInv(cfg, w) && t < |w.jobs| && w.jobs[t].Save? && w.jobs[t].url == url
    requires HoldsWrite(w.lock.pcs[t]) && Injective(cfg.path) && w.writes <= w'.writes
    requires forall p | p != cfg.path(url) :: (p in w'.files <==> p in w.files) && (p in w.files ==> w'.files[p] == w.files[p])
    ensures forall u | u != url :: Settled(cfg, w', u)
  {
    forall u | u != url ensures Settled(cfg, w', u) {
      AllSettled(cfg, w, t, u);
      assert cfg.path(u) != cfg.path(url);
    }
  }

  /** Opening the file for writing and writing a byte: the job goes on writing it. */
  lemma WriteStepInv(cfg: Config, w: World, w': World, t: Tid, file: File)
    requires WorldInv(cfg, w) && t < |w.jobs| && w.jobs[t].Save? && Injective(cfg.path) && w.lock.pcs[t] == Writing(0)
    requires var Save(url, via, body, saving) := w.jobs[t];
             && !saving.Complete? && file.mtime == w.now && |file.body| <= |body| && file.body == body[..|file.body|]
             && w' == Become(w.(files := w.files[cfg.path(url) := file]), t, Save(url, via, body, Truncated(|file.body|)))
    ensures WorldInv(cfg, w')
  {
    var Save(url, via, body, saving) := w.jobs[t];
    assert JobOk(cfg, w, w.jobs[t]);
    OthersSettled(cfg, w, w', t, url);
    forall u ensures Settled(cfg, w', u) || exists j: nat :: j < |w'.jobs| && WritesFile(w'.jobs[j]) && w'.jobs[j].url == u {
      if u == url { assert WritesFile(w'.jobs[t]) && w'.jobs[t].url == u; }
    }
    QuietHistory(cfg, w, w');
    Moved(cfg, w, w', t);
  }

  /** The last byte is written: the write enters the history. */
  lemma WriteEndInv(cfg: Config, w: World, t: Tid, o: Oracle)
    requires WorldInv(cfg, w) && t < |w.jobs| && WritesFile(w.jobs[t]) && Injective(cfg.path)
    requires w.jobs[t].saving.written == |w.jobs[t].body|
    ensures WorldInv(cfg, Act(cfg, w, t, o))
  {
    var Save(url, via, body, saving) := w.jobs[t];
    var w' := Act(cfg, w, t, o);
    assert JobOk(cfg, w, w.jobs[t]) && Placed(w.jobs[t], w.lock.pcs[t]);
    assert body[..|body|] == body;
    OthersSettled(cfg, w, w', t, url);
    assert Settled(cfg, w', url);
    QuietHistory(cfg, w, w');
    Moved(cfg, w, w', t);
  }

  lemma SaveInv(cfg: Config, w: World, t: Tid, o: Oracle)
    requires WorldInv(cfg, w) && t < |w.jobs| && w.jobs[t].Save? && Injective(cfg.path)
    ensures WorldInv(cfg, Act(cfg, w, t, o))
  {
    var Save(url, via, body, saving) := w.jobs[t];
    assert JobOk(cfg, w, w.jobs[t]) && Placed(w.jobs[t], w.lock.pcs[t]);
    LockPlaces(w.lock, t, o.spurious);
    hide WorldInv, Inv;
    match saving
    case Unwritten =>
      if w.lock.pcs[t].Writing? {
        WriteStepInv(cfg, w, Act(cfg, w, t, o), t, File("", w.now));
      } else {
        LockStepInv(cfg, w, t, true, o.spurious);
      }
    case Truncated(k) =>
      if k < |body| {
        assert body[..k] + [body[k]] == body[..k + 1];
        WriteStepInv(cfg, w, Act(cfg, w, t, o), t, File(body[..k + 1], w.now));
      } else {
        WriteEndInv(cfg, w, t, o);
      }
    case Complete =>
      if w.lock.pcs[t].Idle? {
        JobStepInv(cfg, w, Act(cfg, w, t, o), t);
      } else {
        LockStepInv(cfg, w, t, true, o.spurious);
      }
  }

  lemma RemoveInv(cfg: Config, w: World, t: Tid, o: Oracle)
    requires WorldInv(cfg, w) && t < |w.jobs| && w.jobs[t].Flush? && w.jobs[t].flushing.Removing?
    requires o.victim in w.jobs[t].flushing.left
    ensures WorldInv(cfg, Act(cfg, w, t, o))
  {
    var w' := Act(cfg, w, t, o);
    assert JobOk(cfg, w, w.jobs[t]) && Placed(w.jobs[t], w.lock.pcs[t]);
    forall u ensures Settled(cfg, w', u) { AllSettled(cfg, w, t, u); }
    QuietHistory(cfg, w, w');
    Moved(cfg, w, w', t);
  }

  lemma FlushInv(cfg: Config, w: World, t: Tid, o: Oracle)
    requires WorldInv(cfg, w) && t < |w.jobs| && w.jobs[t].Flush?
    ensures WorldInv(cfg, Act(cfg, w, t, o))
  {
    var w' := Act(cfg, w, t, o);
    var flushing := w.jobs[t].flushing;
    assert JobOk(cfg, w, w.jobs[t]) && Placed(w.jobs[t], w.lock.pcs[t]);
    LockPlaces(w.lock, t, o.spurious);
    hide WorldInv, Inv;
    match flushing
    case Waiting =>
      if w.lock.pcs[t].Writing? {
        JobStepInv(cfg, w, w', t);
      } else {
        LockStepInv(cfg, w, t, true, o.spurious);
      }
    case Removing(left) =>
      if left == {} {
        JobStepInv(cfg, w, w', t);
      } else if o.victim in left {
        RemoveInv(cfg, w, t, o);
      }
    case Done =>
      if w.lock.pcs[t].Idle? {
        JobStepInv(cfg, w, w', t);
      } else {
        LockStepInv(cfg, w, t, true, o.spurious);
      }
  }

  /** When flushCache has removed the last name on its list, there is no file. */
  lemma FlushEmpties(cfg: Config, w: World, t: Tid)
    requires WorldInv(cfg, w) && t < |w.jobs| && w.jobs[t] == Flush(Removing({}))
    ensures w.files == map[]
  {
    assert JobOk(cfg, w, w.jobs[t]);
    assert w.files.Keys == {};
  }

  lemma TickInv(cfg: Config, w: World)
    requires WorldInv(cfg, w)
    ensures WorldInv(cfg, w.(now := w.now + 1))
  {
    var w' := w.(now := w.now + 1);
    forall t | 0 <= t < |w'.jobs| ensures JobOk(cfg, w', w'.jobs[t]) { SameData(cfg, w, w', w.jobs[t]); }
    forall url ensures Settled(cfg, w', url) || exists j: nat :: j < |w'.jobs| && WritesFile(w'.jobs[j]) && w'.jobs[j].url == url {
      assert Settled(cfg, w, url) ==> Settled(cfg, w', url);
    }
    QuietHistory(cfg, w, w');
  }

  /** The steps outside every lock: choosing a call, the cache test and the transfer. */
  lemma UnlockedInv(cfg: Config, w: World, t: Tid, o: Oracle)
    requires WorldInv(cfg, w) && t < |w.jobs|
    requires !w.jobs[t].Read? && !w.jobs[t].Save? && !w.jobs[t].Flush?
    ensures WorldInv(cfg, Act(cfg, w, t, o))
  {
    assert JobOk(cfg, w, w.jobs[t]) && Placed(w.jobs[t], w.lock.pcs[t]);
    JobStepInv(cfg, w, Act(cfg, w, t, o), t);
  }

  lemma NextInv(cfg: Config, w: World, e: Event)
    requires WorldInv(cfg, w) && Injective(cfg.path)
    ensures WorldInv(cfg, Next(cfg, w, e))
  {
    match e
    case Tick => TickInv(cfg, w);
    case Go(t, o) =>
      if t < |w.jobs| {
        hide Act;
        match w.jobs[t]
        case Read(_, _, _) => ReadInv(cfg, w, t, o);
        case Save(_, _, _, _) => SaveInv(cfg, w, t, o);
        case Flush(_) => FlushInv(cfg, w, t, o);
        case _ => UnlockedInv(cfg, w, t, o);
      }
  }

  lemma {:induction false} PlayInv(cfg: Config, w: World, events: seq<Event>)
    requires WorldInv(cfg, w) && Injective(cfg.path)
    ensures WorldInv(cfg, Play(cfg, w, events))
    decreases |events|
  {
    if events != [] {
      NextInv(cfg, w, events[0]);
      PlayInv(cfg, Next(cfg, w, events[0]), events[1..]);
    }
  }

  /** Provenance and freshness in every concurrent run of webGet and flushCache. A reply
      after a transfer with status 200 is the whole body of that transfer, cached or not, or
      nothing if the transfer broke off. A reply after any other transfer is empty, or comes
      from the cache if the settings allow it. A non-empty reply from the cache is a finished
      write of the body of a completed transfer of that very URL; on a cache hit it is no
      older than the mtime that passed the TTL test, although that mtime was read outside the
      lock: when the test was made, the body was at most the TTL old. */
  lemma ProvenanceAndFreshness(cfg: Config, n: nat, events: seq<Event>, r: Reply)
    requires Injective(cfg.path)
    requires r in Play(cfg, InitWorld(n), events).replies
    ensures var w := Play(cfg, InitWorld(n), events);
            && (r.content != "" ==> (r.url, r.content) in w.completed)
            && match r.via
               case Fetched(ttl, ok, status, body) =>
                 && (status == 200 ==> r.content == if ok then body else "")
                 && (status != 200 && r.content != "" ==>
                       ttl > 0 && cfg.serveOnFail && exists time: nat :: Write(r.url, r.content, time) in w.writes)
               case CacheHit(ttl, mtime, tested) =>
                 && 0 < ttl && mtime <= tested <= mtime + ttl
                 && (r.content != "" ==>
                       exists time: nat :: Write(r.url, r.content, time) in w.writes && mtime <= time && tested <= time + ttl)
  {
    InitWorldInv(cfg, n);
    PlayInv(cfg, InitWorld(n), events);
    assert HistoryOk(cfg, Play(cfg, InitWorld(n), events));
  }
}
