/** What webGet and flushCache are for when nobody is in the way: a sequential description,
    and runs of one thread alone that do what it says. */
module DownloadAlone {
  import opened Common
  import opened RWLock
  import opened DownloadCache

  /** What a call answers, and the files that it leaves. */
  datatype Result = Result(content: string, files: map<Path, File>)

  predicate IsFresh(cfg: Config, w: World, url: string, ttl: nat) {
    var p := cfg.path(url);
    ttl > 0 && p in w.files && w.now <= w.files[p].mtime + ttl
  }

  /** A fresh file is answered; otherwise the body of the transfer, which is stored if a cache
      is asked for; after a failed transfer the old file if the settings allow it. */
  function WebGetResult(cfg: Config, w: World, url: string, ttl: nat, ok: bool, status: int, body: string): Result {
    var p := cfg.path(url);
    if IsFresh(cfg, w, url, ttl) then Result(w.files[p].body, w.files)
    else if status == 200 then
      var content := if ok then body else "";
      Result(content, if ttl > 0 then w.files[p := File(content, w.now)] else w.files)
    else Result(if ttl > 0 && cfg.serveOnFail && p in w.files then w.files[p].body else "", w.files)
  }

  function ViaOf(cfg: Config, w: World, url: string, ttl: nat, ok: bool, status: int, body: string): Via {
    if IsFresh(cfg, w, url, ttl) then CacheHit(ttl, w.files[cfg.path(url)].mtime, w.now) else Fetched(ttl, ok, status, body)
  }

  // ----- runs of one thread -----

  predicate OnlyBy(t: Tid, events: seq<Event>) { forall k | 0 <= k < |events| :: events[k].Go? && events[k].t == t }

  const QUIET := Oracle(FlushCache, false, 0, "", "", false)

  lemma {:induction false} PlayAppend(cfg: Config, w: World, xs: seq<Event>, ys: seq<Event>)
    ensures Play(cfg, w, xs + ys) == Play(cfg, Play(cfg, w, xs), ys)
    decreases |xs|
  {
    if xs == [] {
      assert xs + ys == ys;
    } else {
      assert (xs + ys)[0] == xs[0] && (xs + ys)[1..] == xs[1..] + ys;
      PlayAppend(cfg, Next(cfg, w, xs[0]), xs[1..], ys);
    }
  }

  lemma One(cfg: Config, w: World, t: Tid, o: Oracle) returns (events: seq<Event>)
    requires t < |w.jobs| == |w.lock.pcs|
    ensures OnlyBy(t, events) && Play(cfg, w, events) == Act(cfg, w, t, o)
  {
    events := [Go(t, o)];
    assert events[1..] == [];
    assert Play(cfg, w, events) == Play(cfg, Next(cfg, w, events[0]), events[1..]);
  }

  /** One step and then more of the same thread. */
  lemma More(cfg: Config, w: World, t: Tid, o: Oracle, rest: seq<Event>) returns (events: seq<Event>)
    requires t < |w.jobs| == |w.lock.pcs| && OnlyBy(t, rest)
    ensures OnlyBy(t, events) && Play(cfg, w, events) == Play(cfg, Act(cfg, w, t, o), rest)
  {
    events := [Go(t, o)] + rest;
    assert events[1..] == rest;
  }

  // ----- through the lock -----

  ghost predicate Sized(w: World, t: Tid) { t < |w.jobs| == |w.lock.pcs| && Inv(w.lock) }

  /** A reader gets in. */
  lemma {:induction false} EnterRead(cfg: Config, w: World, t: Tid) returns (events: seq<Event>)
    requires Sized(w, t) && NoWriters(w.lock) && w.jobs[t].Read? && w.jobs[t].reading.Unopened?
    requires InReadLock(w.lock.pcs[t])
    ensures OnlyBy(t, events)
    ensures var r := Play(cfg, w, events);
            Inv(r.lock) && r.lock.pcs == w.lock.pcs[t := Reading] && r == w.(lock := r.lock)
    decreases ToRead(w.lock.pcs[t], w.lock.shared.lockCount)
  {
    hide Inv, NoWriters, Advance;
    ReaderStep(w.lock, t);
    var w' := Act(cfg, w, t, QUIET);
    assert w' == w.(lock := Step(w.lock, Turn(t, GO)));
    if w'.lock.pcs[t] == Reading {
      events := One(cfg, w, t, QUIET);
    } else {
      var rest := EnterRead(cfg, w', t);
      events := More(cfg, w, t, QUIET, rest);
    }
  }

  predicate Leaving(job: Job) {
    (job.Read? && job.reading.Full?) || (job.Save? && job.saving.Complete?) || (job.Flush? && job.flushing.Done?)
  }

  lemma HolderMoves(s: State, t: Tid, write: bool)
    requires Inv(s) && t < |s.pcs| && Holds(s.pcs[t])
    ensures var r := Step(s, Turn(t, Choice(write, false, false))); Inv(r) && r.pcs == s.pcs[t := r.pcs[t]]
  {
    StepInv(s, Turn(t, Choice(write, false, false)));
  }

  /** Who has finished lets go. */
  lemma {:induction false} Leave(cfg: Config, w: World, t: Tid) returns (events: seq<Event>)
    requires Sized(w, t) && Leaving(w.jobs[t]) && Holds(w.lock.pcs[t])
    ensures OnlyBy(t, events)
    ensures var r := Play(cfg, w, events);
            Inv(r.lock) && r.lock.pcs == w.lock.pcs[t := Idle] && r == w.(lock := r.lock)
    decreases ToRelease(w.lock.pcs[t])
  {
    var write := !w.jobs[t].Read?;
    HolderStep(w.lock, t, write);
    HolderMoves(w.lock, t, write);
    var w' := Act(cfg, w, t, QUIET);
    assert w' == w.(lock := Step(w.lock, Turn(t, Choice(write, false, false))));
    hide Inv, Step;
    if w'.lock.pcs[t] == Idle {
      events := One(cfg, w, t, QUIET);
    } else {
      var rest := Leave(cfg, w', t);
      events := More(cfg, w, t, QUIET, rest);
    }
  }

  /** Nobody else holds the lock or is announced. */
  ghost predicate OthersOut(s: State, t: Tid) {
    forall j | 0 <= j < |s.pcs| && j != t :: !Holds(s.pcs[j]) && !Announced(s.pcs[j])
  }

  function ToWriting(pc: Pc): nat {
    match pc
    case Idle => 6
    case WriteId => 5
    case WriteAnnounce => 4
    case WriteCas => 3
    case WriteRetract => 2
    case WriteClaim => 1
    case _ => 0
  }

  lemma WriterMoves(s: State, t: Tid)
    requires Inv(s) && t < |s.pcs| && OthersOut(s, t) && ToWriting(s.pcs[t]) > 0
    ensures var r := Step(s, Turn(t, Choice(true, false, false))); var q := r.pcs[t];
            && Inv(r) && r.pcs == s.pcs[t := q] && OthersOut(r, t)
            && ToWriting(q) < ToWriting(s.pcs[t]) && (ToWriting(q) > 0 || q == Writing(0))
  {
    StepInv(s, Turn(t, Choice(true, false, false)));
    if !Holds(s.pcs[t]) { FreeLock(s); }
  }

  predicate Entering(job: Job) { (job.Save? && job.saving.Unwritten?) || (job.Flush? && job.flushing.Waiting?) }

  /** A writer gets in. */
  lemma {:induction false} EnterWrite(cfg: Config, w: World, t: Tid) returns (events: seq<Event>)
    requires Sized(w, t) && OthersOut(w.lock, t) && Entering(w.jobs[t]) && ToWriting(w.lock.pcs[t]) > 0
    ensures OnlyBy(t, events)
    ensures var r := Play(cfg, w, events);
            Inv(r.lock) && r.lock.pcs == w.lock.pcs[t := Writing(0)] && r == w.(lock := r.lock)
    decreases ToWriting(w.lock.pcs[t])
  {
    WriterMoves(w.lock, t);
    var w' := Act(cfg, w, t, QUIET);
    assert w' == w.(lock := Step(w.lock, Turn(t, Choice(true, false, false))));
    hide Inv, Step, OthersOut;
    if w'.lock.pcs[t] == Writing(0) {
      events := One(cfg, w, t, QUIET);
    } else {
      var rest := EnterWrite(cfg, w', t);
      events := More(cfg, w, t, QUIET, rest);
    }
  }

  // ----- inside the lock -----

  lemma {:induction false} ReadOn(cfg: Config, w: World, t: Tid) returns (events: seq<Event>)
    requires t < |w.jobs| == |w.lock.pcs| && w.jobs[t].Read? && w.jobs[t].reading.Opened?
    requires cfg.path(w.jobs[t].url) in w.files
    requires var body := w.files[cfg.path(w.jobs[t].url)].body;
             w.jobs[t].reading.size == |body| && w.jobs[t].reading.content <= body
    ensures OnlyBy(t, events)
    ensures var job := w.jobs[t];
            Play(cfg, w, events) == Become(w, t, Read(job.url, job.via, Full(w.files[cfg.path(job.url)].body)))
    decreases w.jobs[t].reading.size - |w.jobs[t].reading.content|
  {
    var Read(url, via, Opened(size, content)) := w.jobs[t];
    var w' := Act(cfg, w, t, QUIET);
    var body := w.files[cfg.path(url)].body;
    if |content| >= size {
      assert content == body;
      events := One(cfg, w, t, QUIET);
    } else {
      assert content + [body[|content|]] <= body;
      var rest := ReadOn(cfg, w', t);
      assert w'.jobs[t := Read(url, via, Full(w.files[cfg.path(url)].body))]
             == w.jobs[t := Read(url, via, Full(w.files[cfg.path(url)].body))];
      events := More(cfg, w, t, QUIET, rest);
    }
  }

  lemma {:induction false} WriteOn(cfg: Config, w: World, t: Tid) returns (events: seq<Event>)
    requires t < |w.jobs| == |w.lock.pcs| && WritesFile(w.jobs[t]) && w.jobs[t].saving.written <= |w.jobs[t].body|
    requires var p := cfg.path(w.jobs[t].url);
             p in w.files && w.files[p] == File(w.jobs[t].body[..w.jobs[t].saving.written], w.now)
    ensures OnlyBy(t, events)
    ensures var Save(url, via, body, _) := w.jobs[t]; var file := File(body, w.now);
            Play(cfg, w, events) == Become(w.(files := w.files[cfg.path(url) := file], writes := w.writes + {Write(url, body, w.now)}),
                                           t, Save(url, via, body, Complete))
    decreases |w.jobs[t].body| - w.jobs[t].saving.written
  {
    var Save(url, via, body, Truncated(k)) := w.jobs[t];
    var p := cfg.path(url);
    var w' := Act(cfg, w, t, QUIET);
    if k == |body| {
      assert body[..k] == body;
      events := One(cfg, w, t, QUIET);
      assert w.files[p := File(body, w.now)] == w.files;
    } else {
      assert body[..k] + [body[k]] == body[..k + 1];
      var rest := WriteOn(cfg, w', t);
      var file := File(body, w.now);
      assert w'.files[p := file] == w.files[p := file];
      assert w'.jobs[t := Save(url, via, body, Complete)] == w.jobs[t := Save(url, via, body, Complete)];
      events := More(cfg, w, t, QUIET, rest);
    }
  }

  lemma {:induction false} RemoveOn(cfg: Config, w: World, t: Tid) returns (events: seq<Event>)
    requires t < |w.jobs| == |w.lock.pcs| && w.jobs[t].Flush? && w.jobs[t].flushing.Removing?
    requires w.files.Keys <= w.jobs[t].flushing.left
    ensures OnlyBy(t, events)
    ensures Play(cfg, w, events) == Become(w.(files := map[]), t, Flush(Done))
    decreases |w.jobs[t].flushing.left|
  {
    var left := w.jobs[t].flushing.left;
    if left == {} {
      events := One(cfg, w, t, QUIET);
      assert w.files == map[];
    } else {
      var p :| p in left;
      var o := QUIET.(victim := p);
      var w' := Act(cfg, w, t, o);
      var rest := RemoveOn(cfg, w', t);
      assert w'.jobs[t := Flush(Done)] == w.jobs[t := Flush(Done)];
      events := More(cfg, w, t, o, rest);
    }
  }

  // ----- whole calls -----

  /** The world after thread t has come back with a reply, or from flushCache. */
  function Returned(w: World, t: Tid, lock: State, files: map<Path, File>, writes: set<Write>, replies: set<Reply>): World
    requires t < |w.jobs|
  {
    w.(lock := lock, files := files, writes := w.writes + writes, replies := w.replies + replies, jobs := w.jobs[t := Ready])
  }

  ghost predicate SamePlaces(w: World, r: World) { Inv(r.lock) && r.lock.pcs == w.lock.pcs }

  function ReplyOf(job: Job): set<Reply> {
    match job
    case Read(url, via, Full(content)) => {Reply(url, content, via)}
    case Save(url, via, body, _) => {Reply(url, body, via)}
    case Answer(reply) => {reply}
    case _ => {}
  }

  lemma AnswerOn(cfg: Config, w: World, t: Tid) returns (events: seq<Event>)
    requires t < |w.jobs| == |w.lock.pcs| && w.jobs[t].Answer?
    ensures OnlyBy(t, events)
    ensures Play(cfg, w, events) == Returned(w, t, w.lock, w.files, {}, {w.jobs[t].reply})
  {
    events := One(cfg, w, t, QUIET);
  }

  /** The last steps of a call. */
  lemma ComeBack(cfg: Config, w: World, t: Tid) returns (events: seq<Event>)
    requires Sized(w, t) && Leaving(w.jobs[t]) && Holds(w.lock.pcs[t])
    ensures OnlyBy(t, events)
    ensures var r := Play(cfg, w, events);
            && Inv(r.lock) && r.lock.pcs == w.lock.pcs[t := Idle]
            && r == Returned(w, t, r.lock, w.files, {}, ReplyOf(w.jobs[t]))
  {
    hide Inv, Play, Act;
    events := Leave(cfg, w, t);
    var left := Play(cfg, w, events);
    LetAnswer(cfg, left, t);
    var next := One(cfg, left, t, QUIET);
    PlayAppend(cfg, w, events, next);
    events := events + next;
    if !w.jobs[t].Flush? {
      var last := AnswerOn(cfg, Play(cfg, w, events), t);
      PlayAppend(cfg, w, events, last);
      events := events + last;
    }
    assert Play(cfg, w, events).jobs == w.jobs[t := Ready];
  }

  lemma LetAnswer(cfg: Config, w: World, t: Tid)
    requires t < |w.jobs| == |w.lock.pcs| && w.lock.pcs[t].Idle? && Leaving(w.jobs[t])
    ensures var r := Act(cfg, w, t, QUIET);
            && r == Become(w, t, r.jobs[t])
            && if w.jobs[t].Flush? then r.jobs[t] == Ready else r.jobs[t].Answer? && ReplyOf(w.jobs[t]) == {r.jobs[t].reply}
  {
  }

  /** From the decision to read the cache to the reply. */
  lemma ReadAlone(cfg: Config, w: World, t: Tid) returns (events: seq<Event>)
    requires Sized(w, t) && NoWriters(w.lock) && w.lock.pcs[t].Idle?
    requires w.jobs[t].Read? && w.jobs[t].reading.Unopened?
    ensures OnlyBy(t, events)
    ensures var Read(url, via, _) := w.jobs[t]; var p := cfg.path(url); var r := Play(cfg, w, events);
            && SamePlaces(w, r)
            && r == Returned(w, t, r.lock, w.files, {}, {Reply(url, if p in w.files then w.files[p].body else "", via)})
  {
    hide Inv, NoWriters, Play, Act;
    events := EnterRead(cfg, w, t);
    var inside := Play(cfg, w, events);
    var rest := ReadInside(cfg, inside, t);
    PlayAppend(cfg, w, events, rest);
    events := events + rest;
  }

  lemma ReadInside(cfg: Config, w: World, t: Tid) returns (events: seq<Event>)
    requires Sized(w, t) && w.lock.pcs[t] == Reading && w.jobs[t].Read? && w.jobs[t].reading.Unopened?
    ensures OnlyBy(t, events)
    ensures var Read(url, via, _) := w.jobs[t]; var p := cfg.path(url); var r := Play(cfg, w, events);
            && Inv(r.lock) && r.lock.pcs == w.lock.pcs[t := Idle]
            && r == Returned(w, t, r.lock, w.files, {}, {Reply(url, if p in w.files then w.files[p].body else "", via)})
  {
    hide Inv, Play, Act;
    var Read(url, via, _) := w.jobs[t];
    var p := cfg.path(url);
    OpenFile(cfg, w, t);
    events := One(cfg, w, t, QUIET);
    var copy := [];
    if p in w.files {
      copy := ReadOn(cfg, Play(cfg, w, events), t);
    } else {
      NoEvents(cfg, Play(cfg, w, events));
    }
    PlayAppend(cfg, w, events, copy);
    events := events + copy;
    var full := Play(cfg, w, events);
    assert full.jobs == w.jobs[t := Read(url, via, Full(if p in w.files then w.files[p].body else ""))];
    var back := ComeBack(cfg, full, t);
    PlayAppend(cfg, w, events, back);
    events := events + back;
    assert Play(cfg, w, events).jobs == w.jobs[t := Ready];
  }

  lemma NoEvents(cfg: Config, w: World)
    ensures Play(cfg, w, []) == w
  {
  }

  lemma OpenFile(cfg: Config, w: World, t: Tid)
    requires t < |w.jobs| == |w.lock.pcs| && w.jobs[t].Read? && w.jobs[t].reading.Unopened? && w.lock.pcs[t] == Reading
    ensures var Read(url, via, _) := w.jobs[t]; var p := cfg.path(url);
            Act(cfg, w, t, QUIET) == Become(w, t, Read(url, via, if p in w.files then Opened(|w.files[p].body|, "") else Full("")))
  {
  }

  /** From a completed transfer to the reply, with the body in the file. */
  lemma SaveAlone(cfg: Config, w: World, t: Tid) returns (events: seq<Event>)
    requires Sized(w, t) && OthersOut(w.lock, t) && w.lock.pcs[t].Idle?
    requires w.jobs[t].Save? && w.jobs[t].saving.Unwritten?
    ensures OnlyBy(t, events)
    ensures var Save(url, via, body, _) := w.jobs[t]; var r := Play(cfg, w, events);
            && SamePlaces(w, r)
            && r == Returned(w, t, r.lock, w.files[cfg.path(url) := File(body, w.now)], {Write(url, body, w.now)}, {Reply(url, body, via)})
  {
    hide Inv, OthersOut, Play, Act;
    events := EnterWrite(cfg, w, t);
    var rest := SaveInside(cfg, Play(cfg, w, events), t);
    PlayAppend(cfg, w, events, rest);
    events := events + rest;
  }

  lemma SaveInside(cfg: Config, w: World, t: Tid) returns (events: seq<Event>)
    requires Sized(w, t) && w.lock.pcs[t] == Writing(0) && w.jobs[t].Save? && w.jobs[t].saving.Unwritten?
    ensures OnlyBy(t, events)
    ensures var Save(url, via, body, _) := w.jobs[t]; var r := Play(cfg, w, events);
            && Inv(r.lock) && r.lock.pcs == w.lock.pcs[t := Idle]
            && r == Returned(w, t, r.lock, w.files[cfg.path(url) := File(body, w.now)], {Write(url, body, w.now)}, {Reply(url, body, via)})
  {
    hide Inv, Play, Act;
    var Save(url, via, body, _) := w.jobs[t];
    var file := File(body, w.now);
    OpenToWrite(cfg, w, t);
    events := One(cfg, w, t, QUIET);
    var atFile := Play(cfg, w, events);
    var copy := WriteOn(cfg, atFile, t);
    PlayAppend(cfg, w, events, copy);
    events := events + copy;
    var full := Play(cfg, w, events);
    assert full.files == w.files[cfg.path(url) := file] && full.jobs == w.jobs[t := Save(url, via, body, Complete)];
    var back := ComeBack(cfg, full, t);
    PlayAppend(cfg, w, events, back);
    events := events + back;
    assert Play(cfg, w, events).jobs == w.jobs[t := Ready];
  }

  lemma OpenToWrite(cfg: Config, w: World, t: Tid)
    requires t < |w.jobs| == |w.lock.pcs| && w.jobs[t].Save? && w.jobs[t].saving.Unwritten? && w.lock.pcs[t] == Writing(0)
    ensures var Save(url, via, body, _) := w.jobs[t];
            Act(cfg, w, t, QUIET) ==
            Become(w.(files := w.files[cfg.path(url) := File("", w.now)]), t, Save(url, via, body, Truncated(0)))
  {
  }

  predicate Stores(cfg: Config, w: World, url: string, ttl: nat, status: int) {
    ttl > 0 && !IsFresh(cfg, w, url, ttl) && status == 200
  }

  /** The steps up to the first lock access, or to the reply. */
  lemma Begin(cfg: Config, w: World, t: Tid, url: string, ttl: nat, ok: bool, status: int, body: string)
    returns (events: seq<Event>)
    requires t < |w.jobs| == |w.lock.pcs| && w.jobs[t] == Ready
    ensures OnlyBy(t, events)
    ensures var r, via := Play(cfg, w, events), ViaOf(cfg, w, url, ttl, ok, status, body);
            var content, p := if ok then body else "", cfg.path(url);
            && r == w.(jobs := r.jobs, completed := r.completed)
            && r.jobs == w.jobs[t :=
                 if via.CacheHit? || (ttl > 0 && status != 200 && p in w.files && cfg.serveOnFail) then Read(url, via, Unopened)
                 else if ttl > 0 && status == 200 then Save(url, via, content, Unwritten)
                 else Answer(Reply(url, if status == 200 then content else "", via))]
            && r.completed == if via.Fetched? && ok && status == 200 then w.completed + {(url, body)} else w.completed
  {
    hide Play;
    var o := Oracle(WebGet(url, ttl), ok, status, body, "", false);
    events := One(cfg, w, t, o);
    var s := Play(cfg, w, events);
    if ttl > 0 {
      var test := One(cfg, s, t, o);
      PlayAppend(cfg, w, events, test);
      events := events + test;
      s := Play(cfg, w, events);
      assert s.jobs == w.jobs[t := if IsFresh(cfg, w, url, ttl) then Read(url, CacheHit(ttl, w.files[cfg.path(url)].mtime, w.now), Unopened)
                                   else Fetch(url, ttl)];
    }
    if s.jobs[t].Fetch? {
      var fetch := One(cfg, s, t, o);
      PlayAppend(cfg, w, events, fetch);
      events := events + fetch;
      s := Play(cfg, w, events);
    }
    if s.jobs[t].Probe? {
      var probe := One(cfg, s, t, o);
      PlayAppend(cfg, w, events, probe);
      events := events + probe;
    }
    assert Play(cfg, w, events).jobs == w.jobs[t := Play(cfg, w, events).jobs[t]];
  }

  /** With no writer in the way (and no reader, if it has something to store), webGet comes
      back by its own steps with exactly the reply that is described, and leaves exactly the
      files that are described. */
  lemma WebGetAlone(cfg: Config, w: World, t: Tid, url: string, ttl: nat, ok: bool, status: int, body: string)
    returns (events: seq<Event>)
    requires WorldInv(cfg, w) && t < |w.jobs| && w.jobs[t] == Ready && NoWriters(w.lock)
    requires Stores(cfg, w, url, ttl, status) ==> OthersOut(w.lock, t)
    ensures OnlyBy(t, events)
    ensures var r, result := Play(cfg, w, events), WebGetResult(cfg, w, url, ttl, ok, status, body);
            && SamePlaces(w, r) && r.now == w.now && r.jobs == w.jobs
            && r.files == result.files
            && r.replies == w.replies + {Reply(url, result.content, ViaOf(cfg, w, url, ttl, ok, status, body))}
  {
    assert Placed(w.jobs[t], w.lock.pcs[t]);
    hide WorldInv, Inv, NoWriters, OthersOut, Act, Play;
    assert Inv(w.lock) by { LockOk(cfg, w); }
    events := Begin(cfg, w, t, url, ttl, ok, status, body);
    var s := Play(cfg, w, events);
    var rest;
    match s.jobs[t] {
      case Read(_, _, _) => rest := ReadAlone(cfg, s, t);
      case Save(_, _, _, _) => rest := SaveAlone(cfg, s, t);
      case Answer(_) => rest := AnswerOn(cfg, s, t);
    }
    PlayAppend(cfg, w, events, rest);
    events := events + rest;
    assert Play(cfg, w, events).jobs == s.jobs[t := Ready] == w.jobs;
  }

  lemma LockOk(cfg: Config, w: World)
    requires WorldInv(cfg, w)
    ensures Inv(w.lock)
  {
  }

  /** And flushCache leaves no file. */
  lemma FlushAlone(cfg: Config, w: World, t: Tid) returns (events: seq<Event>)
    requires WorldInv(cfg, w) && t < |w.jobs| && w.jobs[t] == Ready && OthersOut(w.lock, t)
    ensures OnlyBy(t, events)
    ensures var r := Play(cfg, w, events); SamePlaces(w, r) && r == w.(lock := r.lock, files := map[])
  {
    assert Placed(w.jobs[t], w.lock.pcs[t]);
    hide WorldInv, Inv, OthersOut, Play, Act;
    LockOk(cfg, w);
    CallFlush(cfg, w, t);
    events := One(cfg, w, t, QUIET);
    var enter := EnterWrite(cfg, Play(cfg, w, events), t);
    PlayAppend(cfg, w, events, enter);
    events := events + enter;
    var rest := FlushInside(cfg, Play(cfg, w, events), t);
    PlayAppend(cfg, w, events, rest);
    events := events + rest;
    assert Play(cfg, w, events).jobs == w.jobs;
  }

  lemma FlushInside(cfg: Config, w: World, t: Tid) returns (events: seq<Event>)
    requires Sized(w, t) && w.lock.pcs[t] == Writing(0) && w.jobs[t] == Flush(Waiting)
    ensures OnlyBy(t, events)
    ensures var r := Play(cfg, w, events);
            Inv(r.lock) && r.lock.pcs == w.lock.pcs[t := Idle] && r == Returned(w, t, r.lock, map[], {}, {})
  {
    hide Inv, Play, Act;
    ListFiles(cfg, w, t);
    events := One(cfg, w, t, QUIET);
    var remove := RemoveOn(cfg, Play(cfg, w, events), t);
    PlayAppend(cfg, w, events, remove);
    events := events + remove;
    var back := ComeBack(cfg, Play(cfg, w, events), t);
    PlayAppend(cfg, w, events, back);
    events := events + back;
    assert Play(cfg, w, events).jobs == w.jobs[t := Ready];
  }

  lemma CallFlush(cfg: Config, w: World, t: Tid)
    requires t < |w.jobs| == |w.lock.pcs| && w.jobs[t] == Ready
    ensures Act(cfg, w, t, QUIET) == Become(w, t, Flush(Waiting))
  {
  }

  lemma ListFiles(cfg: Config, w: World, t: Tid)
    requires t < |w.jobs| == |w.lock.pcs| && w.jobs[t] == Flush(Waiting) && w.lock.pcs[t] == Writing(0)
    ensures Act(cfg, w, t, QUIET) == Become(w, t, Flush(Removing(w.files.Keys)))
  {
  }

  // ----- reading while others are at work -----

  /** Thread t is on its way to answer the file. */
  predicate Serving(job: Job, url: string, via: Via, file: File) {
    match job
    case Read(u, v, reading) =>
      u == url && v == via && (match reading
                               case Unopened => true
                               case Opened(size, content) => size == |file.body| && content <= file.body
                               case Full(content) => content == file.body)
    case Answer(reply) => reply == Reply(url, file.body, via)
    case _ => false
  }

  /** The file is the same before and after each of the events. */
  predicate Undisturbed(cfg: Config, w: World, events: seq<Event>, p: Path, file: File)
    decreases |events|
  {
    p in w.files && w.files[p] == file && (events == [] || Undisturbed(cfg, Next(cfg, w, events[0]), events[1..], p, file))
  }

  lemma ServingStep(cfg: Config, w: World, t: Tid, e: Event, url: string, via: Via, file: File)
    requires t < |w.jobs| == |w.lock.pcs| && Serving(w.jobs[t], url, via, file)
    requires cfg.path(url) in w.files && w.files[cfg.path(url)] == file
    ensures var r := Next(cfg, w, e);
            && |r.jobs| == |r.lock.pcs| == |w.jobs| && w.replies <= r.replies
            && (Serving(r.jobs[t], url, via, file) || Reply(url, file.body, via) in r.replies)
  {
    if e.Go? && e.t == t && w.jobs[t].Read? && w.jobs[t].reading.Opened? {
      var content := w.jobs[t].reading.content;
      if |content| < |file.body| { assert content + [file.body[|content|]] <= file.body; }
      else { assert content == file.body; }
    }
  }

  lemma RepliesStay(cfg: Config, w: World, e: Event)
    ensures w.replies <= Next(cfg, w, e).replies
  {
  }

  /** Whoever has decided to read a cache file answers exactly that file, whatever the other
      threads do meanwhile, as long as they leave this file alone. */
  lemma {:induction false} ServesTheFile(cfg: Config, w: World, t: Tid, events: seq<Event>, url: string, via: Via, file: File)
    requires t < |w.jobs| == |w.lock.pcs|
    requires Serving(w.jobs[t], url, via, file) || Reply(url, file.body, via) in w.replies
    requires Undisturbed(cfg, w, events, cfg.path(url), file)
    ensures var r := Play(cfg, w, events);
            |r.jobs| == |w.jobs| && (Serving(r.jobs[t], url, via, file) || Reply(url, file.body, via) in r.replies)
    decreases |events|
  {
    if events != [] {
      hide Serving, Act;
      SizesStay(cfg, w, events[0]);
      RepliesStay(cfg, w, events[0]);
      if Serving(w.jobs[t], url, via, file) { ServingStep(cfg, w, t, events[0], url, via, file); }
      ServesTheFile(cfg, Next(cfg, w, events[0]), t, events[1..], url, via, file);
    }
  }

  lemma SizesStay(cfg: Config, w: World, e: Event)
    requires |w.jobs| == |w.lock.pcs|
    ensures var r := Next(cfg, w, e); |r.jobs| == |r.lock.pcs| == |w.jobs|
  {
  }
}
