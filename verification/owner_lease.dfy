/** The single-owner lease over the state directory: the lease object, and the protocol it takes part
    in, as a transition system of many processes over one file and one clock. Exclusive create, read,
    check-and-unlink, renew and release are each one step. */
module OwnerLease {
  import opened Wrappers

  datatype Kind = Server | Cli

  datatype Record = Record(holderId: string, kind: Kind, pid: int, host: string, acquiredAt: int, heartbeatAt: int)

  /** What reading a file that is not a record yields; such a file is represented by it. */
  const UNREADABLE := Record("corrupt", Server, 0, "unknown", 0, 0)

  /** What the lease file holds; None when it does not exist. */
  type Content = Option<Record>

  predicate IsStale(r: Record, now: int, staleMs: int) {
    now - r.heartbeatAt > staleMs
  }

  /** A record of this pid and host that no live lease of this process wrote. */
  predicate IsDeadPredecessor(r: Record, pid: int, host: string, live: set<string>) {
    r.pid == pid && r.host == host && r.holderId !in live
  }

  predicate MayTakeOver(r: Record, now: int, staleMs: int, pid: int, host: string, live: set<string>) {
    IsStale(r, now, staleMs) || IsDeadPredecessor(r, pid, host, live)
  }

  /** An unreadable file cannot prove a live owner: it is stale for any clock past its first `staleMs`. */
  lemma UnreadableIsTakenOver(now: int, staleMs: int, pid: int, host: string, live: set<string>)
    requires pid != 0
    ensures MayTakeOver(UNREADABLE, now, staleMs, pid, host, live) <==> now > staleMs
  {
  }

  predicate HeldBy(file: Content, holderId: string) {
    file.Some? && file.value.holderId == holderId
  }

  function AfterCreate(file: Content, r: Record): Content {
    if file.None? then Some(r) else file
  }

  /** The file after unlinking the record judged stale: only if it still is that record. */
  function AfterRemoveStale(file: Content, judged: Record): Content {
    if HeldBy(file, judged.holderId) && file.value.heartbeatAt == judged.heartbeatAt then None else file
  }

  function AfterRenew(file: Content, mine: Record, now: int): Content {
    if HeldBy(file, mine.holderId) then Some(mine.(heartbeatAt := now)) else file
  }

  function AfterRelease(file: Content, holderId: string): Content {
    if HeldBy(file, holderId) then None else file
  }

  // ---------------------------------------------------------------------------------------------
  // The lease object
  // ---------------------------------------------------------------------------------------------

  class LeaseFile {
    var content: Content

    constructor (content: Content)
      ensures this.content == content
    {
      this.content := content;
    }
  }

  /** The process-wide registry of live lease holders. */
  class Registry {
    const pid: int
    const host: string
    var live: set<string>

    constructor (pid: int, host: string)
      ensures this.pid == pid && this.host == host && live == {}
    {
      this.pid, this.host, live := pid, host, {};
    }
  }

  /** What other processes did to the file before our next access to it. */
  datatype Meanwhile = Nothing | Becomes(content: Content)

  datatype AcquireError = Held(holder: Record, ageMs: int) | CouldNotAcquire

  class Lease {
    const file: LeaseFile
    const registry: Registry
    const staleMs: int
    var record: Content

    constructor (file: LeaseFile, registry: Registry, staleMs: int)
      ensures this.file == file && this.registry == registry && this.staleMs == staleMs && record == None
    {
      this.file, this.registry, this.staleMs, record := file, registry, staleMs, None;
    }

    method Interfere(m: Meanwhile)
      modifies file
      ensures file.content == match m case Nothing => old(file.content) case Becomes(c) => c
    {
      match m
      case Nothing =>
      case Becomes(c) => file.content := c;
    }

    /** Three file accesses per attempt and one at the end, each preceded by whatever other processes
        did, and a clock reading for each attempt and at the end. A success means our record is in the
        file; a failure changes nothing of ours. Without interference it succeeds exactly when the file is
        absent, its heartbeat older than `staleMs`, or left by a process of this pid and host that does not
        know it. */
    method Acquire(kind: Kind, holderId: string, startedAt: int, readings: seq<int>, others: seq<Meanwhile>)
      returns (r: Result<Record, AcquireError>)
      requires |others| == 7 && |readings| == 3
      modifies this, file, registry
      ensures r.Ok? ==>
                && r.value == Record(holderId, kind, registry.pid, registry.host, startedAt, startedAt)
                && file.content == Some(r.value) && record == Some(r.value)
                && registry.live == old(registry.live) + {holderId}
      ensures r.Err? ==> record == old(record) && registry.live == old(registry.live)
      ensures (forall i :: 0 <= i < 7 ==> others[i] == Nothing) ==>
                && (r.Ok? <==> old(file.content).None?
                               || readings[0] - old(file.content).value.heartbeatAt > staleMs
                               || (&& old(file.content).value.pid == registry.pid
                                   && old(file.content).value.host == registry.host
                                   && old(file.content).value.holderId !in old(registry.live)))
                && (r.Err? ==> file.content == old(file.content)
                               && r.error == Held(file.content.value, readings[0] - file.content.value.heartbeatAt))
    {
      var mine := Record(holderId, kind, registry.pid, registry.host, startedAt, startedAt);
      ghost var quiet := forall i :: 0 <= i < 7 ==> others[i] == Nothing;
      ghost var takeable := old(file.content).None?
        || MayTakeOver(old(file.content).value, readings[0], staleMs, registry.pid, registry.host, old(registry.live));
      var attempt := 0;
      while attempt < 2
        invariant 0 <= attempt <= 2
        invariant record == old(record) && registry.live == old(registry.live)
        invariant quiet && attempt == 0 ==> file.content == old(file.content)
        invariant quiet && attempt == 1 ==> file.content == None && takeable
        invariant quiet ==> attempt < 2
      {
        Interfere(others[3 * attempt]);
        if file.content.None? {
          file.content := Some(mine);
          record := Some(mine);
          registry.live := registry.live + {holderId};
          return Ok(mine);
        }
        Interfere(others[3 * attempt + 1]);
        var current := file.content;
        if current.Some? {
          var age := readings[attempt] - current.value.heartbeatAt;
          if !(age > staleMs) && !IsDeadPredecessor(current.value, registry.pid, registry.host, registry.live) {
            return Err(Held(current.value, age));
          }
          Interfere(others[3 * attempt + 2]);
          RemoveStale(current.value);
        }
        attempt := attempt + 1;
      }
      Interfere(others[6]);
      if file.content.Some? {
        return Err(Held(file.content.value, readings[2] - file.content.value.heartbeatAt));
      }
      r := Err(CouldNotAcquire);
    }

    method RemoveStale(stale: Record)
      modifies file
      ensures file.content == AfterRemoveStale(old(file.content), stale)
    {
      var current := file.content;
      if current.None? || current.value.holderId != stale.holderId || current.value.heartbeatAt != stale.heartbeatAt {
        return;
      }
      file.content := None;
    }

    method Renew(now: int) returns (owned: bool)
      modifies this, file
      ensures owned == (old(record).Some? && HeldBy(old(file.content), old(record).value.holderId))
      ensures record == if owned then Some(old(record).value.(heartbeatAt := now)) else old(record)
      ensures file.content == if old(record).Some? then AfterRenew(old(file.content), old(record).value, now)
                              else old(file.content)
    {
      if record.None? {
        return false;
      }
      var current := file.content;
      if current.None? || current.value.holderId != record.value.holderId {
        return false;
      }
      var renewed := record.value.(heartbeatAt := now);
      file.content := Some(renewed);
      record := Some(renewed);
      owned := true;
    }

    method Release()
      modifies this, file, registry
      ensures record == None
      ensures registry.live == if old(record).Some? then old(registry.live) - {old(record).value.holderId}
                               else old(registry.live)
      ensures file.content == if old(record).Some? then AfterRelease(old(file.content), old(record).value.holderId)
                              else old(file.content)
    {
      if record.None? {
        return;
      }
      registry.live := registry.live - {record.value.holderId};
      var current := file.content;
      if current.Some? && current.value.holderId == record.value.holderId {
        file.content := None;
      }
      record := None;
    }
  }

  // ---------------------------------------------------------------------------------------------
  // The protocol
  // ---------------------------------------------------------------------------------------------

  /** Where one `acquire` call and the lease it may win stand. */
  datatype Phase =
    | Creating(attempt: nat)
    | Reading(attempt: nat)
    | Removing(attempt: nat, judged: Record)
    | Closing
    | Holding
    | Refused
    | Released

  /** One acquire call. While Holding, `record` is the holder's own copy of its lease. */
  datatype Session = Session(process: nat, record: Record, phase: Phase)

  datatype Process = Process(pid: int, host: string, alive: bool, live: set<string>)

  /** Sessions are named by their holder id. */
  datatype World = World(now: int, file: Content, sessions: map<string, Session>, processes: map<nat, Process>)

  datatype Action =
    | Tick(ms: nat)
    | Spawn(process: nat, pid: int, host: string)
    | Crash(process: nat)
    | Begin(id: string, process: nat, kind: Kind)
    | Create(id: string)
    | Read(id: string)
    | Remove(id: string)
    | Close(id: string)
    | Renew(id: string)
    | Release(id: string)

  function Initial(now: int): World {
    World(now, None, map[], map[])
  }

  predicate Runs(w: World, id: string) {
    id in w.sessions && w.sessions[id].process in w.processes && w.processes[w.sessions[id].process].alive
  }

  function NextAttempt(attempt: nat): Phase {
    if attempt + 1 < 2 then Creating(attempt + 1) else Closing
  }

  /** Process ids (pid, host) are unique among live processes, holder ids among all sessions ever. */
  predicate Enabled(w: World, a: Action) {
    match a
    case Tick(_) => true
    case Spawn(p, pid, host) =>
      p !in w.processes
      && forall q :: q in w.processes ==>
           !(w.processes[q].alive && w.processes[q].pid == pid && w.processes[q].host == host)
    case Crash(p) => p in w.processes
    case Begin(id, p, _) => id !in w.sessions && p in w.processes && w.processes[p].alive
    case Create(id) => Runs(w, id) && w.sessions[id].phase.Creating?
    case Read(id) => Runs(w, id) && w.sessions[id].phase.Reading?
    case Remove(id) => Runs(w, id) && w.sessions[id].phase.Removing?
    case Close(id) => Runs(w, id) && w.sessions[id].phase.Closing?
    case Renew(id) => Runs(w, id) && w.sessions[id].phase.Holding?
    case Release(id) => Runs(w, id) && w.sessions[id].phase.Holding?
  }

  function WithPhase(w: World, id: string, phase: Phase): World
    requires id in w.sessions
  {
    w.(sessions := w.sessions[id := w.sessions[id].(phase := phase)])
  }

  function WithLive(w: World, p: nat, live: set<string>): World
    requires p in w.processes
  {
    w.(processes := w.processes[p := w.processes[p].(live := live)])
  }

  /** One step; an action that is not enabled does nothing. */
  function Step(w: World, a: Action, staleMs: int): World {
    if !Enabled(w, a) then w
    else
      match a
      case Tick(ms) => w.(now := w.now + ms)
      case Spawn(p, pid, host) => w.(processes := w.processes[p := Process(pid, host, true, {})])
      case Crash(p) => w.(processes := w.processes[p := w.processes[p].(alive := false)])
      case Begin(id, p, kind) =>
        var proc := w.processes[p];
        w.(sessions := w.sessions[id := Session(p, Record(id, kind, proc.pid, proc.host, w.now, w.now), Creating(0))])
      case Create(id) =>
        var s := w.sessions[id];
        if w.file.None? then
          WithLive(WithPhase(w.(file := AfterCreate(w.file, s.record)), id, Holding),
                   s.process, w.processes[s.process].live + {id})
        else WithPhase(w, id, Reading(s.phase.attempt))
      case Read(id) =>
        var s := w.sessions[id];
        var proc := w.processes[s.process];
        if w.file.None? then WithPhase(w, id, NextAttempt(s.phase.attempt))
        else if MayTakeOver(w.file.value, w.now, staleMs, proc.pid, proc.host, proc.live) then
          WithPhase(w, id, Removing(s.phase.attempt, w.file.value))
        else WithPhase(w, id, Refused)
      case Remove(id) =>
        var s := w.sessions[id];
        WithPhase(w.(file := AfterRemoveStale(w.file, s.phase.judged)), id, NextAttempt(s.phase.attempt))
      case Close(id) => WithPhase(w, id, Refused)
      case Renew(id) =>
        var s := w.sessions[id];
        if HeldBy(w.file, id) then
          w.(file := AfterRenew(w.file, s.record, w.now),
             sessions := w.sessions[id := s.(record := s.record.(heartbeatAt := w.now))])
        else w
      case Release(id) =>
        var s := w.sessions[id];
        WithLive(WithPhase(w.(file := AfterRelease(w.file, id)), id, Released),
                 s.process, w.processes[s.process].live - {id})
  }

  function Execute(w: World, actions: seq<Action>, staleMs: int): World
    decreases |actions|
  {
    if |actions| == 0 then w else Execute(Step(w, actions[0], staleMs), actions[1..], staleMs)
  }

  /** What `renew` answers: whether the file still carries our holder id. */
  predicate RenewAnswers(w: World, id: string) {
    HeldBy(w.file, id)
  }

  /** A running holder whose last heartbeat is at most `staleMs` old. */
  predicate FreshHolder(w: World, id: string, staleMs: int) {
    Runs(w, id) && w.sessions[id].phase.Holding? && !IsStale(w.sessions[id].record, w.now, staleMs)
  }

  // ---------------------------------------------------------------------------------------------
  // Mutual exclusion
  // ---------------------------------------------------------------------------------------------

  ghost predicate SessionSound(w: World, id: string, staleMs: int)
    requires id in w.sessions
  {
    var s := w.sessions[id];
    && s.record.holderId == id
    && s.process in w.processes
    && s.record.pid == w.processes[s.process].pid
    && s.record.host == w.processes[s.process].host
    && (s.phase.Holding? <==> id in w.processes[s.process].live)
    && (FreshHolder(w, id, staleMs) ==> w.file == Some(s.record))
    && (s.phase.Removing? ==> Takeable(w, s.phase.judged, staleMs))
  }

  /** A judgement that stays true: the record is stale, or the process that wrote it is gone. */
  ghost predicate Takeable(w: World, judged: Record, staleMs: int) {
    && judged.holderId in w.sessions
    && (IsStale(judged, w.now, staleMs) || !Runs(w, judged.holderId))
  }

  /** The file holds the very record that its holder has in memory. */
  ghost predicate FileSound(w: World) {
    w.file.Some? ==>
      && w.file.value.holderId in w.sessions
      && w.sessions[w.file.value.holderId].phase.Holding?
      && w.sessions[w.file.value.holderId].record == w.file.value
  }

  ghost predicate ProcessesSound(w: World) {
    LiveSound(w) && NoClash(w)
  }

  /** The ids a process calls its own are sessions of it. */
  ghost predicate LiveSound(w: World) {
    forall p, x :: p in w.processes && x in w.processes[p].live ==> x in w.sessions && w.sessions[x].process == p
  }

  ghost predicate NoClash(w: World) {
    forall p, q :: p in w.processes && q in w.processes && p != q ==> !Clash(w.processes[p], w.processes[q])
  }

  ghost predicate Sound(w: World, staleMs: int) {
    && (forall id :: id in w.sessions ==> SessionSound(w, id, staleMs))
    && FileSound(w)
    && ProcessesSound(w)
  }

  /** Two running processes that a lease record could not tell apart. */
  predicate Clash(p: Process, q: Process) {
    p.alive && q.alive && p.pid == q.pid && p.host == q.host
  }

  /** A dead-predecessor judgement is right: the writer's process is no longer running. */
  lemma DeadPredecessorIsDead(w: World, id: string, staleMs: int)
    requires Sound(w, staleMs) && Runs(w, id) && w.file.Some?
    requires var proc := w.processes[w.sessions[id].process];
             IsDeadPredecessor(w.file.value, proc.pid, proc.host, proc.live)
    ensures w.file.value.holderId in w.sessions && !Runs(w, w.file.value.holderId)
  {
    var writer := w.file.value.holderId;
    assert SessionSound(w, writer, staleMs) && SessionSound(w, id, staleMs);
  }

  /** The session that an action belongs to, if any. */
  function Actor(a: Action): Option<string> {
    match a
    case Tick(_) => None
    case Spawn(_, _, _) => None
    case Crash(_) => None
    case Begin(id, _, _) => Some(id)
    case Create(id) => Some(id)
    case Read(id) => Some(id)
    case Remove(id) => Some(id)
    case Close(id) => Some(id)
    case Renew(id) => Some(id)
    case Release(id) => Some(id)
  }

  lemma EnvironmentKeepsSessionSound(w: World, a: Action, staleMs: int, id: string)
    requires Sound(w, staleMs) && id in w.sessions && Actor(a).None?
    ensures SessionSound(Step(w, a, staleMs), id, staleMs)
  {
    assert SessionSound(w, id, staleMs);
  }

  lemma BystanderStaysSound(w: World, a: Action, staleMs: int, id: string)
    requires Sound(w, staleMs) && id in w.sessions && Actor(a).Some? && Actor(a).value != id && Enabled(w, a)
    ensures SessionSound(Step(w, a, staleMs), id, staleMs)
  {
    if a.Create? || a.Remove? || a.Renew? || a.Release? {
      WriterSparesBystander(w, a, staleMs, id);
    } else {
      ReaderSparesBystander(w, a, staleMs, id);
    }
  }

  lemma ReaderSparesBystander(w: World, a: Action, staleMs: int, id: string)
    requires Sound(w, staleMs) && id in w.sessions && Actor(a).Some? && Actor(a).value != id && Enabled(w, a)
    requires a.Begin? || a.Read? || a.Close?
    ensures SessionSound(Step(w, a, staleMs), id, staleMs)
  {
    assert SessionSound(w, id, staleMs);
  }

  lemma WriterSparesBystander(w: World, a: Action, staleMs: int, id: string)
    requires Sound(w, staleMs) && id in w.sessions && Actor(a).Some? && Actor(a).value != id && Enabled(w, a)
    requires a.Create? || a.Remove? || a.Renew? || a.Release?
    ensures SessionSound(Step(w, a, staleMs), id, staleMs)
  {
    assert SessionSound(w, id, staleMs);
    if Actor(a).value in w.sessions {
      assert SessionSound(w, Actor(a).value, staleMs);
    }
  }

  lemma ActorStaysSound(w: World, a: Action, staleMs: int, id: string)
    requires Sound(w, staleMs) && Actor(a) == Some(id) && Enabled(w, a)
    ensures SessionSound(Step(w, a, staleMs), id, staleMs)
  {
    if id in w.sessions {
      assert SessionSound(w, id, staleMs);
    }
    if a.Read? && w.file.Some? {
      var proc := w.processes[w.sessions[id].process];
      if IsDeadPredecessor(w.file.value, proc.pid, proc.host, proc.live) {
        DeadPredecessorIsDead(w, id, staleMs);
      }
    }
  }

  lemma StepKeepsFileSound(w: World, a: Action, staleMs: int)
    requires Sound(w, staleMs)
    ensures FileSound(Step(w, a, staleMs))
  {
    if Enabled(w, a) && (a.Create? || a.Renew? || a.Release?) {
      assert SessionSound(w, a.id, staleMs);
    }
  }

  lemma StepKeepsLiveSound(w: World, a: Action, staleMs: int)
    requires LiveSound(w)
    ensures LiveSound(Step(w, a, staleMs))
  {
  }

  lemma StepKeepsNoClash(w: World, a: Action, staleMs: int)
    requires NoClash(w)
    ensures NoClash(Step(w, a, staleMs))
  {
  }

  lemma StepKeepsSound(w: World, a: Action, staleMs: int)
    requires Sound(w, staleMs)
    ensures Sound(Step(w, a, staleMs), staleMs)
  {
    forall id | id in Step(w, a, staleMs).sessions
      ensures SessionSound(Step(w, a, staleMs), id, staleMs)
    {
      if !Enabled(w, a) {
      } else if Actor(a).None? {
        EnvironmentKeepsSessionSound(w, a, staleMs, id);
      } else if Actor(a).value == id {
        ActorStaysSound(w, a, staleMs, id);
      } else {
        BystanderStaysSound(w, a, staleMs, id);
      }
    }
    StepKeepsFileSound(w, a, staleMs);
    StepKeepsLiveSound(w, a, staleMs);
    StepKeepsNoClash(w, a, staleMs);
  }

  lemma {:induction false} RunKeepsSound(w: World, actions: seq<Action>, staleMs: int)
    requires Sound(w, staleMs)
    ensures Sound(Execute(w, actions, staleMs), staleMs)
    decreases |actions|
  {
    if |actions| > 0 {
      StepKeepsSound(w, actions[0], staleMs);
      RunKeepsSound(Step(w, actions[0], staleMs), actions[1..], staleMs);
    }
  }

  /** Mutual exclusion: in every run of any number of processes, a fresh holder's own record is what
      the file holds, so there are never two fresh holders. */
  lemma MutualExclusion(start: int, actions: seq<Action>, staleMs: int, id: string, other: string)
    ensures var w := Execute(Initial(start), actions, staleMs);
            && (FreshHolder(w, id, staleMs) ==> w.file == Some(w.sessions[id].record))
            && (FreshHolder(w, id, staleMs) && FreshHolder(w, other, staleMs) ==> id == other)
  {
    RunKeepsSound(Initial(start), actions, staleMs);
    var w := Execute(Initial(start), actions, staleMs);
    if FreshHolder(w, id, staleMs) {
      assert SessionSound(w, id, staleMs);
    }
    if FreshHolder(w, other, staleMs) {
      assert SessionSound(w, other, staleMs);
    }
  }

  // ---------------------------------------------------------------------------------------------
  // Lost leases stay lost, crashed owners are replaced
  // ---------------------------------------------------------------------------------------------

  /** A holder whose record is no longer in the file, or that let go. */
  predicate Lost(w: World, id: string) {
    && id in w.sessions
    && (w.sessions[id].phase.Holding? || w.sessions[id].phase.Released?)
    && !HeldBy(w.file, id)
  }

  lemma StepKeepsLost(w: World, a: Action, staleMs: int, id: string)
    requires Sound(w, staleMs) && Lost(w, id)
    ensures Lost(Step(w, a, staleMs), id)
  {
    if a.Create? && Enabled(w, a) {
      assert SessionSound(w, a.id, staleMs);
    }
  }

  /** Once a holder's record was replaced or removed, then whatever happens later every `renew` of that
      holder answers no, and its `release` leaves the file as it is. */
  lemma {:induction false} LostStaysLost(w: World, actions: seq<Action>, staleMs: int, id: string)
    requires Sound(w, staleMs) && Lost(w, id)
    ensures var later := Execute(w, actions, staleMs);
            && Lost(later, id)
            && !RenewAnswers(later, id)
            && Step(later, Renew(id), staleMs) == later
            && Step(later, Release(id), staleMs).file == later.file
    decreases |actions|
  {
    if |actions| > 0 {
      StepKeepsSound(w, actions[0], staleMs);
      StepKeepsLost(w, actions[0], staleMs, id);
      LostStaysLost(Step(w, actions[0], staleMs), actions[1..], staleMs, id);
    }
  }

  /** The steps of one `acquire` with nobody else at work, and time passing in between. */
  function LoneAcquire(id: string, process: nat, kind: Kind, t: nat, u: nat): seq<Action> {
    [Begin(id, process, kind), Create(id), Tick(t), Read(id), Tick(u), Remove(id), Create(id)]
  }

  /** A contender's first create succeeds on a free file and otherwise leads to a read. */
  lemma FirstAttempt(w: World, staleMs: int, id: string, process: nat, kind: Kind)
    requires process in w.processes && w.processes[process].alive && id !in w.sessions
    ensures var w2 := Step(Step(w, Begin(id, process, kind), staleMs), Create(id), staleMs);
            && w2.now == w.now && id in w2.sessions && w2.sessions[id].process == process && Runs(w2, id)
            && (w.file.None? ==> w2.sessions[id].phase == Holding && w2.file == Some(w2.sessions[id].record))
            && (w.file.Some? ==>
                  w2.sessions[id].phase == Reading(0) && w2.file == w.file && w2.processes == w.processes)
  {
  }

  lemma JudgedAfter(w: World, staleMs: int, id: string, t: nat)
    requires id in w.sessions && Runs(w, id)
    ensures var w4 := Step(Step(w, Tick(t), staleMs), Read(id), staleMs);
            && id in w4.sessions && Runs(w4, id) && w4.file == w.file
            && (w.sessions[id].phase == Holding ==> w4.sessions[id] == w.sessions[id])
            && (w.sessions[id].phase == Reading(0) && w.file.Some? ==>
                  var p := w.processes[w.sessions[id].process];
                  w4.sessions[id].phase
                  == if MayTakeOver(w.file.value, w.now + t, staleMs, p.pid, p.host, p.live)
                     then Removing(0, w.file.value)
                     else Refused)
  {
  }

  lemma SecondAttempt(w: World, staleMs: int, id: string, u: nat)
    requires id in w.sessions && Runs(w, id)
    ensures var w7 := Step(Step(Step(w, Tick(u), staleMs), Remove(id), staleMs), Create(id), staleMs);
            && id in w7.sessions
            && (w.sessions[id].phase == Holding || w.sessions[id].phase == Refused ==>
                  w7.file == w.file && w7.sessions[id] == w.sessions[id])
            && (w.file.Some? && w.sessions[id].phase == Removing(0, w.file.value) ==>
                  w7.sessions[id].phase == Holding && w7.file == Some(w7.sessions[id].record))
  {
  }

  /** Crash recovery: from any reachable world, a lone contender on a running process ends up as the
      holder, within two attempts, if the lease is absent, or stale by the time it is read, or of a
      dead predecessor; otherwise it is refused and the file is untouched. */
  lemma LoneContenderAcquiresExactly(w: World, staleMs: int, id: string, process: nat, kind: Kind, t: nat, u: nat)
    requires Sound(w, staleMs)
    requires process in w.processes && w.processes[process].alive && id !in w.sessions
    ensures var p := w.processes[process];
            var takeable := w.file.None? || MayTakeOver(w.file.value, w.now + t, staleMs, p.pid, p.host, p.live);
            var after := Execute(w, LoneAcquire(id, process, kind, t, u), staleMs);
            && id in after.sessions
            && (takeable ==> after.sessions[id].phase == Holding && after.file == Some(after.sessions[id].record))
            && (!takeable ==> after.sessions[id].phase == Refused && after.file == w.file)
  {
    var steps := LoneAcquire(id, process, kind, t, u);
    ExecuteSeven(w, steps, staleMs);
    var w2 := Step(Step(w, steps[0], staleMs), steps[1], staleMs);
    FirstAttempt(w, staleMs, id, process, kind);
    var w4 := Step(Step(w2, steps[2], staleMs), steps[3], staleMs);
    JudgedAfter(w2, staleMs, id, t);
    SecondAttempt(w4, staleMs, id, u);
  }

  lemma ExecuteSeven(w: World, a: seq<Action>, staleMs: int)
    requires |a| == 7
    ensures Execute(w, a, staleMs)
         == Step(Step(Step(Step(Step(Step(Step(w, a[0], staleMs), a[1], staleMs), a[2], staleMs), a[3], staleMs),
                           a[4], staleMs), a[5], staleMs), a[6], staleMs)
  {
    var w1 := Step(w, a[0], staleMs);
    var w2 := Step(w1, a[1], staleMs);
    var w3 := Step(w2, a[2], staleMs);
    var w4 := Step(w3, a[3], staleMs);
    var w5 := Step(w4, a[4], staleMs);
    var w6 := Step(w5, a[5], staleMs);
    assert a[1..][1..] == a[2..] && a[2..][1..] == a[3..] && a[3..][1..] == a[4..];
    assert a[4..][1..] == a[5..] && a[5..][1..] == a[6..] && |a[6..][1..]| == 0;
    assert Execute(w6, a[6..], staleMs) == Step(w6, a[6], staleMs);
    assert Execute(w5, a[5..], staleMs) == Execute(w6, a[6..], staleMs);
    assert Execute(w4, a[4..], staleMs) == Execute(w5, a[5..], staleMs);
    assert Execute(w3, a[3..], staleMs) == Execute(w4, a[4..], staleMs);
    assert Execute(w2, a[2..], staleMs) == Execute(w3, a[3..], staleMs);
    assert Execute(w1, a[1..], staleMs) == Execute(w2, a[2..], staleMs);
  }
}
