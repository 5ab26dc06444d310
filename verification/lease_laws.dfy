/** The lease protocol in terms of its records: heartbeat ages, pids, hosts and who is running. */
module LeaseLaws {
  import opened Wrappers
  import opened OwnerLease

  /** The last heartbeat is more than `staleMs` old at `at`. */
  predicate OlderThan(r: Record, at: int, staleMs: int) {
    at - r.heartbeatAt > staleMs
  }

  /** Exclusive create: the contender holds the lease, with its record in the file and in its process's
      registry, exactly if there was no file; otherwise it goes on to read it. */
  lemma CreateExactly(w: World, staleMs: int, id: string)
    requires Enabled(w, Create(id))
    ensures var s, after := w.sessions[id], Step(w, Create(id), staleMs);
            if w.file == None then
              && after.file == Some(s.record)
              && after.sessions[id].phase == Holding && after.sessions[id].record == s.record
              && after.processes[s.process].live == w.processes[s.process].live + {id}
            else after.file == w.file && after.sessions[id].phase == Reading(s.phase.attempt)
  {
  }

  /** A call begins with a record of its process, as old as the call. */
  lemma BeginExactly(w: World, staleMs: int, id: string, p: nat, kind: Kind)
    requires Enabled(w, Begin(id, p, kind))
    ensures var s := Step(w, Begin(id, p, kind), staleMs).sessions[id];
            && s.record == Record(id, kind, w.processes[p].pid, w.processes[p].host, w.now, w.now)
            && s.process == p && s.phase == Creating(0)
  {
  }

  /** A dead predecessor is taken over at any heartbeat age: a running contender that reads a record of its own
      pid and host whose writer no longer runs goes on to remove it. */
  lemma DeadPredecessorIsTakenOver(w: World, staleMs: int, id: string)
    requires Sound(w, staleMs) && Enabled(w, Read(id)) && w.file.Some?
    requires var own, r := w.processes[w.sessions[id].process], w.file.value;
             r.pid == own.pid && r.host == own.host && !Runs(w, r.holderId)
    ensures var after := Step(w, Read(id), staleMs);
            after.sessions[id].phase == Removing(w.sessions[id].phase.attempt, w.file.value) && after.file == w.file
  {
  }

  /** A stale lease is taken over, whoever wrote it. */
  lemma StaleLeaseIsTakenOver(w: World, staleMs: int, id: string)
    requires Enabled(w, Read(id)) && w.file.Some? && OlderThan(w.file.value, w.now, staleMs)
    ensures var after := Step(w, Read(id), staleMs);
            after.sessions[id].phase == Removing(w.sessions[id].phase.attempt, w.file.value) && after.file == w.file
  {
  }

  /** A lease whose holder runs and whose heartbeat is recent is respected by every contender. */
  lemma FreshLeaseIsRespected(w: World, staleMs: int, id: string)
    requires Sound(w, staleMs) && Enabled(w, Read(id)) && w.file.Some?
    requires Runs(w, w.file.value.holderId) && !OlderThan(w.file.value, w.now, staleMs)
    ensures var after := Step(w, Read(id), staleMs);
            after.sessions[id].phase == Refused && after.file == w.file
  {
    assert SessionSound(w, w.file.value.holderId, staleMs);
    assert SessionSound(w, id, staleMs);
  }

  /** A removal takes away the record that was judged, and no other. */
  lemma RemoveExactly(w: World, staleMs: int, id: string)
    requires Enabled(w, Remove(id))
    ensures var judged := w.sessions[id].phase.judged;
            var same := w.file.Some? && w.file.value.holderId == judged.holderId
                        && w.file.value.heartbeatAt == judged.heartbeatAt;
            Step(w, Remove(id), staleMs).file == if same then None else w.file
  {
  }

  /** Mutual exclusion, in heartbeats: a running holder whose last heartbeat is at most `staleMs` old has its
      own record in the file. */
  lemma RecentHolderHasTheFile(start: int, actions: seq<Action>, staleMs: int, id: string)
    ensures var w := Execute(Initial(start), actions, staleMs);
            Runs(w, id) && w.sessions[id].phase == Holding && !OlderThan(w.sessions[id].record, w.now, staleMs) ==>
              w.file == Some(w.sessions[id].record)
  {
    MutualExclusion(start, actions, staleMs, id, id);
  }

  /** A renewal by the owner makes the heartbeat now, in memory and in the file, and nothing else; anybody
      else's changes nothing. */
  lemma RenewExactly(w: World, staleMs: int, id: string)
    requires Sound(w, staleMs) && Enabled(w, Renew(id))
    ensures var mine, after := w.sessions[id].record, Step(w, Renew(id), staleMs);
            if w.file.Some? && w.file.value.holderId == id then
              && after.file == Some(Record(id, mine.kind, mine.pid, mine.host, mine.acquiredAt, w.now))
              && after.sessions[id].record.heartbeatAt == w.now && after.sessions[id].phase == Holding
            else after == w
  {
    assert SessionSound(w, id, staleMs);
  }

  /** A release by the owner frees the file; the holder is gone from its process's registry either way. */
  lemma ReleaseExactly(w: World, staleMs: int, id: string)
    requires Enabled(w, Release(id))
    ensures var after := Step(w, Release(id), staleMs);
            && after.file == (if w.file.Some? && w.file.value.holderId == id then None else w.file)
            && after.sessions[id].phase == Released
            && after.processes[w.sessions[id].process].live == w.processes[w.sessions[id].process].live - {id}
  {
  }

  // ---------------------------------------------------------------------------------------------
  // One acquire call
  // ---------------------------------------------------------------------------------------------

  /** Which of its attempts a call is in. */
  function AttemptOf(phase: Phase): nat {
    match phase
    case Creating(a) => a
    case Reading(a) => a
    case Removing(a, _) => a
    case _ => 0
  }

  ghost predicate TwoAttempts(w: World) {
    forall id :: id in w.sessions ==> AttemptOf(w.sessions[id].phase) < 2
  }

  /** No call ever makes a third attempt. */
  lemma {:induction false} AttemptsAreTwo(w: World, actions: seq<Action>, staleMs: int)
    requires TwoAttempts(w)
    ensures TwoAttempts(Execute(w, actions, staleMs))
    decreases |actions|
  {
    if |actions| > 0 {
      StepKeepsTwoAttempts(w, actions[0], staleMs);
      AttemptsAreTwo(Step(w, actions[0], staleMs), actions[1..], staleMs);
    }
  }

  lemma StepKeepsTwoAttempts(w: World, a: Action, staleMs: int)
    requires TwoAttempts(w)
    ensures TwoAttempts(Step(w, a, staleMs))
  {
  }

  /** Who is locked out: a contender finds a record that is neither older than `staleMs` nor left by a process
      of its own pid and host that does not know it. */
  predicate LockedOut(r: Record, at: int, staleMs: int, p: Process) {
    !OlderThan(r, at, staleMs) && !(r.pid == p.pid && r.host == p.host && r.holderId !in p.live)
  }

  /** A lone call, from any reachable world: it ends as the holder, its record in the file, unless it is locked
      out when it reads; then it is refused and the file stays. */
  lemma LoneCallExactly(w: World, staleMs: int, id: string, process: nat, kind: Kind, t: nat, u: nat)
    requires Sound(w, staleMs)
    requires process in w.processes && w.processes[process].alive && id !in w.sessions
    ensures var locked := w.file.Some? && LockedOut(w.file.value, w.now + t, staleMs, w.processes[process]);
            var after := Execute(w, LoneAcquire(id, process, kind, t, u), staleMs);
            && id in after.sessions
            && after.sessions[id].phase == (if locked then Refused else Holding)
            && after.file == (if locked then w.file else Some(after.sessions[id].record))
  {
    LoneContenderAcquiresExactly(w, staleMs, id, process, kind, t, u);
  }

  /** A container that restarts with its old pid and host gets the lease at once, however recent the heartbeat
      of its predecessor. */
  lemma RestartedProcessAcquires(w: World, staleMs: int, id: string, process: nat, kind: Kind, t: nat, u: nat)
    requires Sound(w, staleMs) && w.file.Some?
    requires process in w.processes && w.processes[process].alive && id !in w.sessions
    requires w.file.value.pid == w.processes[process].pid && w.file.value.host == w.processes[process].host
    requires !Runs(w, w.file.value.holderId)
    ensures var after := Execute(w, LoneAcquire(id, process, kind, t, u), staleMs);
            && id in after.sessions && after.sessions[id].phase == Holding
            && after.file == Some(after.sessions[id].record)
  {
    LoneCallExactly(w, staleMs, id, process, kind, t, u);
  }
}
