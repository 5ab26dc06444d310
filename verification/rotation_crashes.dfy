/** Crashes inside a rotation: what each of its four saves leaves behind, when boot accepts it, what is lost,
    and which schedule of anchoring rules a refusal out. */
module RotationCrashes {
  import opened AuditChain
  import opened Pseudonyms
  import opened AuditNode
  import opened AuditRuns

  // ---------------------------------------------------------------------------------------------
  // Every crash point
  // ---------------------------------------------------------------------------------------------

  /** The first number that the archive does not have. */
  function ArchivedUpTo(n: Node): int {
    StartOf(n.segments, |n.segments|)
  }

  /** The last anchor reaches the end of a prefix of the hot ledger, or there is no anchor and the prefix is
      all of it. */
  predicate PrefixIsAnchored(n: Node, count: nat) {
    if |n.anchors| == 0 then count == |n.ledger.entries|
    else n.ledger.baseSeq + count - 1 <= n.anchors[|n.anchors| - 1].seqNo
  }

  /** What is left of a crashed rotation of `count` entries: whether boot accepts it, and how many entries
      are in neither ledger nor archive. */
  ghost predicate CrashOutcome(h: HashFn, n: Node, crashed: Node, count: nat, saves: nat) {
    && (VerifyAfterRestore(h, crashed.ledger, crashed.anchors).valid
        <==> saves >= 2 || PrefixIsAnchored(n, if saves == 0 then 0 else count))
    && crashed.ledger.baseSeq - ArchivedUpTo(crashed) == (if 1 <= saves <= 3 then count else 0)
  }

  /** A crash anywhere inside a rotation, after any run. Only the first save can leave a ledger that boot
      refuses, and does so exactly when no earlier anchor reaches the last entry that left. From the first
      save to the last the rotated entries, and no others, are nowhere. */
  lemma CrashInsideRotation(h: HashFn, mac: Mac, config: RetentionConfig, steps: seq<Step>,
                            now: Timestamp, anchoredAt: int, stampedAt: Timestamp, saves: nat)
    requires saves <= 4
    ensures var n := Execute(h, mac, config, START, steps).node;
            var count := RotateCount(config, n, now.ms);
            count > 0 ==> CrashOutcome(h, n, RotateSaves(h, mac, config, n, now, anchoredAt, stampedAt, saves), count,
                saves)
  {
    RunKeepsSound(h, mac, config, START, steps);
    var r := Execute(h, mac, config, START, steps);
    if RotateCount(config, r.node, now.ms) > 0 {
      RotateSavesInOrder(h, mac, config, r.node, now, anchoredAt, stampedAt);
      match saves
      case 0 => AcceptsExactly(h, r.history, r.node.ledger, r.node.anchors);
      case 1 => CutIsAcceptedExactly(h, r, RotateCount(config, r.node, now.ms));
      case _ => AnchoredIsAccepted(h, mac, config, r, now, anchoredAt, stampedAt, saves);
    }
  }

  lemma CutIsAcceptedExactly(h: HashFn, r: Run, count: nat)
    requires Sound(h, r) && 0 < count <= |r.node.ledger.entries|
    ensures CrashOutcome(h, r.node, Shortened(r.node, count), count, 1)
  {
    RotationMovesTheCut(r.history, r.node.ledger.baseSeq, count);
    AcceptsExactly(h, r.history, WithoutPrefix(r.node.ledger, count), r.node.anchors);
  }

  lemma AnchoredIsAccepted(h: HashFn, mac: Mac, config: RetentionConfig, r: Run,
                           now: Timestamp, anchoredAt: int, stampedAt: Timestamp, saves: nat)
    requires Sound(h, r) && Settled(r) && RotateCount(config, r.node, now.ms) > 0 && 2 <= saves <= 4
    ensures CrashOutcome(h, r.node, RotateSaves(h, mac, config, r.node, now, anchoredAt, stampedAt, saves),
                         RotateCount(config, r.node, now.ms), saves)
  {
    var count := RotateCount(config, r.node, now.ms);
    var rotated := Rotated(r, count, now, anchoredAt);
    RotationKeepsIntact(h, r, count, now, anchoredAt);
    RotateSavesInOrder(h, mac, config, r.node, now, anchoredAt, stampedAt);
    if saves == 2 {
      AcceptsExactly(h, r.history, rotated.node.ledger, rotated.node.anchors);
    } else {
      var event := RotationEvent(SegmentOf(r.node.ledger.entries[..count], now), stampedAt);
      var after := Write(h, mac, rotated, event);
      WriteKeepsSound(h, mac, rotated, event);
      AcceptsExactly(h, after.history, after.node.ledger, after.node.anchors);
    }
  }

  // ---------------------------------------------------------------------------------------------
  // The refusal happens
  // ---------------------------------------------------------------------------------------------

  function SystemEvent(at: int, iso: int -> string): Step {
    Append(SystemCall([], Timestamp(at, iso(at))))
  }

  /** It happens when nothing was anchored: two entries a hot period apart, and a rotation of the first that
      stops after its first save. Boot then refuses. */
  lemma UnanchoredCrashIsRefused(h: HashFn, mac: Mac, config: RetentionConfig, iso: int -> string)
    requires config.Valid()
    ensures var later := config.HotMs() + 1;
            var steps := [SystemEvent(0, iso), SystemEvent(later, iso)];
            var n := Execute(h, mac, config, START, steps).node;
            var at := Timestamp(later, iso(later));
            var crashed := RotateSaves(h, mac, config, n, at, later, at, 1);
            && AllInOrder(config, 0, steps)
            && RotateCount(config, n, later) == 1
            && !VerifyAfterRestore(h, crashed.ledger, crashed.anchors).valid
  {
    var later := config.HotMs() + 1;
    var at := Timestamp(later, iso(later));
    var steps := [SystemEvent(0, iso), SystemEvent(later, iso)];
    TwoSystemEntries(h, mac, config, steps);
    var n := Execute(h, mac, config, START, steps).node;
    AgedCountIs(n.ledger.entries, 1, 1);
    CrashInsideRotation(h, mac, config, steps, at, later, at, 1);
  }

  lemma TwoSystemEntries(h: HashFn, mac: Mac, config: RetentionConfig, steps: seq<Step>)
    requires |steps| == 2 && steps[0].Append? && steps[1].Append?
    ensures var n := Execute(h, mac, config, START, steps).node;
            && n.anchors == [] && |n.ledger.entries| == 2
            && n.ledger.entries[0].timestamp == steps[0].call.stampedAt &&
                 n.ledger.entries[1].timestamp == steps[1].call.stampedAt
    ensures AllInOrder(config, 0, steps) <==>
              InOrder(config, 0, steps[0]) && InOrder(config, ClockAfter(0, steps[0]), steps[1])
  {
    ExecuteTwo(h, mac, config, steps);
    var first := Write(h, mac, START, steps[0].call);
    assert Advance(h, mac, config, START, steps[0]) == first;
    assert Advance(h, mac, config, first, steps[1]) == Write(h, mac, first, steps[1].call);
    OrderOfTwo(config, steps);
  }

  // ---------------------------------------------------------------------------------------------
  // A schedule that rules it out
  // ---------------------------------------------------------------------------------------------

  function LastAnchored(n: Node): int {
    if |n.anchors| == 0 then -1 else n.anchors[|n.anchors| - 1].seqNo
  }

  /** Every entry that the last anchor does not reach was stamped at `at` or later. */
  ghost predicate AnchoredUpTo(r: Run, at: int) {
    forall i :: 0 <= i < |r.history| && LastAnchored(r.node) < i ==> r.history[i].timestamp.ms >= at
  }

  /** Up to when a step leaves the entries anchored: an anchor of the head reaches everything before it, a
      rotation anchors no further than what it took. */
  function AnchoredAfter(config: RetentionConfig, at: int, step: Step): int {
    match step
    case AnchorHead(now, _) => now
    case OperatorCommand(c, _) => c.stampedAt.ms
    case Retain(now, _, _) => now.ms - config.HotMs()
    case _ => at
  }

  /** Each cycle comes less than the hot period after the head was last anchored, with no other cycle in
      between. A server keeps to it: it anchors at start, before its first cycle, and then six times for
      every cycle, while the hot period is at least a day. */
  predicate Scheduled(config: RetentionConfig, at: int, steps: seq<Step>)
    decreases |steps|
  {
    |steps| == 0 ||
    (&& (steps[0].Retain? ==> steps[0].now.ms - config.HotMs() <= at)
     && Scheduled(config, AnchoredAfter(config, at, steps[0]), steps[1..]))
  }

  function AnchoredAtEnd(config: RetentionConfig, at: int, steps: seq<Step>): int
    decreases |steps|
  {
    if |steps| == 0 then at else AnchoredAtEnd(config, AnchoredAfter(config, at, steps[0]), steps[1..])
  }

  /** No two entries of the history have the same hash. */
  ghost predicate DistinctHashes(history: seq<Entry>) {
    forall i, j :: 0 <= i < j < |history| ==> history[i].hash != history[j].hash
  }

  /** What a run under a forward clock keeps. */
  ghost predicate Kept(h: HashFn, r: Run, clock: int, at: int) {
    Sound(h, r) && Settled(r) && Timed(r, clock, at)
  }

  ghost predicate Timed(r: Run, clock: int, at: int) {
    Chronological(r.history, clock) && AnchoredUpTo(r, at) && at <= clock
  }

  lemma WritingKeepsAnchored(h: HashFn, mac: Mac, r: Run, c: AppendCall, clock: int, at: int)
    requires Timed(r, clock, at) && clock <= c.stampedAt.ms
    ensures Timed(Write(h, mac, r, c), c.stampedAt.ms, at)
  {
  }

  /** An anchor of the head leaves nothing behind it. */
  lemma AnchoringKeepsTimed(h: HashFn, r: Run, now: int, clock: int, upTo: int)
    requires Sound(h, r) && Chronological(r.history, clock) && clock <= now && upTo <= now &&
               |r.node.ledger.entries| > 0
    ensures Timed(Anchored(r, now), now, upTo)
  {
    assert HeadSeq(r.node.ledger) == |r.history| - 1;
  }

  lemma UnmovedHeadIsAnchored(h: HashFn, r: Run)
    requires Sound(h, r) && Settled(r) && DistinctHashes(r.history) && !HeadNeedsAnchor(r.node)
    ensures LastAnchored(r.node) == |r.history| - 1
  {
    if |r.history| > 0 {
      var last := |r.history| - 1;
      assert r.node.ledger.entries[|r.node.ledger.entries| - 1] == r.history[last];
      assert GenuineAt(h, r.history, last);
      assert r.history[LastAnchored(r.node)].hash == r.history[last].hash;
    }
  }

  lemma AnchoringHeadKeeps(h: HashFn, mac: Mac, r: Run, now: int, stampedAt: Timestamp, clock: int, at: int)
    requires Kept(h, r, clock, at) && clock <= now <= stampedAt.ms && DistinctHashes(r.history)
    ensures var event := AnchorEvent(HeadAnchor(r.node.ledger, now), stampedAt);
            var after := if HeadNeedsAnchor(r.node) then Write(h, mac, Anchored(r, now), event) else r;
            Timed(after, stampedAt.ms, now)
  {
    if HeadNeedsAnchor(r.node) {
      AnchoringKeepsTimed(h, r, now, clock, now);
      WritingKeepsAnchored(h, mac, Anchored(r, now), AnchorEvent(HeadAnchor(r.node.ledger, now), stampedAt), now, now);
    } else {
      UnmovedHeadIsAnchored(h, r);
    }
  }

  lemma RotatingKeeps(h: HashFn, mac: Mac, config: RetentionConfig, r: Run, now: Timestamp, anchoredAt: int,
                      stampedAt: Timestamp, clock: int, at: int)
    requires config.Valid() && Kept(h, r, clock, at) && clock <= now.ms <= anchoredAt <= stampedAt.ms
    requires now.ms - config.HotMs() <= at
    ensures var after := RotateRun(h, mac, config, r, now, anchoredAt, stampedAt);
            Timed(after, stampedAt.ms, now.ms - config.HotMs())
  {
    var cutoff := now.ms - config.HotMs();
    var count := RotateCount(config, r.node, now.ms);
    if count > 0 {
      var rotated := Rotated(r, count, now, anchoredAt);
      RotationKeepsIntact(h, r, count, now, anchoredAt);
      SegmentIsGenuine(h, r, count, now);
      forall i | r.node.ledger.baseSeq + count <= i < |r.history|
        ensures r.history[i].timestamp.ms >= cutoff
      {
        HotIsRecent(h, config, r, clock, now.ms, i);
      }
      assert Timed(rotated, now.ms, cutoff);
      WritingKeepsAnchored(h, mac, rotated, RotationEvent(SegmentOf(r.node.ledger.entries[..count], now), stampedAt),
          now.ms, cutoff);
    }
  }

  lemma StepKeepsAnchored(h: HashFn, mac: Mac, config: RetentionConfig, r: Run, step: Step, clock: int, at: int)
    requires config.Valid() && Kept(h, r, clock, at) && DistinctHashes(r.history) && InOrder(config, clock, step)
    requires step.Retain? ==> step.now.ms - config.HotMs() <= at
    ensures Kept(h, Advance(h, mac, config, r, step), ClockAfter(clock, step), AnchoredAfter(config, at, step))
  {
    StepKeepsSound(h, mac, config, r, step);
    StepKeepsTimed(h, mac, config, r, step, clock, at);
  }

  lemma SameHistory(r: Run, r': Run, clock: int, at: int)
    requires Timed(r, clock, at) && r'.history == r.history && r'.node.anchors == r.node.anchors
    ensures Timed(r', clock, at)
  {
  }

  lemma StepKeepsTimed(h: HashFn, mac: Mac, config: RetentionConfig, r: Run, step: Step, clock: int, at: int)
    requires config.Valid() && Kept(h, r, clock, at) && DistinctHashes(r.history) && InOrder(config, clock, step)
    requires step.Retain? ==> step.now.ms - config.HotMs() <= at
    ensures Timed(Advance(h, mac, config, r, step), ClockAfter(clock, step), AnchoredAfter(config, at, step))
  {
    var after := Advance(h, mac, config, r, step);
    match step
    case Append(c) =>
      WritingKeepsAnchored(h, mac, r, c, clock, at);
    case AnchorHead(now, stampedAt) =>
      AnchoringHeadKeeps(h, mac, r, now, stampedAt, clock, at);
    case OperatorCommand(c, anchoredAt) =>
      WritingKeepsAnchored(h, mac, r, c, clock, at);
      WriteKeepsSound(h, mac, r, c);
      AnchoringKeepsTimed(h, Write(h, mac, r, c), anchoredAt, c.stampedAt.ms, c.stampedAt.ms);
    case Retain(now, anchoredAt, stampedAt) =>
      var rotated := RotateRun(h, mac, config, r, now, anchoredAt, stampedAt);
      RotatingKeeps(h, mac, config, r, now, anchoredAt, stampedAt, clock, at);
      SameHistory(rotated, Retired(config, rotated, now.ms), stampedAt.ms, now.ms - config.HotMs());
    case Erase(buyer) =>
      SameHistory(r, after, clock, at);
    case Restart =>
      SameHistory(r, after, clock, at);
  }

  lemma {:induction false} RunKeepsAnchored(h: HashFn, mac: Mac, config: RetentionConfig, r: Run, steps: seq<Step>,
                                            clock: int, at: int)
    requires config.Valid() && Kept(h, r, clock, at) && AllInOrder(config, clock, steps) && Scheduled(config, at, steps)
    requires DistinctHashes(Execute(h, mac, config, r, steps).history)
    ensures Kept(h, Execute(h, mac, config, r, steps), ClockAtEnd(clock, steps), AnchoredAtEnd(config, at, steps))
    decreases |steps|
  {
    if |steps| > 0 {
      NothingIsRewritten(h, mac, config, r, steps);
      assert DistinctHashes(r.history);
      StepKeepsAnchored(h, mac, config, r, steps[0], clock, at);
      RunKeepsAnchored(h, mac, config, Advance(h, mac, config, r, steps[0]), steps[1..], ClockAfter(clock, steps[0]),
                       AnchoredAfter(config, at, steps[0]));
    }
  }

  /** Under the schedule a crash anywhere inside any rotation leaves a ledger that boot accepts, unless two
      entries of the node's own history share a hash. */
  lemma ScheduledCrashIsAccepted(h: HashFn, mac: Mac, config: RetentionConfig, clock: int, steps: seq<Step>,
                                 now: Timestamp, anchoredAt: int, stampedAt: Timestamp, saves: nat)
    requires config.Valid() && saves <= 4
    requires AllInOrder(config, clock, steps) && Scheduled(config, clock, steps + [Retain(now, anchoredAt, stampedAt)])
    requires ClockAtEnd(clock, steps) <= now.ms
    ensures var r := Execute(h, mac, config, START, steps);
            var crashed := RotateSaves(h, mac, config, r.node, now, anchoredAt, stampedAt, saves);
            RotateCount(config, r.node, now.ms) > 0 && DistinctHashes(r.history) ==>
              VerifyAfterRestore(h, crashed.ledger, crashed.anchors).valid
  {
    var r := Execute(h, mac, config, START, steps);
    var count := RotateCount(config, r.node, now.ms);
    if count > 0 && DistinctHashes(r.history) {
      ScheduledPrefix(config, clock, steps, Retain(now, anchoredAt, stampedAt));
      RunKeepsAnchored(h, mac, config, START, steps, clock, clock);
      RotatedIsAnchored(h, config, r, now.ms, ClockAtEnd(clock, steps), AnchoredAtEnd(config, clock, steps));
      CrashInsideRotation(h, mac, config, steps, now, anchoredAt, stampedAt, saves);
    }
  }

  lemma RotatedIsAnchored(h: HashFn, config: RetentionConfig, r: Run, now: int, clock: int, at: int)
    requires Kept(h, r, clock, at) && RotateCount(config, r.node, now) > 0 && now - config.HotMs() <= at
    ensures PrefixIsAnchored(r.node, RotateCount(config, r.node, now)) && PrefixIsAnchored(r.node, 0)
  {
    var last := r.node.ledger.baseSeq + RotateCount(config, r.node, now) - 1;
    assert r.node.ledger.entries[last - r.node.ledger.baseSeq] == r.history[last];
    assert r.history[last].timestamp.ms < at;
  }

  lemma {:induction false} ScheduledPrefix(config: RetentionConfig, at: int, steps: seq<Step>, last: Step)
    requires Scheduled(config, at, steps + [last])
    ensures Scheduled(config, at, steps)
    ensures last.Retain? ==> last.now.ms - config.HotMs() <= AnchoredAtEnd(config, at, steps)
    decreases |steps|
  {
    if |steps| > 0 {
      assert (steps + [last])[1..] == steps[1..] + [last];
      ScheduledPrefix(config, AnchoredAfter(config, at, steps[0]), steps[1..], last);
    }
  }
}
