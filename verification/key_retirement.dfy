/** Retirement of inactive pseudonym keys over every run of the audit trail: what a retention cycle leaves
    behind, and what a restart forgets. */
module KeyRetirement {
  import opened Wrappers
  import opened AuditChain
  import opened Pseudonyms
  import opened AuditNode
  import opened AuditRuns

  /** A key still in the store was used at most one archive period before every entry from number
      `since` on that was written under it. */
  ghost predicate KeysAreRecent(config: RetentionConfig, r: Run, since: nat) {
    forall i, b, k ::
      since <= i < |r.history| && i < |r.writtenUnder| && (b, k) in r.writtenUnder[i] && b in r.node.keys &&
          r.node.keys[b].key == k
      ==> r.history[i].timestamp.ms - config.ArchiveMs() <= r.node.keys[b].lastUsedAt
  }

  /** No key was used after `clock`. */
  ghost predicate KeysBefore(keys: Keys, clock: int) {
    forall b :: b in keys ==> keys[b].lastUsedAt <= clock
  }

  /** The saved store has the same keys, and nothing newer about their use. */
  ghost predicate SavedBehind(keys: Keys, file: Keys) {
    && file.Keys == keys.Keys
    && forall b :: b in keys ==> file[b].key == keys[b].key && file[b].lastUsedAt <= keys[b].lastUsedAt
  }

  /** `since` is the number of the first entry of the present process run. */
  ghost predicate Timely(config: RetentionConfig, r: Run, clock: int, since: nat) {
    && |r.writtenUnder| == |r.history|
    && Chronological(r.history, clock)
    && KeysAreRecent(config, r, since)
    && KeysBefore(r.node.keys, clock)
    && SavedBehind(r.node.keys, r.node.keyFile)
  }

  /** Using a key never makes it look older. */
  lemma TouchingIsForward(keys: Keys, c: AppendCall, config: RetentionConfig, clock: int)
    requires KeysBefore(keys, clock) && CallInOrder(config, clock, c)
    ensures KeysBefore(KeysAfter(keys, c), c.stampedAt.ms)
    ensures forall b :: b in KeysAfter(keys, c) ==>
              || (b in keys && KeysAfter(keys, c)[b] == keys[b])
              || KeysAfter(keys, c)[b].lastUsedAt >= c.payloadKeyAt
    ensures forall b, k :: (b, k) in UsedBy(keys, c) && b in KeysAfter(keys, c) ==>
              KeysAfter(keys, c)[b].lastUsedAt >= c.payloadKeyAt
  {
  }

  lemma SavingStaysBehind(keys: Keys, file: Keys, c: AppendCall, config: RetentionConfig, clock: int)
    requires KeysBefore(keys, clock) && SavedBehind(keys, file) && CallInOrder(config, clock, c)
    ensures SavedBehind(KeysAfter(keys, c), KeyFileAfter(keys, file, c))
  {
    var middle, saved := KeysAfterPayload(keys, c), KeyFileAfterPayload(keys, file, c);
    assert SavedBehind(middle, saved);
    assert KeysBefore(middle, c.payloadKeyAt);
  }

  lemma WriteKeepsTimely(h: HashFn, mac: Mac, config: RetentionConfig, r: Run, clock: int, since: nat, c: AppendCall)
    requires Timely(config, r, clock, since) && CallInOrder(config, clock, c)
    ensures Timely(config, Write(h, mac, r, c), c.stampedAt.ms, since)
  {
    var after := Write(h, mac, r, c);
    TouchingIsForward(r.node.keys, c, config, clock);
    SavingStaysBehind(r.node.keys, r.node.keyFile, c, config, clock);
    forall i, b, k | since <= i < |after.history| && (b, k) in after.writtenUnder[i] && b in after.node.keys &&
        after.node.keys[b].key == k
      ensures after.history[i].timestamp.ms - config.ArchiveMs() <= after.node.keys[b].lastUsedAt
    {
      if i < |r.history| {
        assert after.history[i] == r.history[i] && after.writtenUnder[i] == r.writtenUnder[i];
      }
    }
  }

  /** A restart begins a new process run. */
  function SinceAfter(r: Run, since: nat, step: Step): nat {
    if step.Restart? then |r.history| else since
  }

  lemma RotateRunKeepsTimely(h: HashFn, mac: Mac, config: RetentionConfig, r: Run, clock: int, since: nat,
                             now: Timestamp, anchoredAt: int, stampedAt: Timestamp)
    requires config.Valid() && Timely(config, r, clock, since) && clock <= now.ms <= anchoredAt <= stampedAt.ms
    ensures Timely(config, RotateRun(h, mac, config, r, now, anchoredAt, stampedAt), stampedAt.ms, since)
  {
    var count := RotateCount(config, r.node, now.ms);
    if count > 0 {
      WriteKeepsTimely(h, mac, config, Rotated(r, count, now, anchoredAt), clock, since,
                       RotationEvent(SegmentOf(r.node.ledger.entries[..count], now), stampedAt));
    }
  }

  lemma RetiringKeepsTimely(config: RetentionConfig, r: Run, clock: int, since: nat, now: int)
    requires Timely(config, r, clock, since)
    ensures Timely(config, Retired(config, r, now), clock, since)
  {
  }

  lemma StepKeepsTimely(h: HashFn, mac: Mac, config: RetentionConfig, r: Run, clock: int, since: nat, step: Step)
    requires config.Valid() && Timely(config, r, clock, since) && InOrder(config, clock, step)
    ensures Timely(config, Advance(h, mac, config, r, step), ClockAfter(clock, step), SinceAfter(r, since, step))
  {
    match step
    case Append(c) =>
      WriteKeepsTimely(h, mac, config, r, clock, since, c);
    case AnchorHead(now, stampedAt) =>
      if HeadNeedsAnchor(r.node) {
        WriteKeepsTimely(h, mac, config, Anchored(r, now), clock, since,
            AnchorEvent(HeadAnchor(r.node.ledger, now), stampedAt));
      }
    case OperatorCommand(c, anchoredAt) =>
      WriteKeepsTimely(h, mac, config, r, clock, since, c);
    case Retain(now, anchoredAt, stampedAt) =>
      var rotated := RotateRun(h, mac, config, r, now, anchoredAt, stampedAt);
      RotateRunKeepsTimely(h, mac, config, r, clock, since, now, anchoredAt, stampedAt);
      RetiringKeepsTimely(config, rotated, stampedAt.ms, since, now.ms);
    case Erase(buyer) =>
    case Restart =>
  }

  /** The number of the first entry after the last restart of a run. */
  function SinceAtEnd(h: HashFn, mac: Mac, config: RetentionConfig, r: Run, since: nat, steps: seq<Step>): nat
    decreases |steps|
  {
    if |steps| == 0 then since
    else SinceAtEnd(h, mac, config, Advance(h, mac, config, r, steps[0]), SinceAfter(r, since, steps[0]), steps[1..])
  }

  lemma {:induction false} RunKeepsTimely(h: HashFn, mac: Mac, config: RetentionConfig, r: Run, clock: int,
                                          since: nat, steps: seq<Step>)
    requires config.Valid() && Timely(config, r, clock, since) && AllInOrder(config, clock, steps)
    ensures Timely(config, Execute(h, mac, config, r, steps), ClockAtEnd(clock, steps),
              SinceAtEnd(h, mac, config, r, since, steps))
    decreases |steps|
  {
    if |steps| > 0 {
      StepKeepsTimely(h, mac, config, r, clock, since, steps[0]);
      RunKeepsTimely(h, mac, config, Advance(h, mac, config, r, steps[0]), ClockAfter(clock, steps[0]),
                     SinceAfter(r, since, steps[0]), steps[1..]);
    }
  }

  /** Without a restart the process run is the whole run. */
  lemma {:induction false} OneProcessRun(h: HashFn, mac: Mac, config: RetentionConfig, r: Run, since: nat,
                                         steps: seq<Step>)
    requires forall i :: 0 <= i < |steps| ==> !steps[i].Restart?
    ensures SinceAtEnd(h, mac, config, r, since, steps) == since
    decreases |steps|
  {
    if |steps| > 0 {
      OneProcessRun(h, mac, config, Advance(h, mac, config, r, steps[0]), since, steps[1..]);
    }
  }

  function Max(a: int, b: int): int {
    if a >= b then a else b
  }

  /** An entry of number `from` or later that was written under `key` of `buyer`. */
  ghost predicate HotUnder(r: Run, from: int, buyer: string, key: string) {
    exists i :: 0 <= i < |r.writtenUnder| && from <= i && (buyer, key) in r.writtenUnder[i]
  }

  /** What rotation changes that matters here: where the hot part starts, and that its own log entry
      was written under no key. */
  ghost predicate CutAt(r: Run, rotated: Run, count: nat) {
    && rotated.node.ledger.baseSeq == r.node.ledger.baseSeq + count
    && rotated.writtenUnder == r.writtenUnder + (if count == 0 then [] else [{}])
    && rotated.node.keys == r.node.keys
  }

  lemma RotationCut(h: HashFn, mac: Mac, config: RetentionConfig, r: Run, now: Timestamp, anchoredAt: int,
                    stampedAt: Timestamp)
    ensures CutAt(r, RotateRun(h, mac, config, r, now, anchoredAt, stampedAt), RotateCount(config, r.node, now.ms))
  {
    var count := RotateCount(config, r.node, now.ms);
    if count > 0 {
      var s := SegmentOf(r.node.ledger.entries[..count], now);
      RotationNamesNoBuyer(s, stampedAt);
      assert UsedBy(r.node.keys, RotationEvent(s, stampedAt)) == {};
      assert KeysAfter(r.node.keys, RotationEvent(s, stampedAt)) == r.node.keys;
    }
  }

  lemma RotationNamesNoBuyer(s: Segment, stampedAt: Timestamp)
    ensures RawBuyer(RotationEvent(s, stampedAt).payload).None?
  {
    assert "from_seq"[0] != BUYER_FIELD[0];
    AbsentField(RotationEvent(s, stampedAt).payload, BUYER_FIELD);
  }

  /** A key idle for more than an archive period before an entry did not write that entry. */
  lemma OldKeysWroteNothingNewer(config: RetentionConfig, r: Run, clock: int, since: nat, i: nat, buyer: string)
    requires Timely(config, r, clock, since) && since <= i < |r.history|
    requires buyer in r.node.keys && r.node.keys[buyer].lastUsedAt < r.history[i].timestamp.ms - config.ArchiveMs()
    ensures (buyer, r.node.keys[buyer].key) !in r.writtenUnder[i]
  {
  }

  /** One cycle, from any state a process run can be in. */
  lemma CycleRetiresOnlyColdKeys(h: HashFn, mac: Mac, config: RetentionConfig, r: Run, clock: int, since: nat,
                                 now: Timestamp, anchoredAt: int, stampedAt: Timestamp, buyer: string)
    requires Sound(h, r) && Timely(config, r, clock, since)
    requires buyer in r.node.keys && r.node.keys[buyer].lastUsedAt < now.ms - config.HorizonMs()
    ensures var after := RotateRun(h, mac, config, r, now, anchoredAt, stampedAt);
            !HotUnder(after, Max(after.node.ledger.baseSeq, since), buyer, r.node.keys[buyer].key)
  {
    var base := r.node.ledger.baseSeq;
    var key := r.node.keys[buyer].key;
    var count := RotateCount(config, r.node, now.ms);
    forall i | Max(base + count, since) <= i < |r.writtenUnder|
      ensures (buyer, key) !in r.writtenUnder[i]
    {
      HotIsRecent(h, config, r, clock, now.ms, i);
      assert config.HorizonMs() == config.HotMs() + config.ArchiveMs();
      OldKeysWroteNothingNewer(config, r, clock, since, i, buyer);
    }
    RotationCut(h, mac, config, r, now, anchoredAt, stampedAt);
    CutLeavesCold(r, RotateRun(h, mac, config, r, now, anchoredAt, stampedAt), count, since, buyer, key);
  }

  /** A cycle took `before` to `after`: it rotated out exactly the hot entries older than `cutoffMs`,
      and nothing hot afterwards and written since entry `since` was written under the key it
      destroyed, if it destroyed that of `buyer`. */
  ghost predicate CleanCycle(before: Run, after: Run, since: nat, cutoffMs: int, buyer: string) {
    && (forall i :: 0 <= i < |before.node.ledger.entries| ==>
          (before.node.ledger.baseSeq + i < after.node.ledger.baseSeq
           <==> before.node.ledger.entries[i].timestamp.ms < cutoffMs))
    && (buyer in before.node.keys && buyer !in after.node.keys ==>
          !HotUnder(after, Max(after.node.ledger.baseSeq, since), buyer, before.node.keys[buyer].key))
  }

  lemma CycleRotatesExactlyTheOld(h: HashFn, mac: Mac, config: RetentionConfig, r: Run, clock: int,
                                  now: Timestamp, anchoredAt: int, stampedAt: Timestamp)
    requires Sound(h, r) && Chronological(r.history, clock)
    ensures var l := r.node.ledger;
            var after := RotateRun(h, mac, config, r, now, anchoredAt, stampedAt);
            forall i :: 0 <= i < |l.entries| ==>
              (l.baseSeq + i < after.node.ledger.baseSeq <==> l.entries[i].timestamp.ms < now.ms - config.HotMs())
  {
    RotationCut(h, mac, config, r, now, anchoredAt, stampedAt);
    HotIsChronological(h, r, clock);
    RotateTakesExactlyTheOld(r.node.ledger.entries, now.ms - config.HotMs());
  }

  lemma CycleIsClean(h: HashFn, mac: Mac, config: RetentionConfig, r: Run, clock: int, since: nat,
                     now: Timestamp, anchoredAt: int, stampedAt: Timestamp, buyer: string)
    requires Sound(h, r) && Timely(config, r, clock, since)
    ensures CleanCycle(r, Advance(h, mac, config, r, Retain(now, anchoredAt, stampedAt)), since,
              now.ms - config.HotMs(), buyer)
  {
    var rotated := RotateRun(h, mac, config, r, now, anchoredAt, stampedAt);
    CycleRotatesExactlyTheOld(h, mac, config, r, clock, now, anchoredAt, stampedAt);
    if buyer in r.node.keys && r.node.keys[buyer].lastUsedAt < now.ms - config.HorizonMs() {
      CycleRetiresOnlyColdKeys(h, mac, config, r, clock, since, now, anchoredAt, stampedAt, buyer);
    }
    RotationCut(h, mac, config, r, now, anchoredAt, stampedAt);
    CleanAfterRetiring(config, r, rotated, since, now.ms, buyer);
    assert Advance(h, mac, config, r, Retain(now, anchoredAt, stampedAt)) == Retired(config, rotated, now.ms);
  }

  lemma CleanAfterRetiring(config: RetentionConfig, r: Run, rotated: Run, since: nat, now: int, buyer: string)
    requires rotated.node.keys == r.node.keys
    requires forall i :: 0 <= i < |r.node.ledger.entries| ==>
               (r.node.ledger.baseSeq + i < rotated.node.ledger.baseSeq
                <==> r.node.ledger.entries[i].timestamp.ms < now - config.HotMs())
    requires buyer in r.node.keys && r.node.keys[buyer].lastUsedAt < now - config.HorizonMs() ==>
               !HotUnder(rotated, Max(rotated.node.ledger.baseSeq, since), buyer, r.node.keys[buyer].key)
    ensures CleanCycle(r, Retired(config, rotated, now), since, now - config.HotMs(), buyer)
  {
  }

  /** The hot half of what retirement is for: after any run under a forward clock, restarts included, a
      retention cycle is clean for every buyer with respect to the entries of the present process
      run, which are all entries when the node never restarted. */
  lemma RetiredKeysHaveNoHotEntries(h: HashFn, mac: Mac, config: RetentionConfig, clock: int, steps: seq<Step>,
                                    now: Timestamp, anchoredAt: int, stampedAt: Timestamp, buyer: string)
    requires config.Valid() && AllInOrder(config, clock, steps)
    requires ClockAtEnd(clock, steps) <= now.ms <= anchoredAt <= stampedAt.ms
    ensures var before := Execute(h, mac, config, START, steps);
            var after := Advance(h, mac, config, before, Retain(now, anchoredAt, stampedAt));
            CleanCycle(before, after, SinceAtEnd(h, mac, config, START, 0, steps), now.ms - config.HotMs(), buyer)
    ensures (forall i :: 0 <= i < |steps| ==> !steps[i].Restart?) ==> SinceAtEnd(h, mac, config, START, 0, steps) == 0
  {
    RunKeepsSound(h, mac, config, START, steps);
    RunKeepsTimely(h, mac, config, START, clock, 0, steps);
    if forall i :: 0 <= i < |steps| ==> !steps[i].Restart? {
      OneProcessRun(h, mac, config, START, 0, steps);
    }
    CycleIsClean(h, mac, config, Execute(h, mac, config, START, steps), ClockAtEnd(clock, steps),
                 SinceAtEnd(h, mac, config, START, 0, steps), now, anchoredAt, stampedAt, buyer);
  }

  // ---------------------------------------------------------------------------------------------
  // What a retired key leaves recoverable
  // ---------------------------------------------------------------------------------------------

  /** A recoverable entry of number `since` or later was written under `key` of `buyer`. */
  ghost predicate RecoverableUnder(r: Run, since: nat, buyer: string, key: string) {
    exists i :: since <= i < |r.writtenUnder| && (buyer, key) in r.writtenUnder[i] && HeldAt(r, i)
  }

  /** A segment still holds an entry of number `since` or later that was written under `key` of `buyer`. */
  ghost predicate HoldsUnder(r: Run, s: Segment, since: nat, buyer: string, key: string) {
    exists i :: since <= i < |r.writtenUnder| && (buyer, key) in r.writtenUnder[i] && HeldIn(s, i)
  }

  /** A segment of the archive closed less than an archive period ago holds such an entry. */
  ghost predicate YoungSegmentHolds(config: RetentionConfig, r: Run, now: int, since: nat, buyer: string, key: string) {
    exists s :: s in r.node.segments && s.closedAt.ms >= now - config.ArchiveMs() && HoldsUnder(r, s, since, buyer, key)
  }

  /** Purging leaves in the archive exactly the entries of the young segments. */
  lemma PurgingLeavesTheYoung(config: RetentionConfig, r: Run, now: int, since: nat, buyer: string, key: string)
    requires !HotUnder(r, Max(r.node.ledger.baseSeq, since), buyer, key)
    ensures RecoverableUnder(Retired(config, r, now), since, buyer, key)
            <==> YoungSegmentHolds(config, r, now, since, buyer, key)
  {
    var after := Retired(config, r, now);
    if RecoverableUnder(after, since, buyer, key) {
      var i :| since <= i < |r.writtenUnder| && (buyer, key) in r.writtenUnder[i] && HeldAt(after, i);
      var s :| s in after.node.segments && HeldIn(s, i);
      var before := YoungOrigin(config, r.node.segments, s, now, i);
      assert HoldsUnder(r, before, since, buyer, key);
    }
    if YoungSegmentHolds(config, r, now, since, buyer, key) {
      var s :| s in r.node.segments && s.closedAt.ms >= now - config.ArchiveMs() && HoldsUnder(r, s, since, buyer, key);
      var i :| since <= i < |r.writtenUnder| && (buyer, key) in r.writtenUnder[i] && HeldIn(s, i);
      YoungIsKept(config, r.node.segments, s, now);
      assert HeldAt(after, i);
    }
  }

  lemma YoungOrigin(config: RetentionConfig, segments: seq<Segment>, s: Segment, now: int, i: int)
    returns (before: Segment)
    requires s in PurgedSegments(config, segments, now) && HeldIn(s, i)
    ensures before in segments && HeldIn(before, i) && before.closedAt.ms >= now - config.ArchiveMs()
  {
    var after := PurgedSegments(config, segments, now);
    var k :| 0 <= k < |after| && after[k] == s;
    before := segments[k];
    assert PurgeOf(config, before, s, now);
  }

  lemma YoungIsKept(config: RetentionConfig, segments: seq<Segment>, s: Segment, now: int)
    requires s in segments && s.closedAt.ms >= now - config.ArchiveMs()
    ensures s in PurgedSegments(config, segments, now)
  {
    var k :| 0 <= k < |segments| && segments[k] == s;
    var after := PurgedSegments(config, segments, now);
    assert PurgeOf(config, s, after[k], now);
    assert after[k] == s;
  }

  /** What a cycle that retires the buyer's key leaves recoverable under it: something exactly when a segment
      of the archive, as the cycle's rotation left it, holds it and closed less than an archive period ago. */
  ghost predicate RetirementLeavesTheYoung(config: RetentionConfig, before: Run, rotated: Run, after: Run, now: int,
                                           since: nat, buyer: string)
  {
    buyer in before.node.keys && buyer !in after.node.keys ==>
      var key := before.node.keys[buyer].key;
      (RecoverableUnder(after, since, buyer, key) <==> YoungSegmentHolds(config, rotated, now, since, buyer, key))
  }

  /** The horizon is there so that a retired key leaves nothing recoverable behind. Whether it does, exactly,
      after any run under a forward clock and for the entries of the present process run (all entries when
      the node never restarted): an entry under the retired key stays recoverable if and only if a segment
      holds it that was closed less than an archive period ago. Hot entries never do. */
  lemma RetirementLeavesExactly(h: HashFn, mac: Mac, config: RetentionConfig, clock: int, steps: seq<Step>,
                                now: Timestamp, anchoredAt: int, stampedAt: Timestamp, buyer: string)
    requires config.Valid() && AllInOrder(config, clock, steps)
    requires ClockAtEnd(clock, steps) <= now.ms <= anchoredAt <= stampedAt.ms
    ensures var before := Execute(h, mac, config, START, steps);
            var rotated := RotateRun(h, mac, config, before, now, anchoredAt, stampedAt);
            var after := Advance(h, mac, config, before, Retain(now, anchoredAt, stampedAt));
            RetirementLeavesTheYoung(config, before, rotated, after, now.ms,
                                     SinceAtEnd(h, mac, config, START, 0, steps), buyer)
  {
    RunKeepsSound(h, mac, config, START, steps);
    RunKeepsTimely(h, mac, config, START, clock, 0, steps);
    CycleLeavesTheYoung(h, mac, config, Execute(h, mac, config, START, steps), ClockAtEnd(clock, steps),
                        SinceAtEnd(h, mac, config, START, 0, steps), now, anchoredAt, stampedAt, buyer);
  }

  lemma CycleLeavesTheYoung(h: HashFn, mac: Mac, config: RetentionConfig, r: Run, clock: int, since: nat,
                            now: Timestamp, anchoredAt: int, stampedAt: Timestamp, buyer: string)
    requires Sound(h, r) && Timely(config, r, clock, since)
    ensures RetirementLeavesTheYoung(config, r, RotateRun(h, mac, config, r, now, anchoredAt, stampedAt),
                                     Advance(h, mac, config, r, Retain(now, anchoredAt, stampedAt)), now.ms,
                                     since, buyer)
  {
    var rotated := RotateRun(h, mac, config, r, now, anchoredAt, stampedAt);
    RotationCut(h, mac, config, r, now, anchoredAt, stampedAt);
    if buyer in r.node.keys && r.node.keys[buyer].lastUsedAt < now.ms - config.HorizonMs() {
      CycleRetiresOnlyColdKeys(h, mac, config, r, clock, since, now, anchoredAt, stampedAt, buyer);
      PurgingLeavesTheYoung(config, rotated, now.ms, since, buyer, r.node.keys[buyer].key);
    }
    assert Advance(h, mac, config, r, Retain(now, anchoredAt, stampedAt)) == Retired(config, rotated, now.ms);
  }

  /** A caller's guard: if no segment that still has its entries was closed less than an archive period ago and
      nothing is due to be rotated, whatever key the cycle retires leaves nothing recoverable behind. */
  lemma OldArchiveLeavesNothing(h: HashFn, mac: Mac, config: RetentionConfig, clock: int, steps: seq<Step>,
                                now: Timestamp, anchoredAt: int, stampedAt: Timestamp, buyer: string)
    requires config.Valid() && AllInOrder(config, clock, steps)
    requires ClockAtEnd(clock, steps) <= now.ms <= anchoredAt <= stampedAt.ms
    requires ArchiveIsOld(config, Execute(h, mac, config, START, steps).node, now.ms)
    ensures var before := Execute(h, mac, config, START, steps);
            var after := Advance(h, mac, config, before, Retain(now, anchoredAt, stampedAt));
            buyer in before.node.keys && buyer !in after.node.keys ==>
              !RecoverableUnder(after, SinceAtEnd(h, mac, config, START, 0, steps), buyer, before.node.keys[buyer].key)
  {
    RetirementLeavesExactly(h, mac, config, clock, steps, now, anchoredAt, stampedAt, buyer);
  }

  predicate ArchiveIsOld(config: RetentionConfig, n: Node, now: int) {
    && RotateCount(config, n, now) == 0
    && forall s :: s in n.segments && s.entries.Some? ==> s.closedAt.ms < now - config.ArchiveMs()
  }

  /** One entry of a buyer, and the cycle that rotates it out. */
  function ArchivedEntry(config: RetentionConfig, buyer: string, newKey: string, iso: int -> string): seq<Step> {
    var at := config.HotMs() + 1;
    [Append(BuyerCall(buyer, newKey, Timestamp(0, iso(0)))), Retain(Timestamp(at, iso(at)), at, Timestamp(at, iso(at)))]
  }

  /** It happens, under every valid configuration and without any restart: an entry is rotated out by the first
      cycle after it is a hot period old, and a cycle one millisecond past the horizon retires its key while
      the segment, then exactly an archive period old, still holds it. */
  lemma RetiredKeyLeavesAnArchivedEntry(h: HashFn, mac: Mac, config: RetentionConfig, buyer: string, newKey: string,
                                        iso: int -> string)
    requires config.Valid() && buyer != ""
    ensures var steps := ArchivedEntry(config, buyer, newKey, iso);
            var before := Execute(h, mac, config, START, steps);
            var now := config.HorizonMs() + 1;
            var stamp := Timestamp(now, iso(now));
            var after := Advance(h, mac, config, before, Retain(stamp, now, stamp));
            && AllInOrder(config, 0, steps) && ClockAtEnd(0, steps) <= now
            && buyer in before.node.keys && before.node.keys[buyer].key == newKey
            && buyer !in after.node.keys && RecoverableUnder(after, 0, buyer, newKey)
  {
    var steps := ArchivedEntry(config, buyer, newKey, iso);
    var now := config.HorizonMs() + 1;
    var stamp := Timestamp(now, iso(now));
    var before := Execute(h, mac, config, START, steps);
    EntryIsArchived(h, mac, config, buyer, newKey, iso);
    OneProcessRun(h, mac, config, START, 0, steps);
    RetirementLeavesExactly(h, mac, config, 0, steps, stamp, now, stamp, buyer);
    var rotated := RotateRun(h, mac, config, before, stamp, now, stamp);
    RotationCut(h, mac, config, before, stamp, now, stamp);
    RotationRewritesNothing(h, mac, config, before, stamp, now, stamp);
    var s := before.node.segments[0];
    assert rotated.node.segments[0] == s && s in rotated.node.segments;
    assert HeldIn(s, 0) && (buyer, newKey) in rotated.writtenUnder[0];
    assert HoldsUnder(rotated, s, 0, buyer, newKey);
    assert YoungSegmentHolds(config, rotated, now, 0, buyer, newKey);
    CycleRetires(h, mac, config, before, stamp, now, stamp, buyer);
  }

  lemma CycleRetires(h: HashFn, mac: Mac, config: RetentionConfig, r: Run, now: Timestamp, anchoredAt: int,
                     stampedAt: Timestamp, buyer: string)
    requires buyer in r.node.keys && r.node.keys[buyer].lastUsedAt < now.ms - config.HorizonMs()
    ensures buyer !in Advance(h, mac, config, r, Retain(now, anchoredAt, stampedAt)).node.keys
  {
    RotationCut(h, mac, config, r, now, anchoredAt, stampedAt);
  }

  lemma EntryIsArchived(h: HashFn, mac: Mac, config: RetentionConfig, buyer: string, newKey: string, iso: int -> string)
    requires config.Valid() && buyer != ""
    ensures var steps := ArchivedEntry(config, buyer, newKey, iso);
            var r := Execute(h, mac, config, START, steps);
            && AllInOrder(config, 0, steps) && ClockAtEnd(0, steps) == config.HotMs() + 1
            && buyer in r.node.keys && r.node.keys[buyer] == KeyRecord(newKey, 0, 0)
            && |r.writtenUnder| > 0 && (buyer, newKey) in r.writtenUnder[0]
            && |r.node.segments| == 1 && HeldIn(r.node.segments[0], 0)
            && r.node.segments[0].closedAt.ms == config.HotMs() + 1
  {
    var steps := ArchivedEntry(config, buyer, newKey, iso);
    var first := Write(h, mac, START, steps[0].call);
    ExecuteTwo(h, mac, config, steps);
    OrderOfTwo(config, steps);
    assert Advance(h, mac, config, START, steps[0]) == first;
    FirstCycleArchives(h, mac, config, first, steps[1].now, steps[1].rotationAnchoredAt,
                       steps[1].rotationStampedAt, buyer);
  }

  /** A cycle that takes the one entry of a young run. */
  lemma FirstCycleArchives(h: HashFn, mac: Mac, config: RetentionConfig, r: Run, now: Timestamp, anchoredAt: int,
                           stampedAt: Timestamp, buyer: string)
    requires config.Valid() && now.ms == config.HotMs() + 1
    requires |r.node.ledger.entries| == 1 && r.node.ledger.entries[0].timestamp.ms == 0
    requires r.node.ledger.entries[0].seqNo == 0 && r.node.segments == [] && |r.writtenUnder| == 1
    requires buyer in r.node.keys && r.node.keys[buyer].lastUsedAt == 0
    ensures var after := Advance(h, mac, config, r, Retain(now, anchoredAt, stampedAt));
            && buyer in after.node.keys && after.node.keys[buyer] == r.node.keys[buyer]
            && |after.writtenUnder| > 0 && after.writtenUnder[0] == r.writtenUnder[0]
            && |after.node.segments| == 1 && HeldIn(after.node.segments[0], 0) && after.node.segments[0].closedAt == now
  {
    AgedCountIs(r.node.ledger.entries, 1, 1);
    RotationCut(h, mac, config, r, now, anchoredAt, stampedAt);
    var rotated := RotateRun(h, mac, config, r, now, anchoredAt, stampedAt);
    var s := SegmentOf(r.node.ledger.entries[..1], now);
    assert rotated.node.segments == [s];
    var purged := PurgedSegments(config, rotated.node.segments, now.ms);
    assert PurgeOf(config, s, purged[0], now.ms);
  }

  // ---------------------------------------------------------------------------------------------
  // Restarts
  // ---------------------------------------------------------------------------------------------

  /** Why the process run matters: the use of a key is not saved, so a restart brings back an older reading.
      After any run, take an entry written under the buyer's present key and still recent. The cycle
      after a restart retires the key exactly when the saved reading is past the horizon, and the entry
      stays behind, hot, under the retired key. */
  lemma RestartForgetsUse(h: HashFn, mac: Mac, config: RetentionConfig, clock: int, steps: seq<Step>,
                          now: Timestamp, anchoredAt: int, stampedAt: Timestamp, buyer: string, i: nat)
    requires config.Valid() && AllInOrder(config, clock, steps)
    requires HasRecent(config, Execute(h, mac, config, START, steps), now.ms, buyer, i)
    ensures var r := Execute(h, mac, config, START, steps);
            var restarted := Advance(h, mac, config, r, Restart);
            var after := Advance(h, mac, config, restarted, Retain(now, anchoredAt, stampedAt));
            && buyer in r.node.keyFile
            && HotUnder(after, after.node.ledger.baseSeq, buyer, r.node.keys[buyer].key)
            && (buyer !in after.node.keys <==> r.node.keyFile[buyer].lastUsedAt < now.ms - config.HorizonMs())
  {
    RunKeepsSound(h, mac, config, START, steps);
    RunKeepsTimely(h, mac, config, START, clock, 0, steps);
    var r := Execute(h, mac, config, START, steps);
    RestartKeepsSound(h, mac, config, r);
    CycleRetiresByLastUse(h, mac, config, Advance(h, mac, config, r, Restart), ClockAtEnd(clock, steps),
                          now, anchoredAt, stampedAt, buyer, r.node.keys[buyer].key, i);
  }

  /** Entry `i` is hot, written under the buyer's present key, and younger than the rotation cutoff. */
  ghost predicate HasRecent(config: RetentionConfig, r: Run, now: int, buyer: string, i: nat) {
    && buyer in r.node.keys && r.node.ledger.baseSeq <= i < |r.history| && i < |r.writtenUnder|
    && (buyer, r.node.keys[buyer].key) in r.writtenUnder[i]
    && r.history[i].timestamp.ms >= now - config.HotMs()
  }

  lemma RestartKeepsSound(h: HashFn, mac: Mac, config: RetentionConfig, r: Run)
    requires Sound(h, r)
    ensures Sound(h, Advance(h, mac, config, r, Restart))
  {
  }

  /** An append for one buyer at one instant. */
  function BuyerCall(buyer: string, newKey: string, at: Timestamp): AppendCall {
    AppendCall("forecast_request", [], Some(buyer), None, at.ms, newKey, at.ms, newKey, at)
  }

  /** The node logs for a buyer, and again more than a horizon later. */
  function QuietBuyer(config: RetentionConfig, buyer: string, newKey: string, iso: int -> string): seq<Step> {
    var later := config.HorizonMs() + 1;
    [Append(BuyerCall(buyer, newKey, Timestamp(0, iso(0)))),
     Append(BuyerCall(buyer, newKey, Timestamp(later, iso(later))))]
  }

  /** It happens, under every valid configuration: the first entry makes and saves the key, the second only
      uses it, and the first cycle after a restart a millisecond later retires the key while the second
      entry is a millisecond old. */
  lemma FreshEntryLosesItsKey(h: HashFn, mac: Mac, config: RetentionConfig, buyer: string, newKey: string,
                              iso: int -> string)
    requires config.Valid() && buyer != ""
    ensures var r := Execute(h, mac, config, START, QuietBuyer(config, buyer, newKey, iso));
            var now := config.HorizonMs() + 2;
            var cycle := Retain(Timestamp(now, iso(now)), now, Timestamp(now, iso(now)));
            var after := Advance(h, mac, config, Advance(h, mac, config, r, Restart), cycle);
            && AllInOrder(config, 0, QuietBuyer(config, buyer, newKey, iso))
            && HasRecent(config, r, now, buyer, 1)
            && buyer !in after.node.keys && HotUnder(after, after.node.ledger.baseSeq, buyer, newKey)
  {
    var steps := QuietBuyer(config, buyer, newKey, iso);
    var now := config.HorizonMs() + 2;
    TwoEntries(h, mac, config, buyer, newKey, iso);
    RestartForgetsUse(h, mac, config, 0, steps, Timestamp(now, iso(now)), now, Timestamp(now, iso(now)), buyer, 1);
  }

  lemma TwoEntries(h: HashFn, mac: Mac, config: RetentionConfig, buyer: string, newKey: string, iso: int -> string)
    requires config.Valid() && buyer != ""
    ensures var steps := QuietBuyer(config, buyer, newKey, iso);
            var r := Execute(h, mac, config, START, steps);
            && AllInOrder(config, 0, steps)
            && HasRecent(config, r, config.HorizonMs() + 2, buyer, 1)
            && r.node.keyFile == map[buyer := KeyRecord(newKey, 0, 0)] && r.node.keys[buyer].key == newKey
  {
    var steps := QuietBuyer(config, buyer, newKey, iso);
    ExecuteTwo(h, mac, config, steps);
    OrderOfTwo(config, steps);
    var first := Write(h, mac, START, steps[0].call);
    assert Advance(h, mac, config, START, steps[0]) == first;
    assert Advance(h, mac, config, first, steps[1]) == Write(h, mac, first, steps[1].call);
  }

  lemma CycleRetiresByLastUse(h: HashFn, mac: Mac, config: RetentionConfig, r: Run, clock: int,
                              now: Timestamp, anchoredAt: int, stampedAt: Timestamp, buyer: string, key: string, i: nat)
    requires Sound(h, r) && Chronological(r.history, clock)
    requires buyer in r.node.keys && r.node.ledger.baseSeq <= i < |r.history|
    requires (buyer, key) in r.writtenUnder[i] && r.history[i].timestamp.ms >= now.ms - config.HotMs()
    ensures var after := Advance(h, mac, config, r, Retain(now, anchoredAt, stampedAt));
            && HotUnder(after, after.node.ledger.baseSeq, buyer, key)
            && (buyer !in after.node.keys <==> r.node.keys[buyer].lastUsedAt < now.ms - config.HorizonMs())
  {
    RotationLeavesHot(h, mac, config, r, clock, now, anchoredAt, stampedAt, buyer, key, i);
    var rotated := RotateRun(h, mac, config, r, now, anchoredAt, stampedAt);
    RetiringIsByLastUse(config, rotated, now.ms, buyer, key);
    assert Advance(h, mac, config, r, Retain(now, anchoredAt, stampedAt)) == Retired(config, rotated, now.ms);
  }

  lemma RotationLeavesHot(h: HashFn, mac: Mac, config: RetentionConfig, r: Run, clock: int, now: Timestamp,
                          anchoredAt: int, stampedAt: Timestamp, buyer: string, key: string, i: nat)
    requires Sound(h, r) && Chronological(r.history, clock)
    requires r.node.ledger.baseSeq <= i < |r.history| && (buyer, key) in r.writtenUnder[i]
    requires r.history[i].timestamp.ms >= now.ms - config.HotMs()
    ensures var rotated := RotateRun(h, mac, config, r, now, anchoredAt, stampedAt);
            HotUnder(rotated, rotated.node.ledger.baseSeq, buyer, key) && rotated.node.keys == r.node.keys
  {
    RotationCut(h, mac, config, r, now, anchoredAt, stampedAt);
    HotIsRecent(h, config, r, clock, now.ms, i);
    CutLeavesHot(r, RotateRun(h, mac, config, r, now, anchoredAt, stampedAt), RotateCount(config, r.node, now.ms),
        buyer, key, i);
  }

  lemma CutLeavesHot(r: Run, rotated: Run, count: nat, buyer: string, key: string, i: nat)
    requires CutAt(r, rotated, count) && i < |r.writtenUnder|
    requires r.node.ledger.baseSeq + count <= i && (buyer, key) in r.writtenUnder[i]
    ensures HotUnder(rotated, rotated.node.ledger.baseSeq, buyer, key)
  {
    assert rotated.writtenUnder[i] == r.writtenUnder[i];
  }

  lemma CutLeavesCold(r: Run, rotated: Run, count: nat, since: nat, buyer: string, key: string)
    requires CutAt(r, rotated, count)
    requires forall i :: Max(r.node.ledger.baseSeq + count, since) <= i < |r.writtenUnder| ==>
               (buyer, key) !in r.writtenUnder[i]
    ensures !HotUnder(rotated, Max(rotated.node.ledger.baseSeq, since), buyer, key)
  {
  }

  lemma RetiringIsByLastUse(config: RetentionConfig, r: Run, now: int, buyer: string, key: string)
    requires buyer in r.node.keys && HotUnder(r, r.node.ledger.baseSeq, buyer, key)
    ensures var after := Retired(config, r, now);
            && HotUnder(after, after.node.ledger.baseSeq, buyer, key)
            && (buyer !in after.node.keys <==> r.node.keys[buyer].lastUsedAt < now - config.HorizonMs())
  {
  }

  // ---------------------------------------------------------------------------------------------
  // Destroyed keys stay destroyed
  // ---------------------------------------------------------------------------------------------

  /** The saved store and the working one have the same buyers with the same keys, whatever the clock does. */
  ghost predicate SameKeys(keys: Keys, file: Keys) {
    file.Keys == keys.Keys && forall b :: b in keys ==> file[b].key == keys[b].key
  }

  lemma AppendKeepsSameKeys(keys: Keys, file: Keys, c: AppendCall)
    requires SameKeys(keys, file)
    ensures SameKeys(KeysAfter(keys, c), KeyFileAfter(keys, file, c))
  {
    assert SameKeys(KeysAfterPayload(keys, c), KeyFileAfterPayload(keys, file, c));
  }

  lemma StepKeepsSameKeys(h: HashFn, mac: Mac, config: RetentionConfig, r: Run, step: Step)
    requires SameKeys(r.node.keys, r.node.keyFile)
    ensures var after := Advance(h, mac, config, r, step).node;
            SameKeys(after.keys, after.keyFile)
  {
    match step
    case Append(c) => AppendKeepsSameKeys(r.node.keys, r.node.keyFile, c);
    case AnchorHead(now, stampedAt) =>
      AppendKeepsSameKeys(r.node.keys, r.node.keyFile, AnchorEvent(HeadAnchor(r.node.ledger, now), stampedAt));
    case OperatorCommand(c, anchoredAt) => AppendKeepsSameKeys(r.node.keys, r.node.keyFile, c);
    case Retain(now, anchoredAt, stampedAt) => RotationTouchesNoKey(h, mac, config, r, now, anchoredAt, stampedAt);
    case Erase(buyer) =>
    case Restart =>
  }

  lemma RotationTouchesNoKey(h: HashFn, mac: Mac, config: RetentionConfig, r: Run, now: Timestamp, anchoredAt: int,
                             stampedAt: Timestamp)
    ensures var rotated := RotateRun(h, mac, config, r, now, anchoredAt, stampedAt);
            rotated.node.keys == r.node.keys && rotated.node.keyFile == r.node.keyFile
  {
    var count := RotateCount(config, r.node, now.ms);
    if count > 0 {
      RotationNamesNoBuyer(SegmentOf(r.node.ledger.entries[..count], now), stampedAt);
    }
  }

  lemma {:induction false} RunKeepsSameKeys(h: HashFn, mac: Mac, config: RetentionConfig, r: Run, steps: seq<Step>)
    requires SameKeys(r.node.keys, r.node.keyFile)
    ensures var after := Execute(h, mac, config, r, steps).node;
            SameKeys(after.keys, after.keyFile)
    decreases |steps|
  {
    if |steps| > 0 {
      StepKeepsSameKeys(h, mac, config, r, steps[0]);
      RunKeepsSameKeys(h, mac, config, Advance(h, mac, config, r, steps[0]), steps[1..]);
    }
  }

  /** The buyer does not have this key, in memory or in the file. */
  predicate Without(n: Node, buyer: string, key: string) {
    && (buyer in n.keys ==> n.keys[buyer].key != key)
    && (buyer in n.keyFile ==> n.keyFile[buyer].key != key)
  }

  /** The random source does not draw this key in the step. */
  predicate DrawsOther(step: Step, key: string) {
    match step
    case Append(c) => c.payloadFresh != key && c.buyerFresh != key
    case OperatorCommand(c, _) => c.payloadFresh != key && c.buyerFresh != key
    case _ => true
  }

  lemma AppendStaysWithout(h: HashFn, mac: Mac, n: Node, c: AppendCall, buyer: string, key: string)
    requires Without(n, buyer, key)
    requires RawBuyer(c.payload).Some? ==> c.payloadFresh != key
    requires NamesBuyer(c) ==> c.buyerFresh != key
    ensures Without(AppendStep(h, mac, n, c), buyer, key)
  {
  }

  lemma StepStaysWithout(h: HashFn, mac: Mac, config: RetentionConfig, r: Run, step: Step, buyer: string, key: string)
    requires Without(r.node, buyer, key) && DrawsOther(step, key)
    ensures Without(Advance(h, mac, config, r, step).node, buyer, key)
  {
    match step
    case Append(c) => AppendStaysWithout(h, mac, r.node, c, buyer, key);
    case AnchorHead(now, stampedAt) => AnchoringNamesNoBuyer(HeadAnchor(r.node.ledger, now), stampedAt);
    case OperatorCommand(c, anchoredAt) => AppendStaysWithout(h, mac, r.node, c, buyer, key);
    case Retain(now, anchoredAt, stampedAt) => RotationTouchesNoKey(h, mac, config, r, now, anchoredAt, stampedAt);
    case Erase(b) =>
    case Restart =>
  }

  lemma AnchoringNamesNoBuyer(a: AnchorRecord, stampedAt: Timestamp)
    ensures RawBuyer(AnchorEvent(a, stampedAt).payload).None?
  {
    AbsentField(AnchorEvent(a, stampedAt).payload, BUYER_FIELD);
  }

  lemma {:induction false} RunStaysWithout(h: HashFn, mac: Mac, config: RetentionConfig, r: Run, steps: seq<Step>,
                                           buyer: string, key: string)
    requires Without(r.node, buyer, key) && forall i :: 0 <= i < |steps| ==> DrawsOther(steps[i], key)
    ensures Without(Execute(h, mac, config, r, steps).node, buyer, key)
    decreases |steps|
  {
    if |steps| > 0 {
      StepStaysWithout(h, mac, config, r, steps[0], buyer, key);
      RunStaysWithout(h, mac, config, Advance(h, mac, config, r, steps[0]), steps[1..], buyer, key);
    }
  }

  /** The step destroyed the buyer's key: an erasure, or a cycle that retired it. */
  predicate Destroys(h: HashFn, mac: Mac, config: RetentionConfig, r: Run, step: Step, buyer: string) {
    step == Erase(buyer) || (step.Retain? && buyer !in Advance(h, mac, config, r, step).node.keys)
  }

  /** Crypto-shredding is permanent. Whatever happened before and whatever the clock does: after an erasure of
      the buyer, or a cycle that retired its key, no key that any entry of the buyer was written under is in
      memory or in the file again, through any further steps and restarts, unless the random source draws
      it anew. */
  lemma ShreddingIsPermanent(h: HashFn, mac: Mac, config: RetentionConfig, before: seq<Step>, shred: Step,
                             later: seq<Step>, buyer: string)
    requires Destroys(h, mac, config, Execute(h, mac, config, START, before), shred, buyer)
    ensures var r := Execute(h, mac, config, START, before);
            var after := Execute(h, mac, config, Advance(h, mac, config, r, shred), later).node;
            forall i, key :: 0 <= i < |r.writtenUnder| && (buyer, key) in r.writtenUnder[i]
                             && (forall k :: 0 <= k < |later| ==> DrawsOther(later[k], key)) ==>
              Without(after, buyer, key)
  {
    var r := Execute(h, mac, config, START, before);
    var shredded := Advance(h, mac, config, r, shred);
    RunKeepsSameKeys(h, mac, config, START, before);
    StepKeepsSameKeys(h, mac, config, r, shred);
    assert buyer !in shredded.node.keys && buyer !in shredded.node.keyFile;
    forall i, key | 0 <= i < |r.writtenUnder| && (buyer, key) in r.writtenUnder[i]
                    && (forall k :: 0 <= k < |later| ==> DrawsOther(later[k], key))
      ensures Without(Execute(h, mac, config, shredded, later).node, buyer, key)
    {
      RunStaysWithout(h, mac, config, shredded, later, buyer, key);
    }
  }
}
