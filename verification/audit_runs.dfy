/** Every run of the audit trail: any interleaving of appends, periodic anchoring, retention cycles,
    operator commands, erasures and restarts, each taken as one step. */
module AuditRuns {
  import opened Wrappers
  import opened AuditChain
  import opened Pseudonyms
  import opened AuditNode

  /** A restart restores ledger, anchors and segments as they are, because every change was saved; the
      keys come back as last saved. */
  datatype Step =
    | Append(call: AppendCall)
    | AnchorHead(at: int, stampedAt: Timestamp)
    | OperatorCommand(call: AppendCall, anchoredAt: int)
    | Retain(now: Timestamp, rotationAnchoredAt: int, rotationStampedAt: Timestamp)
    | Erase(buyer: string)
    | Restart

  /** A node together with everything ever appended to its ledger and, per entry, the (buyer, key)
      pairs it was written under. */
  datatype Run = Run(node: Node, history: seq<Entry>, writtenUnder: seq<set<(string, string)>>)

  const START := Run(FIRST_BOOT, [], [])

  function NodeAfter(h: HashFn, mac: Mac, config: RetentionConfig, n: Node, step: Step): Node {
    match step
    case Append(c) => AppendStep(h, mac, n, c)
    case AnchorHead(now, stampedAt) => AnchorHeadStep(h, mac, n, now, stampedAt)
    case OperatorCommand(c, anchoredAt) => AppendAndAnchorStep(h, mac, n, c, anchoredAt)
    case Retain(now, anchoredAt, stampedAt) => CycleStep(h, mac, config, n, now, anchoredAt, stampedAt)
    case Erase(buyer) => n.(keys := n.keys - {buyer}, keyFile := SavedAfterShred(n.keys, n.keyFile, buyer))
    case Restart => n.(keys := n.keyFile)
  }

  function UsedBy(keys: Keys, c: AppendCall): set<(string, string)> {
    (match RawBuyer(c.payload)
     case None => {}
     case Some(raw) => {(raw, KeysAfterPayload(keys, c)[raw].key)})
    + (if NamesBuyer(c) then {(c.buyerId.value, KeysAfter(keys, c)[c.buyerId.value].key)} else {})
  }

  function Write(h: HashFn, mac: Mac, r: Run, c: AppendCall): Run {
    Run(AppendStep(h, mac, r.node, c),
        r.history + [Recorded(h, mac, r.node.keys, r.node.ledger, c)],
        r.writtenUnder + [UsedBy(r.node.keys, c)])
  }

  /** The run in which the node's ledger lost `count` entries to a new anchored segment and the event
      is not yet logged. */
  function Rotated(r: Run, count: nat, now: Timestamp, anchoredAt: int): Run
    requires 0 < count <= |r.node.ledger.entries|
  {
    var s := SegmentOf(r.node.ledger.entries[..count], now);
    r.(node := r.node.(ledger := WithoutPrefix(r.node.ledger, count),
                       anchors := r.node.anchors + [AnchorRecord(s.toSeq, s.headHash, anchoredAt)],
                       segments := r.node.segments + [s]))
  }

  function RotateRun(h: HashFn, mac: Mac, config: RetentionConfig, r: Run, now: Timestamp, anchoredAt: int,
                     stampedAt: Timestamp): Run
  {
    var count := RotateCount(config, r.node, now.ms);
    if count == 0 then r
    else Write(h, mac, Rotated(r, count, now, anchoredAt),
               RotationEvent(SegmentOf(r.node.ledger.entries[..count], now), stampedAt))
  }

  function Anchored(r: Run, now: int): Run {
    r.(node := r.node.(anchors := r.node.anchors + [HeadAnchor(r.node.ledger, now)]))
  }

  function Retired(config: RetentionConfig, r: Run, now: int): Run {
    r.(node := r.node.(segments := PurgedSegments(config, r.node.segments, now),
                       keys := Retained(r.node.keys, now - config.HorizonMs()),
                       keyFile := SavedAfterRetiring(r.node.keys, r.node.keyFile, now - config.HorizonMs())))
  }

  /** One step of a run. */
  function Advance(h: HashFn, mac: Mac, config: RetentionConfig, r: Run, step: Step): Run {
    match step
    case Append(c) => Write(h, mac, r, c)
    case AnchorHead(now, stampedAt) =>
      if !HeadNeedsAnchor(r.node) then r
      else Write(h, mac, Anchored(r, now), AnchorEvent(HeadAnchor(r.node.ledger, now), stampedAt))
    case OperatorCommand(c, anchoredAt) => Anchored(Write(h, mac, r, c), anchoredAt)
    case Retain(now, anchoredAt, stampedAt) =>
      Retired(config, RotateRun(h, mac, config, r, now, anchoredAt, stampedAt), now.ms)
    case Erase(buyer) => r.(node := NodeAfter(h, mac, config, r.node, step))
    case Restart => r.(node := r.node.(keys := r.node.keyFile))
  }

  /** What a run keeps of the node is exactly what the operations do to it. */
  lemma AdvanceIsTheOperation(h: HashFn, mac: Mac, config: RetentionConfig, r: Run, step: Step)
    ensures Advance(h, mac, config, r, step).node == NodeAfter(h, mac, config, r.node, step)
  {
    if step.Retain? {
      RotateRunIsTheRotation(h, mac, config, r, step.now, step.rotationAnchoredAt, step.rotationStampedAt);
    }
  }

  lemma RotateRunIsTheRotation(h: HashFn, mac: Mac, config: RetentionConfig, r: Run, now: Timestamp, anchoredAt: int,
                               stampedAt: Timestamp)
    ensures RotateRun(h, mac, config, r, now, anchoredAt, stampedAt).node
         == RotateStep(h, mac, config, r.node, now, anchoredAt, stampedAt)
  {
  }

  function Execute(h: HashFn, mac: Mac, config: RetentionConfig, r: Run, steps: seq<Step>): Run
    decreases |steps|
  {
    if |steps| == 0 then r
    else Execute(h, mac, config, Advance(h, mac, config, r, steps[0]), steps[1..])
  }

  // ---------------------------------------------------------------------------------------------
  // What every step keeps
  // ---------------------------------------------------------------------------------------------

  /** A segment describes the part of the history it was closed over, purged or not. */
  ghost predicate Covers(history: seq<Entry>, s: Segment) {
    && 0 <= s.fromSeq <= s.toSeq < |history|
    && s.entryCount == s.toSeq - s.fromSeq + 1
    && s.headHash == history[s.toSeq].hash
    && (s.entries.Some? ==> s.entries.value == history[s.fromSeq..s.toSeq + 1])
  }

  /** The number that segment `i` must start at: one past the segment before it. */
  function StartOf(segments: seq<Segment>, i: nat): int
    requires i <= |segments|
  {
    if i == 0 then 0 else segments[i - 1].toSeq + 1
  }

  ghost predicate TileAt(history: seq<Entry>, segments: seq<Segment>, i: nat)
    requires i < |segments|
  {
    Covers(history, segments[i]) && segments[i].fromSeq == StartOf(segments, i)
  }

  ghost predicate Tiles(history: seq<Entry>, segments: seq<Segment>, base: int) {
    && (forall i :: 0 <= i < |segments| ==> TileAt(history, segments, i))
    && base == StartOf(segments, |segments|)
  }

  /** The hot ledger is the tail of a genuine history, the anchors pin hashes of it, and the segments cover
      what left. */
  ghost predicate Intact(h: HashFn, r: Run) {
    var n := r.node;
    && 0 <= n.ledger.baseSeq <= |r.history|
    && n.ledger == HotPart(r.history, n.ledger.baseSeq)
    && Genuine(h, r.history)
    && AnchorsGenuine(r.history, n.anchors)
    && Tiles(r.history, n.segments, n.ledger.baseSeq)
    && |r.writtenUnder| == |r.history|
  }

  /** What left the ledger is anchored. */
  predicate CutIsAnchored(n: Node) {
    && (|n.anchors| > 0 ==> n.ledger.baseSeq - 1 <= n.anchors[|n.anchors| - 1].seqNo)
    && (n.ledger.baseSeq > 0 ==> |n.anchors| > 0)
  }

  ghost predicate Sound(h: HashFn, r: Run) {
    Intact(h, r) && CutIsAnchored(r.node)
  }

  /** Between steps the hot ledger of a used node is never empty: rotation logs itself. */
  ghost predicate Settled(r: Run) {
    |r.history| > 0 ==> |r.node.ledger.entries| > 0
  }

  lemma TilesUnderGrowth(history: seq<Entry>, more: seq<Entry>, segments: seq<Segment>, base: int)
    requires Tiles(history, segments, base)
    ensures Tiles(history + more, segments, base)
  {
    forall i | 0 <= i < |segments|
      ensures TileAt(history + more, segments, i)
    {
      var s := segments[i];
      assert TileAt(history, segments, i);
      assert (history + more)[s.fromSeq..s.toSeq + 1] == history[s.fromSeq..s.toSeq + 1];
    }
  }

  lemma WriteKeepsIntact(h: HashFn, mac: Mac, r: Run, c: AppendCall)
    requires Intact(h, r)
    ensures Intact(h, Write(h, mac, r, c)) && Settled(Write(h, mac, r, c))
  {
    var after := Write(h, mac, r, c);
    var e := Recorded(h, mac, r.node.keys, r.node.ledger, c);
    AppendExtendsHistory(h, r.history, r.node.ledger.baseSeq, c.eventClass, SafePayload(mac, r.node.keys, c),
                         SafeBuyer(mac, r.node.keys, c), c.requestId, c.stampedAt);
    TilesUnderGrowth(r.history, [e], r.node.segments, r.node.ledger.baseSeq);
    assert after.node.ledger == HotPart(after.history, r.node.ledger.baseSeq);
  }

  lemma WriteKeepsSound(h: HashFn, mac: Mac, r: Run, c: AppendCall)
    requires Sound(h, r)
    ensures Sound(h, Write(h, mac, r, c)) && Settled(Write(h, mac, r, c))
  {
    WriteKeepsIntact(h, mac, r, c);
  }

  /** An anchor of the head reaches everything. */
  lemma AnchoringKeepsIntact(h: HashFn, r: Run, now: int)
    requires Intact(h, r) && |r.node.ledger.entries| > 0
    ensures Sound(h, Anchored(r, now))
  {
    var l := r.node.ledger;
    assert l.entries[|l.entries| - 1] == r.history[|r.history| - 1];
  }

  lemma RotationKeepsIntact(h: HashFn, r: Run, count: nat, now: Timestamp, anchoredAt: int)
    requires Intact(h, r) && 0 < count <= |r.node.ledger.entries|
    ensures Sound(h, Rotated(r, count, now, anchoredAt))
  {
    var base := r.node.ledger.baseSeq;
    RotationMovesTheCut(r.history, base, count);
    var s := SegmentOf(r.node.ledger.entries[..count], now);
    SegmentIsGenuine(h, r, count, now);
    TilesExtended(r.history, r.node.segments, base, s);
  }

  lemma SegmentIsGenuine(h: HashFn, r: Run, count: nat, now: Timestamp)
    requires Intact(h, r) && 0 < count <= |r.node.ledger.entries|
    ensures var base := r.node.ledger.baseSeq;
            var s := SegmentOf(r.node.ledger.entries[..count], now);
            && s.fromSeq == base && s.toSeq == base + count - 1
            && Covers(r.history, s)
  {
    var base := r.node.ledger.baseSeq;
    var removed := r.node.ledger.entries[..count];
    assert removed == r.history[base..base + count];
    assert removed[0] == r.history[base] && removed[count - 1] == r.history[base + count - 1];
    assert GenuineAt(h, r.history, base) && GenuineAt(h, r.history, base + count - 1);
  }

  lemma TilesExtended(history: seq<Entry>, segments: seq<Segment>, base: int, s: Segment)
    requires Tiles(history, segments, base) && Covers(history, s) && s.fromSeq == base
    ensures Tiles(history, segments + [s], s.toSeq + 1)
  {
    forall i | 0 <= i < |segments + [s]|
      ensures TileAt(history, segments + [s], i)
    {
      if i < |segments| {
        assert TileAt(history, segments, i);
      }
    }
  }

  lemma PurgingKeepsTiles(config: RetentionConfig, history: seq<Entry>, segments: seq<Segment>, base: int, now: int)
    requires Tiles(history, segments, base)
    ensures Tiles(history, PurgedSegments(config, segments, now), base)
  {
    var after := PurgedSegments(config, segments, now);
    forall i | 0 <= i < |after|
      ensures TileAt(history, after, i)
    {
      assert TileAt(history, segments, i);
      assert PurgeOf(config, segments[i], after[i], now);
    }
  }

  lemma RetiringKeepsIntact(h: HashFn, config: RetentionConfig, r: Run, now: int)
    requires Intact(h, r)
    ensures Intact(h, Retired(config, r, now))
    ensures CutIsAnchored(r.node) ==> CutIsAnchored(Retired(config, r, now).node)
  {
    PurgingKeepsTiles(config, r.history, r.node.segments, r.node.ledger.baseSeq, now);
  }

  /** A rotation of anything anchors what left and logs itself. */
  lemma RotateRunKeepsIntact(h: HashFn, mac: Mac, config: RetentionConfig, r: Run, now: Timestamp, anchoredAt: int,
                             stampedAt: Timestamp)
    requires Intact(h, r)
    ensures var rotated := RotateRun(h, mac, config, r, now, anchoredAt, stampedAt);
            && Intact(h, rotated)
            && (CutIsAnchored(r.node) || rotated != r ==> CutIsAnchored(rotated.node))
            && (Settled(r) || rotated != r ==> Settled(rotated))
  {
    var count := RotateCount(config, r.node, now.ms);
    if count > 0 {
      RotationKeepsIntact(h, r, count, now, anchoredAt);
      WriteKeepsSound(h, mac, Rotated(r, count, now, anchoredAt),
                      RotationEvent(SegmentOf(r.node.ledger.entries[..count], now), stampedAt));
    }
  }

  lemma StepKeepsIntact(h: HashFn, mac: Mac, config: RetentionConfig, r: Run, step: Step)
    requires Intact(h, r)
    ensures var after := Advance(h, mac, config, r, step);
            && Intact(h, after)
            && (CutIsAnchored(r.node) ==> CutIsAnchored(after.node))
            && (Settled(r) ==> Settled(after))
  {
    match step
    case Append(c) =>
      WriteKeepsIntact(h, mac, r, c);
    case AnchorHead(now, stampedAt) =>
      if HeadNeedsAnchor(r.node) {
        AnchoringKeepsIntact(h, r, now);
        WriteKeepsSound(h, mac, Anchored(r, now), AnchorEvent(HeadAnchor(r.node.ledger, now), stampedAt));
      }
    case OperatorCommand(c, anchoredAt) =>
      WriteKeepsIntact(h, mac, r, c);
      AnchoringKeepsIntact(h, Write(h, mac, r, c), anchoredAt);
    case Retain(now, anchoredAt, stampedAt) =>
      RotateRunKeepsIntact(h, mac, config, r, now, anchoredAt, stampedAt);
      RetiringKeepsIntact(h, config, RotateRun(h, mac, config, r, now, anchoredAt, stampedAt), now.ms);
    case Erase(buyer) =>
    case Restart =>
  }

  lemma StepKeepsSound(h: HashFn, mac: Mac, config: RetentionConfig, r: Run, step: Step)
    requires Sound(h, r) && Settled(r)
    ensures Sound(h, Advance(h, mac, config, r, step)) && Settled(Advance(h, mac, config, r, step))
  {
    StepKeepsIntact(h, mac, config, r, step);
  }

  lemma {:induction false} RunKeepsSound(h: HashFn, mac: Mac, config: RetentionConfig, r: Run, steps: seq<Step>)
    requires Sound(h, r) && Settled(r)
    ensures Sound(h, Execute(h, mac, config, r, steps)) && Settled(Execute(h, mac, config, r, steps))
    decreases |steps|
  {
    if |steps| > 0 {
      StepKeepsSound(h, mac, config, r, steps[0]);
      RunKeepsSound(h, mac, config, Advance(h, mac, config, r, steps[0]), steps[1..]);
    }
  }

  // ---------------------------------------------------------------------------------------------
  // Main results over whole runs
  // ---------------------------------------------------------------------------------------------

  /** Restart safety: after any run from a first boot, startup verification accepts exactly when an
      anchor exists or nothing was ever logged. */
  lemma RestartSafety(h: HashFn, mac: Mac, config: RetentionConfig, steps: seq<Step>)
    ensures var n := Execute(h, mac, config, START, steps).node;
            BootAccepts(h, n) <==> |n.anchors| > 0 || |n.ledger.entries| == 0
  {
    RunKeepsSound(h, mac, config, START, steps);
    IntactIsAcceptedExactly(h, Execute(h, mac, config, START, steps));
  }

  predicate BootAccepts(h: HashFn, n: Node) {
    VerifyAfterRestore(h, n.ledger, n.anchors).valid
  }

  /** The last anchor reaches the entry before the hot ledger, or nothing was anchored and nothing is hot. */
  predicate BootReaches(n: Node) {
    if |n.anchors| == 0 then |n.ledger.entries| == 0
    else n.ledger.baseSeq - 1 <= n.anchors[|n.anchors| - 1].seqNo
  }

  lemma IntactIsAcceptedExactly(h: HashFn, r: Run)
    requires Intact(h, r)
    ensures BootAccepts(h, r.node) <==> BootReaches(r.node)
  {
    AcceptsExactly(h, r.history, r.node.ledger, r.node.anchors);
  }

  /** The refusal happens: one append and no anchor yet. */
  lemma UnanchoredRestartIsRefused(h: HashFn, mac: Mac, config: RetentionConfig, c: AppendCall)
    ensures !BootAccepts(h, Execute(h, mac, config, START, [Append(c), Restart]).node)
  {
    var steps := [Append(c), Restart];
    ExecuteTwo(h, mac, config, steps);
    assert |Execute(h, mac, config, START, steps).node.ledger.entries| == 1;
    RestartSafety(h, mac, config, steps);
  }

  /** Tamper evidence at the end of any run: if a replaced ledger file is accepted against the node's
      own anchors, every hot entry up to the last anchor is one the node appended, on all hashed
      fields, or a hash collision is on display. */
  lemma TamperEvidenceOverRuns(h: HashFn, mac: Mac, config: RetentionConfig, steps: seq<Step>, loaded: Ledger)
    requires var n := Execute(h, mac, config, START, steps).node;
             |n.anchors| > 0 && VerifyAfterRestore(h, loaded, n.anchors).valid
    ensures GenuineOrColliding(h, Execute(h, mac, config, START, steps), loaded)
  {
    RunKeepsSound(h, mac, config, START, steps);
    AcceptedIsGenuine(h, Execute(h, mac, config, START, steps), loaded);
  }

  /** The loaded ledger is the history's own up to the last anchor, or collides with it. */
  ghost predicate GenuineOrColliding(h: HashFn, r: Run, loaded: Ledger)
    requires |r.node.anchors| > 0
  {
    var a := r.node.anchors[|r.node.anchors| - 1].seqNo;
    || (exists s :: Collides(h, r.history, loaded, s))
    || (&& 0 <= loaded.baseSeq <= a + 1 <= |r.history|
        && loaded.carry == HistoryLink(r.history, loaded.baseSeq)
        && AgreesOn(r.history, loaded, loaded.baseSeq, a))
  }

  lemma AcceptedIsGenuine(h: HashFn, r: Run, loaded: Ledger)
    requires Sound(h, r) && |r.node.anchors| > 0 && VerifyAfterRestore(h, loaded, r.node.anchors).valid
    ensures GenuineOrColliding(h, r, loaded)
  {
    TamperEvidence(h, r.history, loaded, r.node.anchors, r.node.anchors[|r.node.anchors| - 1].seqNo);
  }

  function Flattened(segments: seq<Segment>): seq<Entry>
    requires forall i :: 0 <= i < |segments| ==> segments[i].entries.Some?
  {
    if |segments| == 0 then [] else Flattened(segments[..|segments| - 1]) + segments[|segments| - 1].entries.value
  }

  lemma TilesInit(history: seq<Entry>, segments: seq<Segment>, base: int)
    requires Tiles(history, segments, base) && |segments| > 0
    ensures Tiles(history, segments[..|segments| - 1], segments[|segments| - 1].fromSeq)
    ensures Covers(history, segments[|segments| - 1]) && base == segments[|segments| - 1].toSeq + 1
  {
    var last := |segments| - 1;
    assert TileAt(history, segments, last);
    forall i | 0 <= i < last
      ensures TileAt(history, segments[..last], i)
    {
      assert TileAt(history, segments, i);
    }
  }

  lemma {:induction false} FlattenedIsAPrefix(history: seq<Entry>, segments: seq<Segment>, base: int)
    requires Tiles(history, segments, base)
    requires forall i :: 0 <= i < |segments| ==> segments[i].entries.Some?
    ensures 0 <= base <= |history| && Flattened(segments) == history[..base]
  {
    if |segments| > 0 {
      var last := segments[|segments| - 1];
      TilesInit(history, segments, base);
      FlattenedIsAPrefix(history, segments[..|segments| - 1], last.fromSeq);
      assert history[..last.fromSeq] + history[last.fromSeq..last.toSeq + 1] == history[..last.toSeq + 1];
    }
  }

  /** Archive and hot ledger together hold the history. */
  ghost predicate Conserved(r: Run) {
    var segments := r.node.segments;
    var base := r.node.ledger.baseSeq;
    && Tiles(r.history, segments, base)
    && 0 <= base <= |r.history|
    && r.node.ledger.entries == r.history[base..]
    && (forall i :: 0 <= i < |segments| ==> LinkedOnward(r.history, segments[i]))
    && (|segments| > 0 ==> r.node.ledger.carry == segments[|segments| - 1].headHash)
    && ((forall i :: 0 <= i < |segments| ==> segments[i].entries.Some?) ==>
          Flattened(segments) + r.node.ledger.entries == r.history)
  }

  /** Entry `i` of the history is still recoverable: hot, or in a segment that was not purged. */
  ghost predicate HeldAt(r: Run, i: nat) {
    r.node.ledger.baseSeq <= i || exists s :: s in r.node.segments && HeldIn(s, i)
  }

  predicate HeldIn(s: Segment, i: int) {
    s.entries.Some? && s.fromSeq <= i <= s.toSeq
  }

  /** A rotation anchors the last number it took, which the periodic anchor may have anchored before: one
      entry, an anchor of it, and a cycle once it is a hot period old. */
  lemma RotationAnchorsAgain(h: HashFn, mac: Mac, config: RetentionConfig, iso: int -> string)
    requires config.Valid()
    ensures var later := config.HotMs() + 1;
            var stamp := Timestamp(later, iso(later));
            var first := Append(SystemCall([], Timestamp(0, iso(0))));
            var steps := [first, AnchorHead(later, stamp), Retain(stamp, later, stamp)];
            var anchors := Execute(h, mac, config, START, steps).node.anchors;
            |anchors| == 2 && anchors[0].seqNo == anchors[1].seqNo == 0
  {
    var later := config.HotMs() + 1;
    var stamp := Timestamp(later, iso(later));
    var first := Append(SystemCall([], Timestamp(0, iso(0))));
    var steps := [first, AnchorHead(later, stamp), Retain(stamp, later, stamp)];
    ExecuteThree(h, mac, config, steps);
    var r1 := Advance(h, mac, config, START, steps[0]);
    HeadIsAnchored(h, mac, config, r1, later, stamp);
    FirstIsAnchoredAgain(h, mac, config, Advance(h, mac, config, r1, steps[1]), stamp);
  }

  lemma HeadIsAnchored(h: HashFn, mac: Mac, config: RetentionConfig, r: Run, at: int, stampedAt: Timestamp)
    requires |r.node.ledger.entries| == 1 && r.node.ledger.baseSeq == 0 && r.node.anchors == []
    requires r.node.ledger.entries[0].hash != ""
    ensures var after := Advance(h, mac, config, r, AnchorHead(at, stampedAt)).node;
            && |after.ledger.entries| == 2 && after.ledger.entries[0] == r.node.ledger.entries[0]
            && after.ledger.entries[1].timestamp == stampedAt
            && |after.anchors| == 1 && after.anchors[0].seqNo == 0
  {
  }

  lemma FirstIsAnchoredAgain(h: HashFn, mac: Mac, config: RetentionConfig, r: Run, now: Timestamp)
    requires config.Valid() && now.ms == config.HotMs() + 1
    requires |r.node.ledger.entries| == 2
    requires r.node.ledger.entries[0].timestamp.ms == 0 && r.node.ledger.entries[0].seqNo == 0
    requires r.node.ledger.entries[1].timestamp == now && |r.node.anchors| == 1
    ensures var after := Advance(h, mac, config, r, Retain(now, now.ms, now)).node;
            |after.anchors| == 2 && after.anchors[0] == r.node.anchors[0] && after.anchors[1].seqNo == 0
  {
    AgedCountIs(r.node.ledger.entries, 1, 1);
    assert RotateCount(config, r.node, now.ms) == 1;
    assert SegmentOf(r.node.ledger.entries[..1], now).toSeq == 0;
  }

  lemma ExecuteTwo(h: HashFn, mac: Mac, config: RetentionConfig, steps: seq<Step>)
    requires |steps| == 2
    ensures Execute(h, mac, config, START, steps)
         == Advance(h, mac, config, Advance(h, mac, config, START, steps[0]), steps[1])
  {
    var r1 := Advance(h, mac, config, START, steps[0]);
    var r2 := Advance(h, mac, config, r1, steps[1]);
    assert steps[1..] == [steps[1]] && steps[1..][1..] == [];
    assert Execute(h, mac, config, r1, steps[1..]) == Execute(h, mac, config, r2, steps[1..][1..]);
  }

  lemma ExecuteThree(h: HashFn, mac: Mac, config: RetentionConfig, steps: seq<Step>)
    requires |steps| == 3
    ensures var r1 := Advance(h, mac, config, START, steps[0]);
            Execute(h, mac, config, START, steps)
            == Advance(h, mac, config, Advance(h, mac, config, r1, steps[1]), steps[2])
  {
    var r1 := Advance(h, mac, config, START, steps[0]);
    var r2 := Advance(h, mac, config, r1, steps[1]);
    assert steps[1..][0] == steps[1] && steps[1..][1..] == [steps[2]] && [steps[2]][1..] == [];
    assert Execute(h, mac, config, r1, steps[1..]) == Execute(h, mac, config, r2, [steps[2]]);
    assert Execute(h, mac, config, r2, [steps[2]]) == Advance(h, mac, config, r2, steps[2]);
  }

  /** The entry after a segment exists and links to the segment's head hash. */
  predicate LinkedOnward(history: seq<Entry>, s: Segment) {
    0 < s.toSeq + 1 < |history| && s.headHash == history[s.toSeq + 1].prevHash
  }

  lemma SegmentsLinkOnward(h: HashFn, r: Run, i: nat)
    requires Sound(h, r) && Settled(r) && i < |r.node.segments|
    ensures LinkedOnward(r.history, r.node.segments[i])
  {
    SegmentsEndBelow(r.history, r.node.segments, r.node.ledger.baseSeq, i);
    assert TileAt(r.history, r.node.segments, i);
    assert GenuineAt(h, r.history, r.node.segments[i].toSeq + 1);
  }

  /** Rotation conserves history. After any run: the segments tile the rotated-out numbers without gap
      or overlap, purged or not; each keeps its count and head hash; an unpurged one holds exactly its
      part of the history; each head hash is what the following entry links to; and while nothing has
      been purged, archive followed by hot ledger is the full append history. */
  lemma RotationConservesHistory(h: HashFn, mac: Mac, config: RetentionConfig, steps: seq<Step>)
    ensures Conserved(Execute(h, mac, config, START, steps))
  {
    RunKeepsSound(h, mac, config, START, steps);
    SoundIsConserved(h, Execute(h, mac, config, START, steps));
  }

  lemma SoundIsConserved(h: HashFn, r: Run)
    requires Sound(h, r) && Settled(r)
    ensures Conserved(r)
  {
    var segments := r.node.segments;
    forall i | 0 <= i < |segments|
      ensures LinkedOnward(r.history, segments[i])
    {
      SegmentsLinkOnward(h, r, i);
    }
    if forall i :: 0 <= i < |segments| ==> segments[i].entries.Some? {
      FlattenedIsAPrefix(r.history, segments, r.node.ledger.baseSeq);
    }
    if |segments| > 0 {
      assert TileAt(r.history, segments, |segments| - 1);
    }
  }

  lemma {:induction false} SegmentsEndBelow(history: seq<Entry>, segments: seq<Segment>, base: int, i: nat)
    requires Tiles(history, segments, base) && i < |segments|
    ensures segments[i].toSeq < base
    decreases |segments| - i
  {
    if i + 1 < |segments| {
      SegmentsEndBelow(history, segments, base, i + 1);
      assert TileAt(history, segments, i + 1);
    }
  }

  /** The archive entry `later` is `earlier`, perhaps purged in between. */
  predicate SamePublicRecord(earlier: Segment, later: Segment) {
    later == earlier || later == earlier.(entries := None)
  }

  ghost predicate OnlyExtended(r: Run, after: Run) {
    && r.history <= after.history
    && r.node.anchors <= after.node.anchors
    && |r.node.segments| <= |after.node.segments|
    && forall i :: 0 <= i < |r.node.segments| ==> SamePublicRecord(r.node.segments[i], after.node.segments[i])
  }

  lemma StepRewritesNothing(h: HashFn, mac: Mac, config: RetentionConfig, r: Run, step: Step)
    ensures OnlyExtended(r, Advance(h, mac, config, r, step))
  {
    if step.Retain? {
      RotationRewritesNothing(h, mac, config, r, step.now, step.rotationAnchoredAt, step.rotationStampedAt);
    }
  }

  lemma RotationRewritesNothing(h: HashFn, mac: Mac, config: RetentionConfig, r: Run, now: Timestamp,
                                anchoredAt: int, stampedAt: Timestamp)
    ensures var rotated := RotateRun(h, mac, config, r, now, anchoredAt, stampedAt);
            OnlyExtended(r, rotated) && r.node.segments <= rotated.node.segments
  {
  }

  /** Append-only: over any further steps the history and the anchor list are only extended, and an
      archived segment loses at most its entries. */
  lemma {:induction false} NothingIsRewritten(h: HashFn, mac: Mac, config: RetentionConfig, r: Run, steps: seq<Step>)
    ensures OnlyExtended(r, Execute(h, mac, config, r, steps))
    decreases |steps|
  {
    if |steps| > 0 {
      StepRewritesNothing(h, mac, config, r, steps[0]);
      NothingIsRewritten(h, mac, config, Advance(h, mac, config, r, steps[0]), steps[1..]);
    }
  }

  // ---------------------------------------------------------------------------------------------
  // Clocks
  // ---------------------------------------------------------------------------------------------

  /** A step under a clock that never goes back: its clock readings are in order and not before
      `clock`, and one append takes no longer than the archive period (at least 30 days in a valid
      configuration). */
  predicate InOrder(config: RetentionConfig, clock: int, step: Step) {
    match step
    case Append(c) => CallInOrder(config, clock, c)
    case AnchorHead(now, stampedAt) => clock <= now <= stampedAt.ms
    case OperatorCommand(c, anchoredAt) => CallInOrder(config, clock, c) && c.stampedAt.ms <= anchoredAt
    case Retain(now, anchoredAt, stampedAt) => clock <= now.ms <= anchoredAt <= stampedAt.ms
    case Erase(buyer) => true
    case Restart => true
  }

  predicate CallInOrder(config: RetentionConfig, clock: int, c: AppendCall) {
    clock <= c.payloadKeyAt <= c.buyerKeyAt <= c.stampedAt.ms <= c.payloadKeyAt + config.ArchiveMs()
  }

  function ClockAfter(clock: int, step: Step): int {
    match step
    case Append(c) => c.stampedAt.ms
    case AnchorHead(now, stampedAt) => stampedAt.ms
    case OperatorCommand(c, anchoredAt) => anchoredAt
    case Retain(now, anchoredAt, stampedAt) => stampedAt.ms
    case Erase(buyer) => clock
    case Restart => clock
  }

  predicate AllInOrder(config: RetentionConfig, clock: int, steps: seq<Step>)
    decreases |steps|
  {
    |steps| == 0 || (InOrder(config, clock, steps[0]) && AllInOrder(config, ClockAfter(clock, steps[0]), steps[1..]))
  }

  ghost predicate Chronological(history: seq<Entry>, clock: int) {
    && (forall i :: 0 <= i < |history| ==> history[i].timestamp.ms <= clock)
    && (forall i, j :: 0 <= i < j < |history| ==> history[i].timestamp.ms <= history[j].timestamp.ms)
  }

  /** The latest clock reading of a run in order. */
  function ClockAtEnd(clock: int, steps: seq<Step>): int
    decreases |steps|
  {
    if |steps| == 0 then clock else ClockAtEnd(ClockAfter(clock, steps[0]), steps[1..])
  }

  lemma OrderOfTwo(config: RetentionConfig, steps: seq<Step>)
    requires |steps| == 2
    ensures AllInOrder(config, 0, steps) <==>
              InOrder(config, 0, steps[0]) && InOrder(config, ClockAfter(0, steps[0]), steps[1])
    ensures ClockAtEnd(0, steps) == ClockAfter(ClockAfter(0, steps[0]), steps[1])
  {
    assert steps[1..] == [steps[1]] && steps[1..][1..] == [];
    assert AllInOrder(config, ClockAfter(ClockAfter(0, steps[0]), steps[1]), steps[1..][1..]);
    assert ClockAtEnd(ClockAfter(0, steps[0]), steps[1..]) == ClockAfter(ClockAfter(0, steps[0]), steps[1]);
  }

  /** Under a forward clock the aged prefix is exactly the set of entries older than the cutoff. */
  lemma {:induction false} RotateTakesExactlyTheOld(entries: seq<Entry>, beforeMs: int)
    requires forall i, j :: 0 <= i < j < |entries| ==> entries[i].timestamp.ms <= entries[j].timestamp.ms
    ensures forall i :: 0 <= i < |entries| ==>
              (i < AgedCount(entries, beforeMs) <==> entries[i].timestamp.ms < beforeMs)
  {
    var n := AgedCount(entries, beforeMs);
    forall i | n <= i < |entries|
      ensures entries[i].timestamp.ms >= beforeMs
    {
      assert entries[n].timestamp.ms <= entries[i].timestamp.ms;
    }
  }

  /** What rotation leaves is exactly what is not older than its cutoff. */
  lemma HotIsRecent(h: HashFn, config: RetentionConfig, r: Run, clock: int, now: int, i: nat)
    requires Sound(h, r) && Chronological(r.history, clock)
    requires r.node.ledger.baseSeq <= i < |r.history|
    ensures r.node.ledger.baseSeq + RotateCount(config, r.node, now) <= i <==>
              r.history[i].timestamp.ms >= now - config.HotMs()
  {
    var l := r.node.ledger;
    HotIsChronological(h, r, clock);
    RotateTakesExactlyTheOld(l.entries, now - config.HotMs());
    assert l.entries[i - l.baseSeq] == r.history[i];
  }

  lemma HotIsChronological(h: HashFn, r: Run, clock: int)
    requires Sound(h, r) && Chronological(r.history, clock)
    ensures var entries := r.node.ledger.entries;
            forall i, j :: 0 <= i < j < |entries| ==> entries[i].timestamp.ms <= entries[j].timestamp.ms
  {
    assert r.node.ledger.entries == r.history[r.node.ledger.baseSeq..];
  }
}
