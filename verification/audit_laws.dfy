/** What the audit trail does, said of its entries, anchors and keys alone: what an append records, when a boot
    accepts any loaded ledger and how it refuses, what anchoring, operator commands and retention cycles
    leave. Durations are in milliseconds, a day has 86400000 of them and a retention month thirty days. */
module AuditLaws {
  import opened Wrappers
  import opened AuditChain
  import opened Pseudonyms
  import opened AuditNode
  import opened AuditRuns

  // ---------------------------------------------------------------------------------------------
  // What an append records
  // ---------------------------------------------------------------------------------------------

  /** A non-empty id that does not look like a pseudonym. */
  predicate IsRawId(id: string) {
    id != "" && !("psn_" <= id)
  }

  /** The pseudonym of the id under some key. */
  ghost predicate IsPseudonymOf(mac: Mac, pseudonym: string, id: string) {
    exists key :: pseudonym == "psn_" + mac(key, id)
  }

  /** The payload is as given, field by field, but for a raw buyer_id, which became a pseudonym of it. */
  ghost predicate RecordsPayload(mac: Mac, recorded: Payload, given: Payload) {
    && |recorded| == |given|
    && (forall i :: 0 <= i < |given| ==> recorded[i].0 == given[i].0)
    && (forall name :: name != "buyer_id" ==> FieldOf(recorded, name) == FieldOf(given, name))
    && match FieldOf(given, "buyer_id")
       case Some(Text(id)) =>
         if IsRawId(id) then
           exists psn :: FieldOf(recorded, "buyer_id") == Some(Text(psn)) && IsPseudonymOf(mac, psn, id)
         else FieldOf(recorded, "buyer_id") == Some(Text(id))
       case other => FieldOf(recorded, "buyer_id") == other
  }

  /** The entry records the call: class, request and time are the caller's, and a buyer is named by a pseudonym
      if the caller named one. */
  ghost predicate Records(mac: Mac, e: Entry, c: AppendCall) {
    && e.eventClass == c.eventClass && e.requestId == c.requestId && e.timestamp == c.stampedAt
    && RecordsPayload(mac, e.payload, c.payload)
    && (if c.buyerId.Some? && c.buyerId.value != ""
        then e.buyerId.Some? && IsPseudonymOf(mac, e.buyerId.value, c.buyerId.value)
        else e.buyerId.None?)
  }

  lemma {:induction false} WritingKeepsNames(p: Payload, name: string, v: Value)
    ensures |WithField(p, name, v)| == |p|
    ensures forall i :: 0 <= i < |p| ==> WithField(p, name, v)[i].0 == p[i].0
  {
    if |p| > 0 && p[0].0 != name {
      WritingKeepsNames(p[1..], name, v);
      assert forall i :: 0 < i < |p| ==> WithField(p, name, v)[i] == WithField(p[1..], name, v)[i - 1];
    }
  }

  lemma PayloadIsRecorded(mac: Mac, keys: Keys, c: AppendCall)
    ensures RecordsPayload(mac, SafePayload(mac, keys, c), c.payload)
  {
    var raw := RawBuyer(c.payload);
    if raw.Some? {
      var key := KeysAfterPayload(keys, c)[raw.value].key;
      var psn := "psn_" + mac(key, raw.value);
      FieldAfterWrite(c.payload, BUYER_FIELD, Text(psn));
      WritingKeepsNames(c.payload, BUYER_FIELD, Text(psn));
      assert IsPseudonymOf(mac, psn, raw.value);
    }
  }

  lemma CallIsRecorded(h: HashFn, mac: Mac, keys: Keys, l: Ledger, c: AppendCall)
    ensures Records(mac, Recorded(h, mac, keys, l, c), c)
  {
    PayloadIsRecorded(mac, keys, c);
    if c.buyerId.Some? && c.buyerId.value != "" {
      var key := KeysAfter(keys, c)[c.buyerId.value].key;
      assert Recorded(h, mac, keys, l, c).buyerId.value == "psn_" + mac(key, c.buyerId.value);
    }
  }

  /** What a step asks to be logged. */
  function CallsOf(h: HashFn, mac: Mac, config: RetentionConfig, r: Run, step: Step): seq<AppendCall> {
    match step
    case Append(c) => [c]
    case OperatorCommand(c, _) => [c]
    case AnchorHead(at, stampedAt) =>
      if HeadNeedsAnchor(r.node) then [AnchorEvent(HeadAnchor(r.node.ledger, at), stampedAt)] else []
    case Retain(now, _, stampedAt) =>
      var count := RotateCount(config, r.node, now.ms);
      if count == 0 then [] else [RotationEvent(SegmentOf(r.node.ledger.entries[..count], now), stampedAt)]
    case _ => []
  }

  function CallsDuring(h: HashFn, mac: Mac, config: RetentionConfig, r: Run, steps: seq<Step>): seq<AppendCall>
    decreases |steps|
  {
    if |steps| == 0 then []
    else CallsOf(h, mac, config, r, steps[0])
         + CallsDuring(h, mac, config, Advance(h, mac, config, r, steps[0]), steps[1..])
  }

  ghost predicate RecordsAll(mac: Mac, entries: seq<Entry>, calls: seq<AppendCall>) {
    |entries| == |calls| && forall i :: 0 <= i < |calls| ==> Records(mac, entries[i], calls[i])
  }

  lemma StepRecordsItsCalls(h: HashFn, mac: Mac, config: RetentionConfig, r: Run, step: Step)
    ensures var after := Advance(h, mac, config, r, step);
            && r.history <= after.history
            && RecordsAll(mac, after.history[|r.history|..], CallsOf(h, mac, config, r, step))
  {
    var calls := CallsOf(h, mac, config, r, step);
    if |calls| == 1 {
      CallIsRecorded(h, mac, r.node.keys, Writing(config, r, step).node.ledger, calls[0]);
    }
  }

  /** The run just before the step's entry is written. */
  function Writing(config: RetentionConfig, r: Run, step: Step): Run {
    match step
    case AnchorHead(at, _) => Anchored(r, at)
    case Retain(now, anchoredAt, _) =>
      var count := RotateCount(config, r.node, now.ms);
      if count == 0 then r else Rotated(r, count, now, anchoredAt)
    case _ => r
  }

  lemma {:induction false} StepsRecordTheirCalls(h: HashFn, mac: Mac, config: RetentionConfig, r: Run, steps: seq<Step>)
    ensures var after := Execute(h, mac, config, r, steps);
            && r.history <= after.history
            && RecordsAll(mac, after.history[|r.history|..], CallsDuring(h, mac, config, r, steps))
    decreases |steps|
  {
    if |steps| > 0 {
      var next := Advance(h, mac, config, r, steps[0]);
      var after := Execute(h, mac, config, next, steps[1..]);
      StepRecordsItsCalls(h, mac, config, r, steps[0]);
      StepsRecordTheirCalls(h, mac, config, next, steps[1..]);
      RecordsInTurn(mac, r.history, next.history, after.history, CallsOf(h, mac, config, r, steps[0]),
                    CallsDuring(h, mac, config, next, steps[1..]));
    }
  }

  lemma RecordsInTurn(mac: Mac, a: seq<Entry>, b: seq<Entry>, c: seq<Entry>, first: seq<AppendCall>,
                      rest: seq<AppendCall>)
    requires a <= b <= c && RecordsAll(mac, b[|a|..], first) && RecordsAll(mac, c[|b|..], rest)
    ensures a <= c && RecordsAll(mac, c[|a|..], first + rest)
  {
    forall i | 0 <= i < |first + rest|
      ensures Records(mac, c[|a|..][i], (first + rest)[i])
    {
      if i < |first| {
        assert c[|a|..][i] == b[|a|..][i];
      } else {
        assert c[|a|..][i] == c[|b|..][i - |first|];
      }
    }
  }

  /** The log is what was asked to be logged: after any run the i-th entry of the history records the i-th
      call, and there are no other entries. */
  lemma HistoryRecordsTheCalls(h: HashFn, mac: Mac, config: RetentionConfig, steps: seq<Step>)
    ensures RecordsAll(mac, Execute(h, mac, config, START, steps).history, CallsDuring(h, mac, config, START, steps))
  {
    StepsRecordTheirCalls(h, mac, config, START, steps);
    var history := Execute(h, mac, config, START, steps).history;
    assert history[0..] == history;
  }

  // ---------------------------------------------------------------------------------------------
  // When a boot accepts
  // ---------------------------------------------------------------------------------------------

  /** The entry before the ledger, or entry number `seqNo` of it, carries the hash. */
  predicate CarriesHash(l: Ledger, seqNo: int, hash: string) {
    || (seqNo == l.baseSeq - 1 && l.carry != "" && l.carry == hash)
    || (l.baseSeq <= seqNo < l.baseSeq + |l.entries| && l.entries[seqNo - l.baseSeq].hash == hash)
  }

  /** Entry `k` hashes to its hash and links to the entry before it. */
  predicate IsChained(h: HashFn, l: Ledger, k: nat)
    requires k < |l.entries|
  {
    var e := l.entries[k];
    && h(Canonical(e.seqNo, e.eventClass, e.payload, e.prevHash, e.timestamp.text)) == e.hash
    && e.prevHash == (if k == 0 then l.carry else l.entries[k - 1].hash)
  }

  ghost predicate AllChained(h: HashFn, l: Ledger) {
    forall k :: 0 <= k < |l.entries| ==> IsChained(h, l, k)
  }

  /** Any ledger, however it came about: accepted exactly if it is empty and unanchored, or the last anchored
      hash is at its number and every entry is chained. Each refusal names the first thing wrong. */
  lemma BootVerdictExactly(h: HashFn, l: Ledger, anchors: seq<AnchorRecord>)
    ensures var v := VerifyAfterRestore(h, l, anchors);
            if |anchors| == 0 then
              var blank := |l.entries| == 0 || l.entries[|l.entries| - 1].hash == "";
              v.valid == blank && v.error == if blank then None else Some(NoAnchorButNonEmptyLedger)
            else
              var last := anchors[|anchors| - 1];
              && (v.valid <==> CarriesHash(l, last.seqNo, last.headHash) && AllChained(h, l))
              && (v.error == Some(AnchoredEntryMissing) <==> forall hash :: !CarriesHash(l, last.seqNo, hash))
              && (v.error == Some(AnchoredPrefixMismatch)
                  <==> !CarriesHash(l, last.seqNo, last.headHash) && exists hash :: CarriesHash(l, last.seqNo, hash))
  {
    assert (forall k :: 0 <= k < |l.entries| ==> (IsChained(h, l, k) <==> LinkHolds(h, l, k)));
    if |anchors| > 0 {
      var last := anchors[|anchors| - 1];
      HashAtCarries(l, last.seqNo);
      assert IsReplay(h, l, Replay(h, l));
    }
  }

  lemma HashAtCarries(l: Ledger, seqNo: int)
    ensures forall hash :: CarriesHash(l, seqNo, hash) <==> HashAt(l, seqNo) == Some(hash)
  {
  }

  /** A replay failure names the first entry that is not chained. */
  lemma ReplayNamesTheFirst(h: HashFn, l: Ledger, anchors: seq<AnchorRecord>, at: nat)
    requires VerifyAfterRestore(h, l, anchors).error == Some(ReplayFailed(at))
    ensures at < |l.entries| && !IsChained(h, l, at) && forall k :: 0 <= k < at ==> IsChained(h, l, k)
  {
    assert IsReplay(h, l, Replay(h, l));
    assert (forall k :: 0 <= k < |l.entries| ==> (IsChained(h, l, k) <==> LinkHolds(h, l, k)));
  }

  // ---------------------------------------------------------------------------------------------
  // Anchoring and operator commands
  // ---------------------------------------------------------------------------------------------

  /** What a log entry about an anchor says of it. */
  predicate NamesAnchor(e: Entry, hash: string) {
    && e.eventClass == "anchoring" && e.buyerId.None?
    && FieldOf(e.payload, "anchored_head_hash") == Some(Text(hash))
  }

  /** The periodic anchor does nothing exactly when nothing is hot or the last anchor has the head's hash.
      Otherwise it pins the last entry of the history and logs, after it, which one. */
  lemma AnchorHeadExactly(h: HashFn, mac: Mac, config: RetentionConfig, r: Run, at: int, stampedAt: Timestamp)
    requires Sound(h, r)
    ensures var n, last := r.node, |r.history| - 1;
            var after := Advance(h, mac, config, r, AnchorHead(at, stampedAt));
            if |n.ledger.entries| == 0
               || (|n.anchors| > 0 && n.anchors[|n.anchors| - 1].headHash == r.history[last].hash)
            then after == r
            else
              && last >= 0 && |after.history| == last + 2
              && after.node.anchors == n.anchors + [AnchorRecord(last, r.history[last].hash, at)]
              && NamesAnchor(after.history[last + 1], r.history[last].hash)
              && FieldOf(after.history[last + 1].payload, "anchor_seq") == Some(Number(last))
              && after.history[last + 1].timestamp == stampedAt
              && after.node.segments == n.segments && after.node.keys == n.keys && after.node.keyFile == n.keyFile
  {
    if |r.node.ledger.entries| > 0 {
      HeadIsLast(h, r);
      AnchorPayload(HeadAnchor(r.node.ledger, at), stampedAt);
    }
  }

  lemma HeadIsLast(h: HashFn, r: Run)
    requires Sound(h, r) && |r.node.ledger.entries| > 0
    ensures var last := |r.history| - 1;
            && last >= 0 && HeadSeq(r.node.ledger) == last
            && HeadHash(r.node.ledger) == r.history[last].hash && r.history[last].hash != ""
  {
    var l := r.node.ledger;
    assert l.entries[|l.entries| - 1] == r.history[|r.history| - 1];
    assert GenuineAt(h, r.history, |r.history| - 1);
  }

  lemma AnchorPayload(a: AnchorRecord, stampedAt: Timestamp)
    ensures var p := AnchorEvent(a, stampedAt).payload;
            && FieldOf(p, "anchored_head_hash") == Some(Text(a.headHash))
            && FieldOf(p, "anchor_seq") == Some(Number(a.seqNo))
            && RawBuyer(p).None?
  {
    var p := AnchorEvent(a, stampedAt).payload;
    assert "anchored_head_hash" != "anchor_seq" by {
      assert "anchored_head_hash"[6] != "anchor_seq"[6];
    }
    assert p[1..][0] == p[1];
    AbsentField(p, BUYER_FIELD);
  }

  /** An operator command leaves its act as the last entry and an anchor of that, so the next boot accepts. */
  lemma OperatorCommandExactly(h: HashFn, mac: Mac, config: RetentionConfig, r: Run, c: AppendCall, anchoredAt: int)
    requires Sound(h, r)
    ensures var last := |r.history|;
            var after := Advance(h, mac, config, r, OperatorCommand(c, anchoredAt));
            && |after.history| == last + 1 && after.history[..last] == r.history
            && Records(mac, after.history[last], c)
            && after.node.anchors == r.node.anchors + [AnchorRecord(last, after.history[last].hash, anchoredAt)]
            && BootAccepts(h, after.node)
  {
    var written := Write(h, mac, r, c);
    WriteKeepsSound(h, mac, r, c);
    CallIsRecorded(h, mac, r.node.keys, r.node.ledger, c);
    AnchoringKeepsIntact(h, written, anchoredAt);
    IntactIsAcceptedExactly(h, Anchored(written, anchoredAt));
  }

  // ---------------------------------------------------------------------------------------------
  // Retention cycles
  // ---------------------------------------------------------------------------------------------

  /** The first `count` hot entries are older than the hot days and the next one is not. */
  predicate AgedBy(config: RetentionConfig, l: Ledger, now: int, count: nat) {
    && count <= |l.entries|
    && (forall i :: 0 <= i < count ==> l.entries[i].timestamp.ms < now - config.hotDays * 86_400_000)
    && (count < |l.entries| ==> l.entries[count].timestamp.ms >= now - config.hotDays * 86_400_000)
  }

  lemma RotateCountExactly(config: RetentionConfig, n: Node, now: int)
    ensures AgedBy(config, n.ledger, now, RotateCount(config, n, now))
    ensures forall count :: AgedBy(config, n.ledger, now, count) ==> count == RotateCount(config, n, now)
  {
  }

  lemma RotationPayload(s: Segment, stampedAt: Timestamp)
    ensures var p := RotationEvent(s, stampedAt).payload;
            && FieldOf(p, "anchored_head_hash") == Some(Text(s.headHash))
            && FieldOf(p, "from_seq") == Some(Number(s.fromSeq)) && FieldOf(p, "to_seq") == Some(Number(s.toSeq))
            && FieldOf(p, "segment_closed_at") == Some(Text(s.closedAt.text))
            && RawBuyer(p).None?
  {
    var p := RotationEvent(s, stampedAt).payload;
    assert p[0].0[0] == 'a' && p[1].0[0] == 'r' && p[2].0[0] == 'f' && p[3].0[0] == 't' && p[4].0[0] == 's';
    FieldAt(p, 2);
    FieldAt(p, 3);
    FieldAt(p, 4);
    assert BUYER_FIELD[0] == 'b';
    AbsentField(p, BUYER_FIELD);
  }

  /** A field is found where it stands if its name begins unlike those before it. */
  lemma {:induction false} FieldAt(p: Payload, k: nat)
    requires k < |p| && p[k].0 != "" && forall j :: 0 <= j < k ==> p[j].0 != "" && p[j].0[0] != p[k].0[0]
    ensures FieldOf(p, p[k].0) == Some(p[k].1)
  {
    if k > 0 {
      assert p[0].0 != p[k].0;
      FieldAt(p[1..], k - 1);
    }
  }

  /** A rotation takes out the aged prefix, if there is one: it archives those entries, pins the last of them,
      and logs which they were. */
  lemma RotationExactly(h: HashFn, mac: Mac, config: RetentionConfig, r: Run, now: Timestamp, anchoredAt: int,
                        stampedAt: Timestamp, count: nat)
    requires Sound(h, r) && AgedBy(config, r.node.ledger, now.ms, count)
    ensures var base := r.node.ledger.baseSeq;
            var after := RotateRun(h, mac, config, r, now, anchoredAt, stampedAt);
            if count == 0 then after == r
            else
              var to, event := base + count - 1, |r.history|;
              && to < event && |after.history| == event + 1 && after.history[..event] == r.history
              && after.node.ledger.baseSeq == base + count
              && after.node.segments == r.node.segments
                 + [Segment(base, to, r.history[to].hash, now, count, Some(r.history[base..to + 1]))]
              && after.node.anchors == r.node.anchors + [AnchorRecord(to, r.history[to].hash, anchoredAt)]
              && NamesAnchor(after.history[event], r.history[to].hash)
              && FieldOf(after.history[event].payload, "from_seq") == Some(Number(base))
              && FieldOf(after.history[event].payload, "to_seq") == Some(Number(to))
              && FieldOf(after.history[event].payload, "segment_closed_at") == Some(Text(now.text))
              && after.node.keys == r.node.keys && after.node.keyFile == r.node.keyFile
  {
    RotateCountExactly(config, r.node, now.ms);
    if count > 0 {
      SegmentExactly(h, r, now, count);
      RotationPayload(SegmentOf(r.node.ledger.entries[..count], now), stampedAt);
    }
  }

  lemma SegmentExactly(h: HashFn, r: Run, now: Timestamp, count: nat)
    requires Sound(h, r) && 0 < count <= |r.node.ledger.entries|
    ensures var base := r.node.ledger.baseSeq;
            var to := base + count - 1;
            && 0 <= base <= to < |r.history|
            && SegmentOf(r.node.ledger.entries[..count], now)
               == Segment(base, to, r.history[to].hash, now, count, Some(r.history[base..to + 1]))
  {
    SegmentIsGenuine(h, r, count, now);
    assert r.node.ledger.entries[..count] == r.history[r.node.ledger.baseSeq..r.node.ledger.baseSeq + count];
  }

  /** After its rotation a cycle drops the entries of exactly the segments closed more than the archive months
      ago and exactly the keys idle for longer than hot days and archive months together, and saves the keys
      if it dropped one. */
  lemma RetiringExactly(config: RetentionConfig, r: Run, now: int)
    ensures var after := Retired(config, r, now);
            && |after.node.segments| == |r.node.segments|
            && (forall i :: 0 <= i < |r.node.segments| ==>
                  PurgedAt(config, r.node.segments[i], after.node.segments[i], now))
            && (forall b :: b in after.node.keys <==> b in r.node.keys && !IdleTooLong(config, r.node.keys[b], now))
            && (forall b :: b in after.node.keys ==> after.node.keys[b] == r.node.keys[b])
            && (after.node.keyFile == if exists b :: b in r.node.keys && IdleTooLong(config, r.node.keys[b], now)
                                      then after.node.keys else r.node.keyFile)
            && after.node.ledger == r.node.ledger && after.node.anchors == r.node.anchors && after.history == r.history
  {
    var after := Retired(config, r, now);
    forall i | 0 <= i < |r.node.segments|
      ensures PurgedAt(config, r.node.segments[i], after.node.segments[i], now)
    {
      assert PurgeOf(config, r.node.segments[i], after.node.segments[i], now);
    }
    if forall b :: b in r.node.keys ==> !IdleTooLong(config, r.node.keys[b], now) {
      assert after.node.keys == r.node.keys;
    } else {
      var b :| b in r.node.keys && IdleTooLong(config, r.node.keys[b], now);
      assert b !in after.node.keys;
    }
  }

  predicate PurgedAt(config: RetentionConfig, before: Segment, after: Segment, now: int) {
    if before.closedAt.ms < now - config.archiveMonths * 2_592_000_000 then after == before.(entries := None)
    else after == before
  }

  predicate IdleTooLong(config: RetentionConfig, k: KeyRecord, now: int) {
    k.lastUsedAt < now - (config.hotDays * 86_400_000 + config.archiveMonths * 2_592_000_000)
  }

  // ---------------------------------------------------------------------------------------------
  // Keys
  // ---------------------------------------------------------------------------------------------

  /** What one append does to the key of any buyer: a key once made stays with its making, its last use is the
      reading of its last use in this append, and a new one is made at its first. */
  lemma KeyUseExactly(h: HashFn, mac: Mac, n: Node, c: AppendCall, b: string)
    ensures var named := c.buyerId == Some(b) && b != "";
            var inPayload := IsRawId(b) && FieldOf(c.payload, "buyer_id") == Some(Text(b));
            var after := AppendStep(h, mac, n, c).keys;
            if !named && !inPayload then (b in after <==> b in n.keys) && (b in after ==> after[b] == n.keys[b])
            else
              && b in after
              && after[b].lastUsedAt == (if named then c.buyerKeyAt else c.payloadKeyAt)
              && (if b in n.keys then after[b].key == n.keys[b].key && after[b].createdAt == n.keys[b].createdAt
                  else if inPayload then after[b].key == c.payloadFresh && after[b].createdAt == c.payloadKeyAt
                  else after[b].key == c.buyerFresh && after[b].createdAt == c.buyerKeyAt)
  {
  }

  /** An erasure takes the one key, from the working store and from the saved one; a restart brings back the
      saved one. */
  lemma EraseAndRestartExactly(h: HashFn, mac: Mac, config: RetentionConfig, r: Run, buyer: string, b: string)
    ensures var erased := Advance(h, mac, config, r, Erase(buyer)).node;
            && (b in erased.keys <==> b in r.node.keys && b != buyer)
            && (b in erased.keys ==> erased.keys[b] == r.node.keys[b])
            && erased.keyFile == (if buyer in r.node.keys then erased.keys else r.node.keyFile)
            && erased.ledger == r.node.ledger && erased.segments == r.node.segments
    ensures Advance(h, mac, config, r, Restart) == r.(node := r.node.(keys := r.node.keyFile))
  {
  }
}
