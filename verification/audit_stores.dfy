/** The stores of the audit trail as the objects the node updates in place. Each `file` field is what
    the store last saved: loading a store means constructing it from that value. */
module AuditStores {
  import opened Wrappers
  import opened AuditChain
  import opened Pseudonyms
  import opened AuditNode

  class AuditLedger {
    const h: HashFn
    const pseudonyms: PseudonymService
    var entries: seq<Entry>
    var baseSeq: int
    var carryPrevHash: string
    var file: Ledger

    ghost function State(): Ledger
      reads this
    {
      Ledger(baseSeq, carryPrevHash, entries)
    }

    /** Every change was saved, so a restart restores exactly this state. */
    ghost predicate Valid()
      reads this
    {
      file == State()
    }

    constructor (h: HashFn, file: Ledger, pseudonyms: PseudonymService)
      ensures Valid() && State() == file
      ensures this.h == h && this.pseudonyms == pseudonyms
    {
      this.h := h;
      this.pseudonyms := pseudonyms;
      entries, baseSeq, carryPrevHash := file.entries, file.baseSeq, file.carry;
      this.file := file;
    }

    method Save()
      modifies this`file
      ensures Valid()
    {
      file := Ledger(baseSeq, carryPrevHash, entries);
    }

    method Append(c: AppendCall) returns (entry: Entry)
      requires Valid()
      modifies this, pseudonyms
      ensures Valid()
      ensures entry == Recorded(h, pseudonyms.mac, old(pseudonyms.keys), old(State()), c)
      ensures entry.eventClass == c.eventClass && entry.requestId == c.requestId && entry.timestamp == c.stampedAt
      ensures State() == Appended(old(State()), entry)
      ensures pseudonyms.keys == KeysAfter(old(pseudonyms.keys), c)
      ensures pseudonyms.file == KeyFileAfter(old(pseudonyms.keys), old(pseudonyms.file), c)
    {
      var safePayload := pseudonyms.PseudonymizePayload(c.payload, c.payloadKeyAt, c.payloadFresh);
      var safeBuyer: Option<string> := None;
      if c.buyerId.Some? && c.buyerId.value != "" {
        var pseudonym := pseudonyms.Pseudonymize(c.buyerId.value, c.buyerKeyAt, c.buyerFresh);
        safeBuyer := Some(pseudonym);
      }
      var seqNo := baseSeq + |entries|;
      var prevHash := if |entries| == 0 then carryPrevHash else entries[|entries| - 1].hash;
      var hash := h(Canonical(seqNo, c.eventClass, safePayload, prevHash, c.stampedAt.text));
      entry := Entry(seqNo, c.eventClass, safeBuyer, c.requestId, safePayload, c.stampedAt, prevHash, hash);
      entries := entries + [entry];
      Save();
    }

    method RotateOut(beforeMs: int) returns (removed: seq<Entry>)
      requires Valid()
      modifies this
      ensures Valid()
      ensures var count := AgedCount(old(entries), beforeMs);
              && removed == old(entries)[..count]
              && State() == WithoutPrefix(old(State()), count)
    {
      var count := 0;
      while count < |entries| && entries[count].timestamp.ms < beforeMs
        invariant count <= |entries|
        invariant forall i :: 0 <= i < count ==> entries[i].timestamp.ms < beforeMs
      {
        count := count + 1;
      }
      AgedCountIs(entries, beforeMs, count);
      if count == 0 {
        return [];
      }
      removed := entries[..count];
      entries := entries[count..];
      baseSeq := baseSeq + count;
      carryPrevHash := removed[|removed| - 1].hash;
      Save();
    }

    method ReplayVerify() returns (r: ReplayResult)
      ensures r == Replay(h, State())
      ensures IsReplay(h, State(), r)
    {
      ghost var l := State();
      var i := 0;
      while i < |entries|
        invariant i <= |entries|
        invariant forall k :: 0 <= k < i ==> LinkHolds(h, l, k)
        invariant Replay(h, l) == Replay(h, l, i)
      {
        if !VerifyEntryHash(h, entries[i]) {
          return Failed(i, HashMismatch);
        }
        var expectedPrev := if i == 0 then carryPrevHash else entries[i - 1].hash;
        if entries[i].prevHash != expectedPrev {
          return Failed(i, ChainBreak);
        }
        i := i + 1;
      }
      r := ReplayResult.Valid;
    }
  }

  class HeadHashAnchor {
    var records: seq<AnchorRecord>
    var file: seq<AnchorRecord>   // only ever extended

    ghost predicate Valid()
      reads this
    {
      file == records
    }

    constructor (file: seq<AnchorRecord>)
      ensures Valid() && records == file
    {
      records, this.file := file, file;
    }

    method Anchor(headHash: string, highestSeq: int, now: int) returns (record: AnchorRecord)
      requires Valid()
      modifies this
      ensures Valid()
      ensures record == AnchorRecord(highestSeq, headHash, now)
      ensures records == old(records) + [record]
    {
      record := AnchorRecord(highestSeq, headHash, now);
      records := records + [record];
      file := file + [record];
    }
  }

  class RetentionService {
    const config: RetentionConfig
    const anchor: HeadHashAnchor
    var segments: seq<Segment>
    var file: seq<Segment>

    ghost predicate Valid()
      reads this
    {
      file == segments
    }

    constructor (config: RetentionConfig, anchor: HeadHashAnchor, file: seq<Segment>)
      ensures Valid() && segments == file && this.config == config && this.anchor == anchor
    {
      this.config, this.anchor := config, anchor;
      segments, this.file := file, file;
    }

    method TakeAged(ledger: AuditLedger, cutoff: int) returns (removed: seq<Entry>)
      requires Valid() && ledger.Valid() && anchor.Valid()
      modifies ledger
      ensures Valid() && ledger.Valid() && anchor.Valid()
      ensures var before := old(NodeOf(ledger, anchor, this));
              var count := AgedCount(before.ledger.entries, cutoff);
              NodeOf(ledger, anchor, this) == Shortened(before, count) && removed == before.ledger.entries[..count]
    {
      removed := ledger.RotateOut(cutoff);
    }

    method PinSegment(ledger: AuditLedger, closed: Segment, anchoredAt: int)
      requires Valid() && ledger.Valid() && anchor.Valid()
      modifies anchor
      ensures Valid() && ledger.Valid() && anchor.Valid()
      ensures NodeOf(ledger, anchor, this) == SegmentAnchored(old(NodeOf(ledger, anchor, this)), closed, anchoredAt)
    {
      var record := anchor.Anchor(closed.headHash, closed.toSeq, anchoredAt);
    }

    method LogRotation(ledger: AuditLedger, closed: Segment, stampedAt: Timestamp)
      requires Valid() && ledger.Valid() && anchor.Valid()
      modifies ledger, ledger.pseudonyms
      ensures Valid() && ledger.Valid() && anchor.Valid()
      ensures NodeOf(ledger, anchor, this)
           == AppendStep(ledger.h, ledger.pseudonyms.mac, old(NodeOf(ledger, anchor, this)),
                         RotationEvent(closed, stampedAt))
    {
      var entry := ledger.Append(RotationEvent(closed, stampedAt));
    }

    method Archive(ghost ledger: AuditLedger, closed: Segment)
      requires Valid() && ledger.Valid() && anchor.Valid()
      modifies this
      ensures Valid() && ledger.Valid() && anchor.Valid()
      ensures var before := old(NodeOf(ledger, anchor, this));
              NodeOf(ledger, anchor, this) == before.(segments := before.segments + [closed])
    {
      segments := segments + [closed];
      file := segments;
    }

    /** Anchor, log and archive the closed segment. */
    method CloseSegment(ledger: AuditLedger, closed: Segment, anchoredAt: int, stampedAt: Timestamp)
      returns (ghost saves: seq<Node>)
      requires Valid() && ledger.Valid() && anchor.Valid()
      modifies this, ledger, ledger.pseudonyms, anchor
      ensures Valid() && ledger.Valid() && anchor.Valid()
      ensures saves == ClosingSaves(ledger.h, ledger.pseudonyms.mac, old(NodeOf(ledger, anchor, this)), closed,
                                    anchoredAt, stampedAt)
      ensures NodeOf(ledger, anchor, this) == saves[2]
    {
      PinSegment(ledger, closed, anchoredAt);
      ghost var anchored := NodeOf(ledger, anchor, this);
      LogRotation(ledger, closed, stampedAt);
      ghost var logged := NodeOf(ledger, anchor, this);
      Archive(ledger, closed);
      saves := [anchored, logged, NodeOf(ledger, anchor, this)];
    }

    /** `saves` shows the node as each of the four saves left it. */
    method Rotate(ledger: AuditLedger, now: Timestamp, anchoredAt: int, stampedAt: Timestamp)
      returns (segment: Option<Segment>, ghost saves: seq<Node>)
      requires Valid() && ledger.Valid() && anchor.Valid()
      modifies this, ledger, ledger.pseudonyms, anchor
      ensures Valid() && ledger.Valid() && anchor.Valid()
      ensures var before := old(NodeOf(ledger, anchor, this));
              var count := RotateCount(config, before, now.ms);
              segment == if count == 0 then None else Some(SegmentOf(before.ledger.entries[..count], now))
      ensures var before := old(NodeOf(ledger, anchor, this));
              && saves == AllSaves(ledger.h, ledger.pseudonyms.mac, config, before, now, anchoredAt, stampedAt)
              && NodeOf(ledger, anchor, this)
                 == RotateStep(ledger.h, ledger.pseudonyms.mac, config, before, now, anchoredAt, stampedAt)
    {
      ghost var before := NodeOf(ledger, anchor, this);
      AllSavesAreThose(ledger.h, ledger.pseudonyms.mac, config, before, now, anchoredAt, stampedAt);
      var removed := TakeAged(ledger, now.ms - config.hotDays * DAY_MS);
      if |removed| == 0 {
        NothingTaken(before);
        return None, [];
      }
      ghost var shortened := NodeOf(ledger, anchor, this);
      var last := removed[|removed| - 1];
      var closed := Segment(removed[0].seqNo, last.seqNo, last.hash, now, |removed|, Some(removed));
      assert closed == SegmentOf(removed, now);
      saves := CloseSegment(ledger, closed, anchoredAt, stampedAt);
      saves := [shortened] + saves;
      segment := Some(closed);
    }

    method Purge(now: int) returns (purged: nat)
      requires Valid()
      modifies this
      ensures Valid()
      ensures segments == PurgedSegments(config, old(segments), now)
      ensures purged == DueCount(config, old(segments), |old(segments)|, now)
    {
      purged := 0;
      var kept: seq<Segment> := [];
      for i := 0 to |segments|
        invariant |kept| == i && forall k :: 0 <= k < i ==> kept[k] == PurgedSegment(config, segments[k], now)
        invariant purged == DueCount(config, segments, i, now)
      {
        var s := segments[i];
        if s.entries.Some? && s.closedAt.ms < now - config.archiveMonths * MONTH_MS {
          purged := purged + 1;
          kept := kept + [s.(entries := None)];
        } else {
          kept := kept + [s];
        }
      }
      assert kept == PurgedSegments(config, segments, now);
      assert purged == 0 ==> kept == segments;
      segments := kept;
      if purged > 0 {
        file := segments;
      }
    }
  }

  ghost function NodeOf(ledger: AuditLedger, anchor: HeadHashAnchor, retention: RetentionService): Node
    reads ledger, ledger.pseudonyms, anchor, retention
  {
    Node(ledger.State(), anchor.records, retention.segments, ledger.pseudonyms.keys, ledger.pseudonyms.file)
  }

  method RunRetentionCycle(retention: RetentionService, ledger: AuditLedger, now: Timestamp, anchoredAt: int,
                           stampedAt: Timestamp)
    returns (rotated: Option<Segment>, purged: nat, shredded: nat)
    requires retention.Valid() && ledger.Valid() && retention.anchor.Valid()
    modifies retention, ledger, ledger.pseudonyms, retention.anchor
    ensures retention.Valid() && ledger.Valid() && retention.anchor.Valid()
    ensures NodeOf(ledger, retention.anchor, retention)
         == CycleStep(ledger.h, ledger.pseudonyms.mac, retention.config,
                      old(NodeOf(ledger, retention.anchor, retention)), now, anchoredAt, stampedAt)
  {
    ghost var saves;
    rotated, saves := retention.Rotate(ledger, now, anchoredAt, stampedAt);
    purged := retention.Purge(now.ms);
    shredded := ledger.pseudonyms.ShredInactive(now.ms - retention.config.HorizonMs());
  }

  method AnchorHead(ledger: AuditLedger, anchor: HeadHashAnchor, retention: RetentionService, now: int,
                    stampedAt: Timestamp)
    requires ledger.Valid() && anchor.Valid()
    modifies ledger, ledger.pseudonyms, anchor
    ensures ledger.Valid() && anchor.Valid()
    ensures NodeOf(ledger, anchor, retention)
         == AnchorHeadStep(ledger.h, ledger.pseudonyms.mac, old(NodeOf(ledger, anchor, retention)), now, stampedAt)
  {
    ghost var before := NodeOf(ledger, anchor, retention);
    var headHash := if |ledger.entries| == 0 then "" else ledger.entries[|ledger.entries| - 1].hash;
    if headHash == "" || (|anchor.records| > 0 && anchor.records[|anchor.records| - 1].headHash == headHash) {
      assert !HeadNeedsAnchor(before);
      return;
    }
    assert HeadNeedsAnchor(before);
    var record := anchor.Anchor(headHash, ledger.baseSeq + |ledger.entries| - 1, now);
    assert record == HeadAnchor(before.ledger, now);
    var entry := ledger.Append(AnchorEvent(record, stampedAt));
  }

  /** Both operator commands: audit the act, then anchor the new head. */
  method RecordAndAnchor(ledger: AuditLedger, anchor: HeadHashAnchor, retention: RetentionService, c: AppendCall,
                         now: int)
    requires ledger.Valid() && anchor.Valid()
    modifies ledger, ledger.pseudonyms, anchor
    ensures ledger.Valid() && anchor.Valid()
    ensures NodeOf(ledger, anchor, retention)
         == AppendAndAnchorStep(ledger.h, ledger.pseudonyms.mac, old(NodeOf(ledger, anchor, retention)), c, now)
  {
    var entry := ledger.Append(c);
    var record := anchor.Anchor(entry.hash, ledger.baseSeq + |ledger.entries| - 1, now);
  }
}
