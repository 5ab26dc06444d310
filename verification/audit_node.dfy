/** What one server, retention or operator action does to the audit state as a whole: ledger, anchor
    records, archived segments and pseudonym keys. The classes in AuditStores are proved against
    these functions, and AuditRuns reasons about every sequence of them. */
module AuditNode {
  import opened Wrappers
  import opened AuditChain
  import opened Pseudonyms

  const DAY_MS := 24 * 60 * 60 * 1000
  const MONTH_MS := 30 * DAY_MS

  /** Both values are positive integers in a valid deployment configuration. */
  datatype RetentionConfig = RetentionConfig(hotDays: int, archiveMonths: int) {
    predicate Valid() { hotDays > 0 && archiveMonths > 0 }
    function HotMs(): int { hotDays * DAY_MS }
    function ArchiveMs(): int { archiveMonths * MONTH_MS }
    function HorizonMs(): int { HotMs() + ArchiveMs() }
  }

  /** `entries` is None once purged. */
  datatype Segment = Segment(
    fromSeq: int, toSeq: int, headHash: string, closedAt: Timestamp, entryCount: nat, entries: Option<seq<Entry>>)

  /** Ledger, anchors and segments are saved with every change; of the keys there is the working store and
      the one last saved, which `last_used_at` may have outrun. */
  datatype Node = Node(ledger: Ledger, anchors: seq<AnchorRecord>, segments: seq<Segment>, keys: Keys, keyFile: Keys)

  const FIRST_BOOT := Node(EMPTY_LEDGER, [], [], map[], map[])

  /** The arguments of an append and what the clock and the random source return during it:
      when the payload's key and the actor's key are used, and when the entry is stamped. */
  datatype AppendCall = AppendCall(
    eventClass: string, payload: Payload, buyerId: Option<string>, requestId: Option<string>,
    payloadKeyAt: int, payloadFresh: string, buyerKeyAt: int, buyerFresh: string, stampedAt: Timestamp)

  /** An append that names no buyer, as the anchoring events do. */
  function SystemCall(payload: Payload, stampedAt: Timestamp): AppendCall {
    AppendCall(ANCHORING, payload, None, None, stampedAt.ms, "", stampedAt.ms, "", stampedAt)
  }

  function KeysAfterPayload(keys: Keys, c: AppendCall): Keys {
    match RawBuyer(c.payload)
    case None => keys
    case Some(raw) => Touched(keys, raw, c.payloadKeyAt, c.payloadFresh)
  }

  function SafePayload(mac: Mac, keys: Keys, c: AppendCall): Payload {
    match RawBuyer(c.payload)
    case None => c.payload
    case Some(raw) => WithField(c.payload, BUYER_FIELD, Text(PseudonymOf(mac, KeysAfterPayload(keys, c), raw)))
  }

  /** An empty buyer_id counts as none. */
  predicate NamesBuyer(c: AppendCall) {
    c.buyerId.Some? && c.buyerId.value != ""
  }

  function KeysAfter(keys: Keys, c: AppendCall): Keys {
    var afterPayload := KeysAfterPayload(keys, c);
    if NamesBuyer(c) then Touched(afterPayload, c.buyerId.value, c.buyerKeyAt, c.buyerFresh) else afterPayload
  }

  function KeyFileAfterPayload(keys: Keys, file: Keys, c: AppendCall): Keys {
    match RawBuyer(c.payload)
    case None => file
    case Some(raw) => SavedAfterTouch(keys, file, raw, c.payloadKeyAt, c.payloadFresh)
  }

  function KeyFileAfter(keys: Keys, file: Keys, c: AppendCall): Keys {
    var saved := KeyFileAfterPayload(keys, file, c);
    if NamesBuyer(c) then SavedAfterTouch(KeysAfterPayload(keys, c), saved, c.buyerId.value, c.buyerKeyAt, c.buyerFresh)
    else saved
  }

  function SafeBuyer(mac: Mac, keys: Keys, c: AppendCall): Option<string> {
    if NamesBuyer(c) then Some(PseudonymOf(mac, KeysAfter(keys, c), c.buyerId.value)) else None
  }

  function Recorded(h: HashFn, mac: Mac, keys: Keys, l: Ledger, c: AppendCall): Entry {
    NewEntry(h, l, c.eventClass, SafePayload(mac, keys, c), SafeBuyer(mac, keys, c), c.requestId, c.stampedAt)
  }

  function AppendStep(h: HashFn, mac: Mac, n: Node, c: AppendCall): Node {
    n.(ledger := Appended(n.ledger, Recorded(h, mac, n.keys, n.ledger, c)),
       keys := KeysAfter(n.keys, c), keyFile := KeyFileAfter(n.keys, n.keyFile, c))
  }

  function HeadAnchor(l: Ledger, now: int): AnchorRecord {
    AnchorRecord(HeadSeq(l), HeadHash(l), now)
  }

  predicate HeadNeedsAnchor(n: Node) {
    HeadHash(n.ledger) != "" && !(|n.anchors| > 0 && n.anchors[|n.anchors| - 1].headHash == HeadHash(n.ledger))
  }

  function AnchorEvent(r: AnchorRecord, stampedAt: Timestamp): AppendCall {
    SystemCall([("anchored_head_hash", Text(r.headHash)), ("anchor_seq", Number(r.seqNo))], stampedAt)
  }

  /** The server's periodic anchor: skipped on an empty ledger or an unmoved head, else the head is
      anchored and the act is logged after it. */
  function AnchorHeadStep(h: HashFn, mac: Mac, n: Node, now: int, stampedAt: Timestamp): Node {
    if !HeadNeedsAnchor(n) then n
    else
      var r := HeadAnchor(n.ledger, now);
      AppendStep(h, mac, n.(anchors := n.anchors + [r]), AnchorEvent(r, stampedAt))
  }

  /** The operator commands: log the act, then anchor the head with no event after it. */
  function AppendAndAnchorStep(h: HashFn, mac: Mac, n: Node, c: AppendCall, now: int): Node {
    var after := AppendStep(h, mac, n, c);
    after.(anchors := after.anchors + [HeadAnchor(after.ledger, now)])
  }

  function SegmentOf(removed: seq<Entry>, closedAt: Timestamp): Segment
    requires |removed| > 0
  {
    var last := removed[|removed| - 1];
    Segment(removed[0].seqNo, last.seqNo, last.hash, closedAt, |removed|, Some(removed))
  }

  function RotationEvent(s: Segment, stampedAt: Timestamp): AppendCall {
    SystemCall([("anchored_head_hash", Text(s.headHash)), ("retention_rotation", Other("true")),
                ("from_seq", Number(s.fromSeq)), ("to_seq", Number(s.toSeq)),
                ("segment_closed_at", Text(s.closedAt.text))], stampedAt)
  }

  function RotateCount(config: RetentionConfig, n: Node, now: int): nat {
    AgedCount(n.ledger.entries, now - config.HotMs())
  }

  /** The aged prefix left the ledger. */
  function Shortened(n: Node, count: nat): Node
    requires count <= |n.ledger.entries|
  {
    n.(ledger := WithoutPrefix(n.ledger, count))
  }

  lemma NothingTaken(n: Node)
    ensures Shortened(n, 0) == n
  {
  }

  function SegmentAnchored(n: Node, s: Segment, anchoredAt: int): Node {
    n.(anchors := n.anchors + [AnchorRecord(s.toSeq, s.headHash, anchoredAt)])
  }

  /** What a rotation has saved after the first `saves` of its four saves: the shortened ledger, the
      anchor of what left, the log entry, the archived segment. */
  function RotateSaves(h: HashFn, mac: Mac, config: RetentionConfig, n: Node, now: Timestamp, anchoredAt: int,
                       stampedAt: Timestamp, saves: nat): Node
  {
    var count := RotateCount(config, n, now.ms);
    if count == 0 || saves == 0 then n
    else
      var s := SegmentOf(n.ledger.entries[..count], now);
      var shortened := Shortened(n, count);
      if saves == 1 then shortened
      else
        var anchored := SegmentAnchored(shortened, s, anchoredAt);
        if saves == 2 then anchored
        else
          var logged := AppendStep(h, mac, anchored, RotationEvent(s, stampedAt));
          if saves == 3 then logged else logged.(segments := n.segments + [s])
  }

  lemma RotateSavesInOrder(h: HashFn, mac: Mac, config: RetentionConfig, n: Node, now: Timestamp, anchoredAt: int,
                           stampedAt: Timestamp)
    requires RotateCount(config, n, now.ms) > 0
    ensures var count := RotateCount(config, n, now.ms);
            var s := SegmentOf(n.ledger.entries[..count], now);
            var anchored := SegmentAnchored(Shortened(n, count), s, anchoredAt);
            var logged := AppendStep(h, mac, anchored, RotationEvent(s, stampedAt));
            && RotateSaves(h, mac, config, n, now, anchoredAt, stampedAt, 1) == Shortened(n, count)
            && RotateSaves(h, mac, config, n, now, anchoredAt, stampedAt, 2) == anchored
            && RotateSaves(h, mac, config, n, now, anchoredAt, stampedAt, 3) == logged
            && RotateSaves(h, mac, config, n, now, anchoredAt, stampedAt, 4) == logged.(segments := n.segments + [s])
  {
  }

  /** What a completed rotation has saved after each of its saves. */
  function AllSaves(h: HashFn, mac: Mac, config: RetentionConfig, n: Node, now: Timestamp, anchoredAt: int,
                    stampedAt: Timestamp): seq<Node>
  {
    var count := RotateCount(config, n, now.ms);
    if count == 0 then []
    else
      var shortened := Shortened(n, count);
      [shortened] + ClosingSaves(h, mac, shortened, SegmentOf(n.ledger.entries[..count], now), anchoredAt, stampedAt)
  }

  /** The saves that close the segment: its anchor, the log entry, the archive. */
  function ClosingSaves(h: HashFn, mac: Mac, n: Node, s: Segment, anchoredAt: int, stampedAt: Timestamp): seq<Node> {
    var anchored := SegmentAnchored(n, s, anchoredAt);
    var logged := AppendStep(h, mac, anchored, RotationEvent(s, stampedAt));
    [anchored, logged, logged.(segments := logged.segments + [s])]
  }

  lemma AllSavesAreThose(h: HashFn, mac: Mac, config: RetentionConfig, n: Node, now: Timestamp, anchoredAt: int,
                         stampedAt: Timestamp)
    ensures var saves := AllSaves(h, mac, config, n, now, anchoredAt, stampedAt);
            && |saves| == (if RotateCount(config, n, now.ms) == 0 then 0 else 4)
            && (forall k :: 0 <= k < |saves| ==>
                  saves[k] == RotateSaves(h, mac, config, n, now, anchoredAt, stampedAt, k + 1))
            && RotateStep(h, mac, config, n, now, anchoredAt, stampedAt) == (if |saves| == 0 then n else saves[3])
  {
    if RotateCount(config, n, now.ms) > 0 {
      RotateSavesInOrder(h, mac, config, n, now, anchoredAt, stampedAt);
    }
  }

  /** Rotation as one step. */
  function RotateStep(h: HashFn, mac: Mac, config: RetentionConfig, n: Node, now: Timestamp, anchoredAt: int,
                      stampedAt: Timestamp): Node
  {
    RotateSaves(h, mac, config, n, now, anchoredAt, stampedAt, 4)
  }

  predicate DueForPurge(config: RetentionConfig, s: Segment, now: int) {
    s.entries.Some? && s.closedAt.ms < now - config.ArchiveMs()
  }

  function PurgedSegment(config: RetentionConfig, s: Segment, now: int): Segment {
    if DueForPurge(config, s, now) then s.(entries := None) else s
  }

  /** How many of the first `n` segments are due. */
  function DueCount(config: RetentionConfig, segments: seq<Segment>, n: nat, now: int): (count: nat)
    requires n <= |segments|
    ensures count == 0 <==> forall i :: 0 <= i < n ==> !DueForPurge(config, segments[i], now)
  {
    if n == 0 then 0
    else DueCount(config, segments, n - 1, now) + if DueForPurge(config, segments[n - 1], now) then 1 else 0
  }

  /** What purging does to one segment: its public record stays, and its entries stay too unless they are
      past the archive period. */
  predicate PurgeOf(config: RetentionConfig, before: Segment, after: Segment, now: int) {
    && after.fromSeq == before.fromSeq && after.toSeq == before.toSeq
    && after.headHash == before.headHash && after.entryCount == before.entryCount && after.closedAt == before.closedAt
    && (after.entries.None? <==> before.entries.None? || before.closedAt.ms < now - config.ArchiveMs())
    && (after.entries.Some? ==> after.entries == before.entries)
  }

  function PurgedSegments(config: RetentionConfig, segments: seq<Segment>, now: int): (r: seq<Segment>)
    ensures |r| == |segments|
    ensures forall i :: 0 <= i < |r| ==> PurgeOf(config, segments[i], r[i], now)
  {
    seq(|segments|, i requires 0 <= i < |segments| => PurgedSegment(config, segments[i], now))
  }

  /** One retention cycle: rotate, purge, retire inactive keys. */
  function CycleStep(h: HashFn, mac: Mac, config: RetentionConfig, n: Node, now: Timestamp, anchoredAt: int,
                     stampedAt: Timestamp): Node
  {
    var rotated := RotateStep(h, mac, config, n, now, anchoredAt, stampedAt);
    rotated.(segments := PurgedSegments(config, rotated.segments, now.ms),
             keys := Retained(rotated.keys, now.ms - config.HorizonMs()),
             keyFile := SavedAfterRetiring(rotated.keys, rotated.keyFile, now.ms - config.HorizonMs()))
  }
}
