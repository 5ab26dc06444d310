/** Data-subject requests: what an export finds of a buyer in ledger and archive, and erasure as three
    saved stages in an order that survives a crash. */
module Dsr {
  import opened Wrappers
  import opened AuditChain
  import opened Pseudonyms
  import opened AuditNode
  import opened AuditStores
  import Runs = AuditRuns
  import opened Policy
  import Overlays = Entitlements
  import Commitments = Intents

  // ---------------------------------------------------------------------------------------------
  // Matching
  // ---------------------------------------------------------------------------------------------

  predicate Matches(e: Entry, pseudonym: string) {
    e.buyerId == Some(pseudonym) || FieldOf(e.payload, BUYER_FIELD) == Some(Text(pseudonym))
  }

  function Matched(entries: seq<Entry>, pseudonym: string): seq<Entry> {
    if |entries| == 0 then []
    else Matched(entries[..|entries| - 1], pseudonym)
         + (if Matches(entries[|entries| - 1], pseudonym) then [entries[|entries| - 1]] else [])
  }

  /** Purged segments hold nothing to match. */
  function MatchedArchive(segments: seq<Segment>, pseudonym: string): seq<Entry> {
    if |segments| == 0 then []
    else
      var last := segments[|segments| - 1];
      MatchedArchive(segments[..|segments| - 1], pseudonym)
      + (if last.entries.Some? then Matched(last.entries.value, pseudonym) else [])
  }

  lemma {:induction false} MatchedIsMembership(entries: seq<Entry>, pseudonym: string, e: Entry)
    ensures e in Matched(entries, pseudonym) <==> e in entries && Matches(e, pseudonym)
  {
    if |entries| > 0 {
      var init, last := entries[..|entries| - 1], entries[|entries| - 1];
      MatchedIsMembership(init, pseudonym, e);
      assert entries == init + [last];
    }
  }

  /** Where the matches stand. */
  function Places(entries: seq<Entry>, pseudonym: string): set<nat> {
    set i | 0 <= i < |entries| && Matches(entries[i], pseudonym)
  }

  lemma PlacesGrow(init: seq<Entry>, last: Entry, pseudonym: string)
    ensures |Places(init + [last], pseudonym)| ==
            |Places(init, pseudonym)| + if Matches(last, pseudonym) then 1 else 0
  {
    var before, after := Places(init, pseudonym), Places(init + [last], pseudonym);
    if Matches(last, pseudonym) {
      assert after == before + {|init|};
    } else {
      assert after == before;
    }
  }

  /** A filter finds each match once. */
  lemma {:induction false} MatchedOnce(entries: seq<Entry>, pseudonym: string)
    ensures |Matched(entries, pseudonym)| == |Places(entries, pseudonym)|
  {
    if |entries| == 0 {
      assert Places(entries, pseudonym) == {};
    } else {
      var init, last := entries[..|entries| - 1], entries[|entries| - 1];
      MatchedOnce(init, pseudonym);
      PlacesGrow(init, last, pseudonym);
      assert entries == init + [last];
    }
  }

  lemma {:induction false} MatchedAppends(a: seq<Entry>, b: seq<Entry>, pseudonym: string)
    ensures Matched(a + b, pseudonym) == Matched(a, pseudonym) + Matched(b, pseudonym)
  {
    if |b| == 0 {
      assert a + b == a;
    } else {
      MatchedAppends(a, b[..|b| - 1], pseudonym);
      assert (a + b)[..|a + b| - 1] == a + b[..|b| - 1];
    }
  }

  /** `e` is among the entries that segment `s` still has. */
  predicate Keeps(s: Segment, e: Entry) {
    s.entries.Some? && e in s.entries.value
  }

  lemma {:induction false} ArchiveIsMembership(segments: seq<Segment>, pseudonym: string, e: Entry)
    ensures e in MatchedArchive(segments, pseudonym)
            <==> Matches(e, pseudonym) && exists s :: s in segments && Keeps(s, e)
  {
    if |segments| > 0 {
      var init, last := segments[..|segments| - 1], segments[|segments| - 1];
      ArchiveIsMembership(init, pseudonym, e);
      assert segments == init + [last];
      if last.entries.Some? {
        MatchedIsMembership(last.entries.value, pseudonym, e);
      }
      assert Keeps(last, e) ==> last in segments;
    }
  }

  // ---------------------------------------------------------------------------------------------
  // What an export finds, over every run
  // ---------------------------------------------------------------------------------------------

  function Exported(n: Node, pseudonym: string): seq<Entry> {
    MatchedArchive(n.segments, pseudonym) + Matched(n.ledger.entries, pseudonym)
  }

  /** One of the (buyer, key) pairs has this pseudonym. */
  ghost predicate WrittenAs(mac: Mac, pairs: set<(string, string)>, pseudonym: string) {
    exists p :: p in pairs && PREFIX + mac(p.1, p.0) == pseudonym
  }

  /** The caller itself supplied the pseudonym as the payload's buyer_id. */
  predicate Supplies(c: AppendCall, pseudonym: string) {
    FieldOf(c.payload, BUYER_FIELD) == Some(Text(pseudonym))
  }

  predicate StepSupplies(step: Runs.Step, pseudonym: string) {
    match step
    case Append(c) => Supplies(c, pseudonym)
    case OperatorCommand(c, _) => Supplies(c, pseudonym)
    case _ => false
  }

  /** A recorded entry carries a pseudonym exactly when it was written under it, or the caller put it
      there. */
  lemma RecordedMatchesExactly(h: HashFn, mac: Mac, keys: Keys, l: Ledger, c: AppendCall, pseudonym: string)
    requires PREFIX <= pseudonym
    ensures Matches(Recorded(h, mac, keys, l, c), pseudonym)
            <==> WrittenAs(mac, Runs.UsedBy(keys, c), pseudonym) || Supplies(c, pseudonym)
  {
    var pairs := Runs.UsedBy(keys, c);
    var raw := RawBuyer(c.payload);
    if raw.Some? {
      var pair := (raw.value, KeysAfterPayload(keys, c)[raw.value].key);
      assert pair in pairs;
      FieldAfterWrite(c.payload, BUYER_FIELD, Text(PseudonymOf(mac, KeysAfterPayload(keys, c), raw.value)));
    }
    if NamesBuyer(c) {
      assert (c.buyerId.value, KeysAfter(keys, c)[c.buyerId.value].key) in pairs;
    }
  }

  /** Entries written under the pseudonym carry it, and if `clean`, no others do. */
  ghost predicate Labelled(mac: Mac, r: Runs.Run, pseudonym: string, clean: bool) {
    |r.writtenUnder| == |r.history| && forall i :: 0 <= i < |r.history| ==> LabelledAt(mac, r, pseudonym, clean, i)
  }

  ghost predicate LabelledAt(mac: Mac, r: Runs.Run, pseudonym: string, clean: bool, i: nat)
    requires i < |r.history| && i < |r.writtenUnder|
  {
    && (WrittenAs(mac, r.writtenUnder[i], pseudonym) ==> Matches(r.history[i], pseudonym))
    && (clean && Matches(r.history[i], pseudonym) ==> WrittenAs(mac, r.writtenUnder[i], pseudonym))
  }

  lemma WriteKeepsLabelled(h: HashFn, mac: Mac, r: Runs.Run, c: AppendCall, pseudonym: string, clean: bool)
    requires PREFIX <= pseudonym && Labelled(mac, r, pseudonym, clean) && (clean ==> !Supplies(c, pseudonym))
    ensures Labelled(mac, Runs.Write(h, mac, r, c), pseudonym, clean)
  {
    var after := Runs.Write(h, mac, r, c);
    RecordedMatchesExactly(h, mac, r.node.keys, r.node.ledger, c, pseudonym);
    forall i | 0 <= i < |after.history|
      ensures LabelledAt(mac, after, pseudonym, clean, i)
    {
      if i < |r.history| {
        assert LabelledAt(mac, r, pseudonym, clean, i);
      }
    }
  }

  lemma SystemEventsSupplyNothing(a: AnchorRecord, s: Segment, stampedAt: Timestamp, pseudonym: string)
    ensures !Supplies(AnchorEvent(a, stampedAt), pseudonym)
    ensures !Supplies(RotationEvent(s, stampedAt), pseudonym)
  {
    assert "from_seq"[0] != BUYER_FIELD[0];
    AbsentField(RotationEvent(s, stampedAt).payload, BUYER_FIELD);
    AbsentField(AnchorEvent(a, stampedAt).payload, BUYER_FIELD);
  }

  lemma SameRecords(mac: Mac, r: Runs.Run, r': Runs.Run, pseudonym: string, clean: bool)
    requires Labelled(mac, r, pseudonym, clean) && r'.history == r.history && r'.writtenUnder == r.writtenUnder
    ensures Labelled(mac, r', pseudonym, clean)
  {
    forall i | 0 <= i < |r'.history|
      ensures LabelledAt(mac, r', pseudonym, clean, i)
    {
      assert LabelledAt(mac, r, pseudonym, clean, i);
    }
  }

  lemma RotationKeepsLabelled(h: HashFn, mac: Mac, config: RetentionConfig, r: Runs.Run, now: Timestamp,
                              anchoredAt: int, stampedAt: Timestamp,
                              pseudonym: string, clean: bool)
    requires PREFIX <= pseudonym && Labelled(mac, r, pseudonym, clean)
    ensures Labelled(mac, Runs.RotateRun(h, mac, config, r, now, anchoredAt, stampedAt), pseudonym, clean)
  {
    var count := RotateCount(config, r.node, now.ms);
    if count > 0 {
      var s := SegmentOf(r.node.ledger.entries[..count], now);
      var rotated := Runs.Rotated(r, count, now, anchoredAt);
      SameRecords(mac, r, rotated, pseudonym, clean);
      SystemEventsSupplyNothing(AnchorRecord(0, "", 0), s, stampedAt, pseudonym);
      WriteKeepsLabelled(h, mac, rotated, RotationEvent(s, stampedAt), pseudonym, clean);
    }
  }

  lemma StepKeepsLabelled(h: HashFn, mac: Mac, config: RetentionConfig, r: Runs.Run, step: Runs.Step,
                          pseudonym: string, clean: bool)
    requires PREFIX <= pseudonym && Labelled(mac, r, pseudonym, clean) && (clean ==> !StepSupplies(step, pseudonym))
    ensures Labelled(mac, Runs.Advance(h, mac, config, r, step), pseudonym, clean)
  {
    var after := Runs.Advance(h, mac, config, r, step);
    match step
    case Append(c) =>
      WriteKeepsLabelled(h, mac, r, c, pseudonym, clean);
    case AnchorHead(now, stampedAt) =>
      if HeadNeedsAnchor(r.node) {
        var a := HeadAnchor(r.node.ledger, now);
        SameRecords(mac, r, Runs.Anchored(r, now), pseudonym, clean);
        SystemEventsSupplyNothing(a, Segment(0, 0, "", stampedAt, 0, None), stampedAt, pseudonym);
        WriteKeepsLabelled(h, mac, Runs.Anchored(r, now), AnchorEvent(a, stampedAt), pseudonym, clean);
      }
    case OperatorCommand(c, anchoredAt) =>
      WriteKeepsLabelled(h, mac, r, c, pseudonym, clean);
      SameRecords(mac, Runs.Write(h, mac, r, c), after, pseudonym, clean);
    case Retain(now, anchoredAt, stampedAt) =>
      RotationKeepsLabelled(h, mac, config, r, now, anchoredAt, stampedAt, pseudonym, clean);
      SameRecords(mac, Runs.RotateRun(h, mac, config, r, now, anchoredAt, stampedAt), after, pseudonym, clean);
    case Erase(buyer) =>
      SameRecords(mac, r, after, pseudonym, clean);
    case Restart =>
      SameRecords(mac, r, after, pseudonym, clean);
  }

  lemma {:induction false} RunKeepsLabelled(h: HashFn, mac: Mac, config: RetentionConfig, r: Runs.Run,
                                            steps: seq<Runs.Step>,
                                            pseudonym: string, clean: bool)
    requires PREFIX <= pseudonym && Labelled(mac, r, pseudonym, clean)
    requires clean ==> forall i :: 0 <= i < |steps| ==> !StepSupplies(steps[i], pseudonym)
    ensures Labelled(mac, Runs.Execute(h, mac, config, r, steps), pseudonym, clean)
    decreases |steps|
  {
    if |steps| > 0 {
      StepKeepsLabelled(h, mac, config, r, steps[0], pseudonym, clean);
      RunKeepsLabelled(h, mac, config, Runs.Advance(h, mac, config, r, steps[0]), steps[1..], pseudonym, clean);
    }
  }

  lemma HeldIsExported(h: HashFn, r: Runs.Run, pseudonym: string, i: nat)
    requires Runs.Sound(h, r) && i < |r.history| && Runs.HeldAt(r, i)
    ensures r.history[i] in Exported(r.node, pseudonym) <==> Matches(r.history[i], pseudonym)
  {
    var e, base := r.history[i], r.node.ledger.baseSeq;
    ArchiveIsMembership(r.node.segments, pseudonym, e);
    MatchedIsMembership(r.node.ledger.entries, pseudonym, e);
    if base <= i {
      assert r.node.ledger.entries[i - base] == e;
    } else {
      var s :| s in r.node.segments && Runs.HeldIn(s, i);
      HeldIsKept(h, r, s, i);
    }
  }

  lemma HeldIsKept(h: HashFn, r: Runs.Run, s: Segment, i: nat)
    requires Runs.Sound(h, r) && i < |r.history| && s in r.node.segments && Runs.HeldIn(s, i)
    ensures Keeps(s, r.history[i])
  {
    var k :| 0 <= k < |r.node.segments| && r.node.segments[k] == s;
    assert Runs.TileAt(r.history, r.node.segments, k);
    assert s.entries.value[i - s.fromSeq] == r.history[i];
  }

  lemma ExportedIsHeld(h: HashFn, r: Runs.Run, pseudonym: string, e: Entry)
    requires Runs.Sound(h, r) && e in Exported(r.node, pseudonym)
    ensures Matches(e, pseudonym) && exists i :: 0 <= i < |r.history| && r.history[i] == e && Runs.HeldAt(r, i)
  {
    var base := r.node.ledger.baseSeq;
    ArchiveIsMembership(r.node.segments, pseudonym, e);
    MatchedIsMembership(r.node.ledger.entries, pseudonym, e);
    if e in r.node.ledger.entries {
      var k :| 0 <= k < |r.node.ledger.entries| && r.node.ledger.entries[k] == e;
      assert r.history[base + k] == e && Runs.HeldAt(r, base + k);
    } else {
      var s :| s in r.node.segments && Keeps(s, e);
      KeptIsHeld(h, r, s, e);
    }
  }

  lemma KeptIsHeld(h: HashFn, r: Runs.Run, s: Segment, e: Entry)
    requires Runs.Sound(h, r) && s in r.node.segments && Keeps(s, e)
    ensures exists i :: 0 <= i < |r.history| && r.history[i] == e && Runs.HeldAt(r, i)
  {
    var k :| 0 <= k < |r.node.segments| && r.node.segments[k] == s;
    assert Runs.TileAt(r.history, r.node.segments, k);
    var j :| 0 <= j < |s.entries.value| && s.entries.value[j] == e;
    assert Runs.HeldIn(s, s.fromSeq + j);
    assert r.history[s.fromSeq + j] == e && Runs.HeldAt(r, s.fromSeq + j);
  }

  /** Whatever of the history is still held and was written under the pseudonym is in the export. */
  ghost predicate FindsAll(mac: Mac, r: Runs.Run, pseudonym: string)
    requires |r.writtenUnder| == |r.history|
  {
    forall i :: 0 <= i < |r.history| && Runs.HeldAt(r, i) && WrittenAs(mac, r.writtenUnder[i], pseudonym) ==>
      r.history[i] in Exported(r.node, pseudonym)
  }

  /** Whatever is in the export is a held entry of the history that was written under the pseudonym. */
  ghost predicate FindsOnly(mac: Mac, r: Runs.Run, pseudonym: string)
    requires |r.writtenUnder| == |r.history|
  {
    forall e :: e in Exported(r.node, pseudonym) ==>
      exists i :: 0 <= i < |r.history| && r.history[i] == e && Runs.HeldAt(r, i) &&
          WrittenAs(mac, r.writtenUnder[i], pseudonym)
  }

  /** An export is complete after any run: rotations, purges, erasures and restarts lose it nothing that
      is still held. If no caller ever supplied the pseudonym as a buyer_id of its own, it is exact. */
  lemma ExportIsExact(h: HashFn, mac: Mac, config: RetentionConfig, steps: seq<Runs.Step>, pseudonym: string)
    requires PREFIX <= pseudonym
    ensures var r := Runs.Execute(h, mac, config, Runs.START, steps);
            && |r.writtenUnder| == |r.history|
            && FindsAll(mac, r, pseudonym)
            && ((forall i :: 0 <= i < |steps| ==> !StepSupplies(steps[i], pseudonym)) ==> FindsOnly(mac, r, pseudonym))
  {
    var clean := forall i :: 0 <= i < |steps| ==> !StepSupplies(steps[i], pseudonym);
    Runs.RunKeepsSound(h, mac, config, Runs.START, steps);
    RunKeepsLabelled(h, mac, config, Runs.START, steps, pseudonym, clean);
    var r := Runs.Execute(h, mac, config, Runs.START, steps);
    forall i | 0 <= i < |r.history| && Runs.HeldAt(r, i) && WrittenAs(mac, r.writtenUnder[i], pseudonym)
      ensures r.history[i] in Exported(r.node, pseudonym)
    {
      assert LabelledAt(mac, r, pseudonym, clean, i);
      HeldIsExported(h, r, pseudonym, i);
    }
    if clean {
      forall e | e in Exported(r.node, pseudonym)
        ensures exists i :: 0 <= i < |r.history| && r.history[i] == e && Runs.HeldAt(r, i) &&
                  WrittenAs(mac, r.writtenUnder[i], pseudonym)
      {
        ExportedIsHeld(h, r, pseudonym, e);
        var i :| 0 <= i < |r.history| && r.history[i] == e && Runs.HeldAt(r, i);
        assert LabelledAt(mac, r, pseudonym, clean, i);
      }
    }
  }

  predicate NothingPurged(segments: seq<Segment>) {
    forall i :: 0 <= i < |segments| ==> segments[i].entries.Some?
  }

  lemma {:induction false} ArchiveMatchesFlattened(segments: seq<Segment>, pseudonym: string)
    requires NothingPurged(segments)
    ensures MatchedArchive(segments, pseudonym) == Matched(Runs.Flattened(segments), pseudonym)
  {
    if |segments| > 0 {
      var init, last := segments[..|segments| - 1], segments[|segments| - 1];
      ArchiveMatchesFlattened(init, pseudonym);
      MatchedAppends(Runs.Flattened(init), last.entries.value, pseudonym);
    }
  }

  /** Until something is purged, an export and the counts an erasure reports are those of the whole
      history, in order and each entry once, however often it was rotated. */
  lemma ExportCoversHistory(h: HashFn, mac: Mac, config: RetentionConfig, steps: seq<Runs.Step>, pseudonym: string)
    requires NothingPurged(Runs.Execute(h, mac, config, Runs.START, steps).node.segments)
    ensures var r := Runs.Execute(h, mac, config, Runs.START, steps);
            Exported(r.node, pseudonym) == Matched(r.history, pseudonym)
  {
    Runs.RotationConservesHistory(h, mac, config, steps);
    var r := Runs.Execute(h, mac, config, Runs.START, steps);
    ArchiveMatchesFlattened(r.node.segments, pseudonym);
    MatchedAppends(Runs.Flattened(r.node.segments), r.node.ledger.entries, pseudonym);
  }

  // ---------------------------------------------------------------------------------------------
  // Erasure in three stages
  // ---------------------------------------------------------------------------------------------

  /** The three files an erasure rewrites. */
  datatype Disk = Disk(overlay: Overlays.Overlay, intents: seq<Commitments.Intent>, keys: Keys)

  /** The disk is what a crash leaves after `stages` of the three stages: the overlay first, then the
      intents, then the key. A boot loads the active intents of the file. */
  ghost predicate Reached(hash: Overlays.BuyerHash, s: Overlays.Store, live: seq<Commitments.Intent>, keys: Keys,
                          buyer: string,
                          stages: nat, d: Disk)
  {
    && d.overlay == (if stages >= 1 then Overlays.Remove(hash, s, buyer).file else s.file)
    && Commitments.Left(d.intents, Commitments.Terminal)
       == (if stages >= 2 then Commitments.Left(live, Commitments.OwnedBy(buyer)) else live)
    && (stages < 3 ==> d.keys == keys)
    && (stages >= 3 ==> d.keys.Keys == keys.Keys - {buyer})
  }

  /** A node booted on the disk under any configuration refuses the buyer, now and after anything that
      follows. */
  ghost predicate Refused(hash: Overlays.BuyerHash, d: Disk, buyer: string, req: Request) {
    forall config: Overlays.Config, later: seq<Overlays.Action> ::
      !Decide(Overlays.Get(hash, Overlays.Execute(hash, Overlays.Boot(hash, config, d.overlay), later), buyer),
              req).allow
  }

  /** No intent that a boot would load is the buyer's. */
  ghost predicate NoIntentOf(d: Disk, buyer: string) {
    forall i :: i in Commitments.Left(d.intents, Commitments.Terminal) ==> i.buyerId != buyer
  }

  lemma RemovedIsRefused(hash: Overlays.BuyerHash, config: Overlays.Config, file: Overlays.Overlay,
                         before: seq<Overlays.Action>,
                         buyer: string, req: Request, next: Overlays.Config, later: seq<Overlays.Action>)
    requires req.buyerId == buyer
    ensures var s := Overlays.Execute(hash, Overlays.Boot(hash, config, file), before);
            var booted := Overlays.Boot(hash, next, Overlays.Remove(hash, s, buyer).file);
            !Decide(Overlays.Get(hash, Overlays.Execute(hash, booted, later), buyer), req).allow
  {
    var s := Overlays.Execute(hash, Overlays.Boot(hash, config, file), before);
    var after := [Overlays.Restart(next)] + later;
    Overlays.ErasureIsPermanent(hash, config, file, before, buyer, after, req);
    assert after[1..] == later;
  }

  /** Erasure is crash-safe: wherever it stops, once the first stage is saved the buyer is refused at
      every later boot, once the second is saved no loadable intent names the buyer, and the key that
      makes the ledger readable is destroyed last. */
  lemma ErasureIsCrashSafe(hash: Overlays.BuyerHash, config: Overlays.Config, file: Overlays.Overlay,
                           before: seq<Overlays.Action>,
                           live: seq<Commitments.Intent>, keys: Keys, buyer: string, stages: nat, d: Disk, req: Request)
    requires req.buyerId == buyer
    requires Reached(hash, Overlays.Execute(hash, Overlays.Boot(hash, config, file), before), live, keys, buyer,
               stages, d)
    ensures stages >= 1 ==> Refused(hash, d, buyer, req)
    ensures stages >= 2 ==> NoIntentOf(d, buyer)
    ensures buyer in keys ==> (buyer !in d.keys <==> stages >= 3)
  {
    if stages >= 1 {
      forall next: Overlays.Config, later: seq<Overlays.Action>
        ensures !Decide(Overlays.Get(hash, Overlays.Execute(hash, Overlays.Boot(hash, next, d.overlay), later), buyer),
                        req).allow
      {
        RemovedIsRefused(hash, config, file, before, buyer, req, next, later);
      }
    }
    if stages >= 2 {
      Commitments.SelectionSplits(live, Commitments.OwnedBy(buyer));
    }
  }

  // ---------------------------------------------------------------------------------------------
  // The toolkit
  // ---------------------------------------------------------------------------------------------

  datatype Export = Export(
    buyerId: string, generatedAt: int, pseudonym: string, entitlement: Option<Entitlement>, suspended: bool,
    hotEntries: seq<Entry>, archivedEntries: seq<Entry>, activeIntents: seq<Commitments.Intent>)

  datatype Suppression = Suppression(
    keyShredded: bool, entitlementRemoved: bool, anonymizedHot: nat, anonymizedArchived: nat, intentsPurged: nat)

  /** Retention and intent store are optional. */
  class DsrToolkit {
    const store: Overlays.EntitlementStore
    const ledger: AuditLedger
    const retention: Option<RetentionService>
    const intents: Option<Commitments.IntentStore>

    constructor (store: Overlays.EntitlementStore, ledger: AuditLedger, retention: Option<RetentionService>,
                 intents: Option<Commitments.IntentStore>)
      ensures this.store == store && this.ledger == ledger && this.retention == retention && this.intents == intents
    {
      this.store, this.ledger, this.retention, this.intents := store, ledger, retention, intents;
    }

    ghost function Archive(): seq<Segment>
      reads if retention.Some? then {retention.value} else {}
    {
      if retention.Some? then retention.value.segments else []
    }

    static method MatchEntries(entries: seq<Entry>, pseudonym: string) returns (matched: seq<Entry>)
      ensures matched == Matched(entries, pseudonym)
    {
      matched := [];
      for k := 0 to |entries|
        invariant matched == Matched(entries[..k], pseudonym)
      {
        assert entries[..k + 1][..k] == entries[..k];
        if entries[k].buyerId == Some(pseudonym) || FieldOf(entries[k].payload, BUYER_FIELD) == Some(Text(pseudonym)) {
          matched := matched + [entries[k]];
        }
      }
      assert entries[..|entries|] == entries;
    }

    method MatchArchived(pseudonym: string) returns (matched: seq<Entry>)
      ensures matched == MatchedArchive(Archive(), pseudonym)
    {
      matched := [];
      if retention.None? {
        return;
      }
      var segments := retention.value.segments;
      for k := 0 to |segments|
        invariant matched == MatchedArchive(segments[..k], pseudonym)
      {
        assert segments[..k + 1][..k] == segments[..k];
        if segments[k].entries.Some? {
          var found := MatchEntries(segments[k].entries.value, pseudonym);
          matched := matched + found;
        }
      }
      assert segments[..|segments|] == segments;
    }

    method ExportBuyer(buyer: string, now: int, newKey: string, generatedAt: int) returns (found: Export)
      modifies ledger.pseudonyms
      ensures found.buyerId == buyer && found.generatedAt == generatedAt
      ensures ledger.pseudonyms.keys == Touched(old(ledger.pseudonyms.keys), buyer, now, newKey)
      ensures found.pseudonym == PseudonymOf(ledger.pseudonyms.mac, ledger.pseudonyms.keys, buyer)
      ensures found.archivedEntries == MatchedArchive(Archive(), found.pseudonym)
      ensures found.hotEntries == Matched(ledger.entries, found.pseudonym)
      ensures found.entitlement == Overlays.Get(store.hash, store.State(), buyer)
      ensures found.suspended == (buyer in store.suspended)
      ensures found.activeIntents
           == Commitments.Picked(LiveIntents(), Commitments.OwnedBy(buyer))
      ensures forall i :: i in found.activeIntents <==> i in LiveIntents() && i.buyerId == buyer
    {
      var pseudonym := ledger.pseudonyms.Pseudonymize(buyer, now, newKey);
      var entitlement := store.Lookup(buyer);
      var hot := MatchEntries(ledger.entries, pseudonym);
      var archived := MatchArchived(pseudonym);
      var own: seq<Commitments.Intent> := [];
      if intents.Some? {
        own := intents.value.ByBuyer(buyer);
      }
      found := Export(buyer, generatedAt, pseudonym, entitlement, buyer in store.suspended, hot, archived, own);
    }

    /** How many entries of ledger and archive carry the buyer's present pseudonym; none without a key. */
    method CountCorrelated(buyer: string, now: int) returns (hot: nat, archived: nat)
      modifies ledger.pseudonyms
      ensures ledger.pseudonyms.file == old(ledger.pseudonyms.file)
      ensures ledger.pseudonyms.keys.Keys == old(ledger.pseudonyms.keys.Keys)
      ensures ledger.pseudonyms.keys - {buyer} == old(ledger.pseudonyms.keys) - {buyer}
      ensures buyer in old(ledger.pseudonyms.keys) ==>
                var pseudonym := PseudonymOf(ledger.pseudonyms.mac, old(ledger.pseudonyms.keys), buyer);
                hot == |Matched(ledger.entries, pseudonym)| && archived == |MatchedArchive(Archive(), pseudonym)|
      ensures buyer !in old(ledger.pseudonyms.keys) ==> hot == archived == 0
    {
      if buyer !in ledger.pseudonyms.keys {
        return 0, 0;
      }
      var pseudonym := ledger.pseudonyms.Pseudonymize(buyer, now, "");
      var hotEntries := MatchEntries(ledger.entries, pseudonym);
      var archivedEntries := MatchArchived(pseudonym);
      hot, archived := |hotEntries|, |archivedEntries|;
    }

    ghost function LiveIntents(): seq<Commitments.Intent>
      reads if intents.Some? then {intents.value} else {}
    {
      if intents.Some? then intents.value.byId else []
    }

    ghost function OnDisk(): Disk
      reads store, ledger, ledger.pseudonyms, if intents.Some? then {intents.value} else {}
    {
      Disk(store.file, if intents.Some? then intents.value.file else [], ledger.pseudonyms.file)
    }

    /** The live intents of the buyer go, if there is an intent store. */
    method PurgeIntents(buyer: string) returns (purged: nat)
      requires intents.Some? ==> intents.value.Valid()
      modifies if intents.Some? then {intents.value} else {}
      ensures intents.Some? ==> intents.value.Valid()
      ensures LiveIntents() == Commitments.Left(old(LiveIntents()), Commitments.OwnedBy(buyer))
      ensures purged == |Commitments.Picked(old(LiveIntents()), Commitments.OwnedBy(buyer))|
      ensures forall i :: i in LiveIntents() <==> i in old(LiveIntents()) && i.buyerId != buyer
      ensures purged == |old(LiveIntents())| - |LiveIntents()|
      ensures Commitments.Left(OnDisk().intents, Commitments.Terminal) == LiveIntents()
      ensures OnDisk() == old(OnDisk()).(intents := OnDisk().intents)
    {
      purged := 0;
      if intents.Some? {
        purged := intents.value.PurgeBuyer(buyer);
      }
    }

    /** The three saves, in this order. */
    method EraseInStages(buyer: string) returns (removed: bool, purged: nat, shredded: bool, ghost disks: seq<Disk>)
      requires ledger.pseudonyms.Saved() && (intents.Some? ==> intents.value.Valid())
      modifies store, ledger.pseudonyms, if intents.Some? then {intents.value} else {}
      ensures store.State() == Overlays.Remove(store.hash, old(store.State()), buyer)
      ensures intents.Some? ==> intents.value.Valid()
      ensures LiveIntents() == Commitments.Left(old(LiveIntents()), Commitments.OwnedBy(buyer))
      ensures ledger.pseudonyms.keys == old(ledger.pseudonyms.keys) - {buyer}
      ensures shredded == (buyer in old(ledger.pseudonyms.keys))
      ensures removed == (buyer in old(store.index) || buyer in old(store.suspended))
      ensures purged == |Commitments.Picked(old(LiveIntents()), Commitments.OwnedBy(buyer))|
      ensures forall i :: i in LiveIntents() <==> i in old(LiveIntents()) && i.buyerId != buyer
      ensures |disks| == 3 && disks[2] == OnDisk()
      ensures forall k :: 0 <= k < 3 ==>
                Reached(store.hash, old(store.State()), old(LiveIntents()), old(ledger.pseudonyms.file), buyer,
                        k + 1, disks[k])
    {
      removed := store.RemoveBuyer(buyer);
      ghost var first := OnDisk();
      purged := PurgeIntents(buyer);
      ghost var second := OnDisk();
      shredded := ledger.pseudonyms.Shred(buyer);
      disks := [first, second, OnDisk()];
    }

    /** Counted before anything changes; the ledger and the archive stay as they are. `disks` shows the
        files as each of the three saves left them. */
    method SuppressBuyer(buyer: string, now: int) returns (done: Suppression, ghost disks: seq<Disk>)
      requires ledger.pseudonyms.Saved() && (intents.Some? ==> intents.value.Valid())
      modifies store, ledger.pseudonyms, if intents.Some? then {intents.value} else {}
      ensures store.State() == Overlays.Remove(store.hash, old(store.State()), buyer)
      ensures intents.Some? ==> intents.value.Valid()
      ensures LiveIntents() == Commitments.Left(old(LiveIntents()), Commitments.OwnedBy(buyer))
      ensures ledger.pseudonyms.keys == old(ledger.pseudonyms.keys) - {buyer}
      ensures done.keyShredded == (buyer in old(ledger.pseudonyms.keys))
      ensures done.entitlementRemoved == (buyer in old(store.index) || buyer in old(store.suspended))
      ensures done.intentsPurged == |Commitments.Picked(old(LiveIntents()), Commitments.OwnedBy(buyer))|
      ensures forall i :: i in LiveIntents() <==> i in old(LiveIntents()) && i.buyerId != buyer
      ensures done.keyShredded ==>
                var pseudonym := PseudonymOf(ledger.pseudonyms.mac, old(ledger.pseudonyms.keys), buyer);
                && done.anonymizedHot == |Matched(ledger.entries, pseudonym)|
                && done.anonymizedArchived == |MatchedArchive(Archive(), pseudonym)|
      ensures !done.keyShredded ==> done.anonymizedHot == 0 && done.anonymizedArchived == 0
      ensures |disks| == 3 && disks[2] == OnDisk()
      ensures forall k :: 0 <= k < 3 ==>
                Reached(store.hash, old(store.State()), old(LiveIntents()), old(ledger.pseudonyms.file), buyer,
                        k + 1, disks[k])
    {
      var hot, archived := CountCorrelated(buyer, now);
      var removed, purged, shredded;
      removed, purged, shredded, disks := EraseInStages(buyer);
      done := Suppression(shredded, removed, hot, archived, purged);
    }
  }
}
