/** Runs that go on after crashes inside rotations: any interleaving of the ordinary steps with rotations that
    stopped after any of their saves, followed by a restart whether or not boot would accept, as operator
    commands do not ask. */
module CrashRuns {
  import opened AuditChain
  import opened Pseudonyms
  import opened AuditNode
  import opened AuditRuns

  /** A piece of the history that left the ledger: archived, or lost in a crashed rotation. */
  datatype Piece = Piece(segment: Segment, lost: bool)

  /** A run together with every piece that ever left the ledger, in order. */
  datatype Trail = Trail(run: Run, pieces: seq<Piece>)

  const FIRST := Trail(START, [])

  datatype Event =
    | Completed(step: Step)
    | Crashed(now: Timestamp, anchoredAt: int, stampedAt: Timestamp, saves: nat)

  /** What of the pieces is in the archive. */
  function Archived(pieces: seq<Piece>): seq<Segment> {
    if |pieces| == 0 then []
    else
      var last := pieces[|pieces| - 1];
      Archived(pieces[..|pieces| - 1]) + (if last.lost then [] else [last.segment])
  }

  /** What was lost. */
  function Lost(pieces: seq<Piece>): seq<Segment> {
    if |pieces| == 0 then []
    else
      var last := pieces[|pieces| - 1];
      Lost(pieces[..|pieces| - 1]) + (if last.lost then [last.segment] else [])
  }

  function AllPieces(pieces: seq<Piece>): (r: seq<Segment>)
    ensures |r| == |pieces| && forall i :: 0 <= i < |r| ==> r[i] == pieces[i].segment
  {
    seq(|pieces|, i requires 0 <= i < |pieces| => pieces[i].segment)
  }

  function PurgedPieces(config: RetentionConfig, pieces: seq<Piece>, now: int): (r: seq<Piece>)
    ensures |r| == |pieces|
    ensures forall i :: 0 <= i < |r| ==>
              r[i] == if pieces[i].lost then pieces[i] else Piece(PurgedSegment(config, pieces[i].segment, now), false)
  {
    seq(|pieces|, i requires 0 <= i < |pieces| =>
      if pieces[i].lost then pieces[i] else Piece(PurgedSegment(config, pieces[i].segment, now), false))
  }

  /** The piece that a rotation takes out, if it takes any. */
  function Taken(config: RetentionConfig, n: Node, now: Timestamp, lost: bool): seq<Piece> {
    var count := RotateCount(config, n, now.ms);
    if count == 0 then [] else [Piece(SegmentOf(n.ledger.entries[..count], now), lost)]
  }

  /** A rotation that stopped after `saves` of its saves, and the restart after it. */
  function CrashRun(h: HashFn, mac: Mac, config: RetentionConfig, r: Run, now: Timestamp, anchoredAt: int,
                    stampedAt: Timestamp, saves: nat): Run
  {
    var left := RotateSaves(h, mac, config, r.node, now, anchoredAt, stampedAt, saves);
    var count := RotateCount(config, r.node, now.ms);
    if count == 0 || saves < 3 then r.(node := left.(keys := left.keyFile))
    else
      var rotated := Rotated(r, count, now, anchoredAt);
      var logged := Write(h, mac, rotated, RotationEvent(SegmentOf(r.node.ledger.entries[..count], now), stampedAt));
      logged.(node := left.(keys := left.keyFile))
  }

  function Continue(h: HashFn, mac: Mac, config: RetentionConfig, t: Trail, e: Event): Trail {
    match e
    case Completed(step) =>
      Trail(Advance(h, mac, config, t.run, step),
            if step.Retain? then
              PurgedPieces(config, t.pieces + Taken(config, t.run.node, step.now, false), step.now.ms)
            else t.pieces)
    case Crashed(now, anchoredAt, stampedAt, saves) =>
      Trail(CrashRun(h, mac, config, t.run, now, anchoredAt, stampedAt, saves),
            if saves == 0 then t.pieces else t.pieces + Taken(config, t.run.node, now, saves < 4))
  }

  function ExecuteEvents(h: HashFn, mac: Mac, config: RetentionConfig, t: Trail, events: seq<Event>): Trail
    decreases |events|
  {
    if |events| == 0 then t
    else ExecuteEvents(h, mac, config, Continue(h, mac, config, t, events[0]), events[1..])
  }

  /** The run as it would be with nothing lost. */
  function Whole(t: Trail): Run {
    t.run.(node := t.run.node.(segments := AllPieces(t.pieces)))
  }

  /** Ledger, chain and anchors are intact, all pieces cover what left the ledger without gap or overlap, and
      the archive is exactly the pieces that were not lost. */
  ghost predicate Mended(h: HashFn, t: Trail) {
    Intact(h, Whole(t)) && t.run.node.segments == Archived(t.pieces)
  }

  lemma {:induction false} ArchivedAppends(a: seq<Piece>, b: seq<Piece>)
    ensures Archived(a + b) == Archived(a) + Archived(b)
  {
    if |b| == 0 {
      assert a + b == a;
    } else {
      var init := b[..|b| - 1];
      ArchivedAppends(a, init);
      assert (a + b)[..|a + b| - 1] == a + init;
      var tail := if b[|b| - 1].lost then [] else [b[|b| - 1].segment];
      assert (a + b)[|a + b| - 1] == b[|b| - 1];
      assert Archived(a) + Archived(init) + tail == Archived(a) + (Archived(init) + tail);
    }
  }

  lemma {:induction false} LostAppends(a: seq<Piece>, b: seq<Piece>)
    ensures Lost(a + b) == Lost(a) + Lost(b)
  {
    if |b| == 0 {
      assert a + b == a;
    } else {
      var init := b[..|b| - 1];
      LostAppends(a, init);
      assert (a + b)[..|a + b| - 1] == a + init;
      var tail := if b[|b| - 1].lost then [b[|b| - 1].segment] else [];
      assert (a + b)[|a + b| - 1] == b[|b| - 1];
      assert Lost(a) + Lost(init) + tail == Lost(a) + (Lost(init) + tail);
    }
  }

  lemma OnePiece(p: Piece)
    ensures Archived([p]) == (if p.lost then [] else [p.segment]) && Lost([p]) == (if p.lost then [p.segment] else [])
  {
    assert [p][..0] == [];
  }

  /** Purging touches the archive alone. */
  lemma {:induction false} PurgingPieces(config: RetentionConfig, pieces: seq<Piece>, now: int)
    ensures Archived(PurgedPieces(config, pieces, now)) == PurgedSegments(config, Archived(pieces), now)
    ensures Lost(PurgedPieces(config, pieces, now)) == Lost(pieces)
  {
    if |pieces| > 0 {
      var init := pieces[..|pieces| - 1];
      PurgingPieces(config, init, now);
      assert PurgedPieces(config, pieces, now)[..|pieces| - 1] == PurgedPieces(config, init, now);
    }
  }

  lemma PurgingPiecesKeepsTiles(config: RetentionConfig, history: seq<Entry>, pieces: seq<Piece>, base: int, now: int)
    requires Tiles(history, AllPieces(pieces), base)
    ensures Tiles(history, AllPieces(PurgedPieces(config, pieces, now)), base)
  {
    var before, after := AllPieces(pieces), AllPieces(PurgedPieces(config, pieces, now));
    forall i | 0 <= i < |after|
      ensures TileAt(history, after, i)
    {
      assert TileAt(history, before, i);
    }
  }

  /** The whole run takes the same steps, but for what it purges. */
  lemma WholeAdvances(h: HashFn, mac: Mac, config: RetentionConfig, t: Trail, step: Step)
    requires !step.Retain?
    ensures Whole(Continue(h, mac, config, t, Completed(step))) == Advance(h, mac, config, Whole(t), step)
  {
  }

  lemma AppendedPiece(pieces: seq<Piece>, p: Piece)
    ensures AllPieces(pieces + [p]) == AllPieces(pieces) + [p.segment]
  {
  }

  lemma WholeRotates(h: HashFn, mac: Mac, config: RetentionConfig, t: Trail, now: Timestamp, anchoredAt: int,
                     stampedAt: Timestamp, lost: bool)
    ensures var pieces := t.pieces + Taken(config, t.run.node, now, lost);
            var rotated := RotateRun(h, mac, config, t.run, now, anchoredAt, stampedAt);
            rotated.(node := rotated.node.(segments := AllPieces(pieces)))
            == RotateRun(h, mac, config, Whole(t), now, anchoredAt, stampedAt)
  {
    var count := RotateCount(config, t.run.node, now.ms);
    if count > 0 {
      AppendedPiece(t.pieces, Piece(SegmentOf(t.run.node.ledger.entries[..count], now), lost));
    } else {
      assert t.pieces + Taken(config, t.run.node, now, lost) == t.pieces;
    }
  }

  lemma CompletedKeepsMended(h: HashFn, mac: Mac, config: RetentionConfig, t: Trail, step: Step)
    requires Mended(h, t)
    ensures Mended(h, Continue(h, mac, config, t, Completed(step)))
    ensures Lost(Continue(h, mac, config, t, Completed(step)).pieces) == Lost(t.pieces)
  {
    if !step.Retain? {
      StepKeepsIntact(h, mac, config, Whole(t), step);
      WholeAdvances(h, mac, config, t, step);
    } else {
      CycleKeepsMended(h, mac, config, t, step.now, step.rotationAnchoredAt, step.rotationStampedAt);
    }
  }

  lemma TakenIsArchived(config: RetentionConfig, t: Trail, now: Timestamp, lost: bool)
    ensures var more := Taken(config, t.run.node, now, lost);
            && Archived(t.pieces + more) == Archived(t.pieces) + Archived(more)
            && Lost(t.pieces + more) == Lost(t.pieces) + Lost(more)
            && (lost ==> Archived(more) == [] && Lost(more) == AllPieces(more))
            && (!lost ==> Archived(more) == AllPieces(more) && Lost(more) == [])
  {
    var more := Taken(config, t.run.node, now, lost);
    ArchivedAppends(t.pieces, more);
    LostAppends(t.pieces, more);
    if |more| > 0 {
      OnePiece(more[0]);
      assert more == [more[0]];
    }
  }

  lemma CycleKeepsMended(h: HashFn, mac: Mac, config: RetentionConfig, t: Trail, now: Timestamp, anchoredAt: int,
                         stampedAt: Timestamp)
    requires Mended(h, t)
    ensures Mended(h, Continue(h, mac, config, t, Completed(Retain(now, anchoredAt, stampedAt))))
    ensures Lost(Continue(h, mac, config, t, Completed(Retain(now, anchoredAt, stampedAt))).pieces) == Lost(t.pieces)
  {
    var pieces := t.pieces + Taken(config, t.run.node, now, false);
    var rotated := RotateRun(h, mac, config, t.run, now, anchoredAt, stampedAt);
    var whole := RotateRun(h, mac, config, Whole(t), now, anchoredAt, stampedAt);
    RotateRunKeepsIntact(h, mac, config, Whole(t), now, anchoredAt, stampedAt);
    WholeRotates(h, mac, config, t, now, anchoredAt, stampedAt, false);
    TakenIsArchived(config, t, now, false);
    RotationArchives(h, mac, config, t.run, now, anchoredAt, stampedAt);
    PurgingPieces(config, pieces, now.ms);
    PurgingPiecesKeepsTiles(config, whole.history, pieces, whole.node.ledger.baseSeq, now.ms);
    assert Archived(pieces) == rotated.node.segments;
  }

  lemma RotationArchives(h: HashFn, mac: Mac, config: RetentionConfig, r: Run, now: Timestamp, anchoredAt: int,
                         stampedAt: Timestamp)
    ensures RotateRun(h, mac, config, r, now, anchoredAt, stampedAt).node.segments
         == r.node.segments + AllPieces(Taken(config, r.node, now, false))
  {
  }

  /** What a crashed rotation leaves is, with what it lost put back, a rotation that stopped at most before its
      anchor or its log entry. */
  lemma WholeCrash(h: HashFn, mac: Mac, config: RetentionConfig, t: Trail, now: Timestamp, anchoredAt: int,
                   stampedAt: Timestamp, saves: nat)
    requires Mended(h, t) && saves > 0 && RotateCount(config, t.run.node, now.ms) > 0
    ensures Intact(h, Whole(Continue(h, mac, config, t, Crashed(now, anchoredAt, stampedAt, saves))))
  {
    var n, count := t.run.node, RotateCount(config, t.run.node, now.ms);
    var s := SegmentOf(n.ledger.entries[..count], now);
    RotateSavesInOrder(h, mac, config, n, now, anchoredAt, stampedAt);
    RotationKeepsIntact(h, Whole(t), count, now, anchoredAt);
    AppendedPiece(t.pieces, Piece(s, saves < 4));
    var rotated := Rotated(Whole(t), count, now, anchoredAt);
    if saves >= 3 {
      WriteKeepsIntact(h, mac, rotated, RotationEvent(s, stampedAt));
    }
    if saves == 1 {
      ShortenedIsIntact(h, Whole(t), count, now);
    }
  }

  lemma ShortenedIsIntact(h: HashFn, r: Run, count: nat, now: Timestamp)
    requires Intact(h, r) && 0 < count <= |r.node.ledger.entries|
    ensures var s := SegmentOf(r.node.ledger.entries[..count], now);
            Intact(h, r.(node := Shortened(r.node, count).(segments := r.node.segments + [s])))
  {
    RotationMovesTheCut(r.history, r.node.ledger.baseSeq, count);
    SegmentIsGenuine(h, r, count, now);
    TilesExtended(r.history, r.node.segments, r.node.ledger.baseSeq, SegmentOf(r.node.ledger.entries[..count], now));
  }

  lemma CrashArchives(h: HashFn, mac: Mac, config: RetentionConfig, t: Trail, now: Timestamp, anchoredAt: int,
                      stampedAt: Timestamp, saves: nat)
    requires t.run.node.segments == Archived(t.pieces)
    ensures var after := Continue(h, mac, config, t, Crashed(now, anchoredAt, stampedAt, saves));
            && after.run.node.segments == Archived(after.pieces)
            && Lost(after.pieces)
               == Lost(t.pieces) + LostIn(config, t.run.node, Crashed(now, anchoredAt, stampedAt, saves))
  {
    TakenIsArchived(config, t, now, saves < 4);
    if RotateCount(config, t.run.node, now.ms) > 0 {
      RotateSavesInOrder(h, mac, config, t.run.node, now, anchoredAt, stampedAt);
    }
  }

  /** What an event loses: the whole of what a rotation took, if it crashed after its first save and before its
      last. */
  function LostIn(config: RetentionConfig, n: Node, e: Event): seq<Segment> {
    if e.Crashed? && 1 <= e.saves <= 3 then AllPieces(Taken(config, n, e.now, true)) else []
  }

  /** What the crashes of a run lose, in order. */
  function LostDuring(h: HashFn, mac: Mac, config: RetentionConfig, t: Trail, events: seq<Event>): seq<Segment>
    decreases |events|
  {
    if |events| == 0 then []
    else
      LostIn(config, t.run.node, events[0])
      + LostDuring(h, mac, config, Continue(h, mac, config, t, events[0]), events[1..])
  }

  lemma EventKeepsMended(h: HashFn, mac: Mac, config: RetentionConfig, t: Trail, e: Event)
    requires Mended(h, t)
    ensures var after := Continue(h, mac, config, t, e);
            Mended(h, after) && Lost(after.pieces) == Lost(t.pieces) + LostIn(config, t.run.node, e)
  {
    match e
    case Completed(step) =>
      CompletedKeepsMended(h, mac, config, t, step);
    case Crashed(now, anchoredAt, stampedAt, saves) =>
      CrashArchives(h, mac, config, t, now, anchoredAt, stampedAt, saves);
      if saves > 0 && RotateCount(config, t.run.node, now.ms) > 0 {
        WholeCrash(h, mac, config, t, now, anchoredAt, stampedAt, saves);
      } else {
        NothingCrashed(h, mac, config, t, now, anchoredAt, stampedAt, saves);
      }
  }

  lemma NothingCrashed(h: HashFn, mac: Mac, config: RetentionConfig, t: Trail, now: Timestamp, anchoredAt: int,
                       stampedAt: Timestamp, saves: nat)
    requires Mended(h, t) && (saves == 0 || RotateCount(config, t.run.node, now.ms) == 0)
    ensures Intact(h, Whole(Continue(h, mac, config, t, Crashed(now, anchoredAt, stampedAt, saves))))
  {
    assert t.pieces + [] == t.pieces;
  }

  /** The trail is mended and has lost exactly `lost`. */
  ghost predicate MendedBut(h: HashFn, t: Trail, lost: seq<Segment>) {
    Mended(h, t) && Lost(t.pieces) == lost
  }

  lemma {:induction false} RunKeepsMended(h: HashFn, mac: Mac, config: RetentionConfig, t: Trail, events: seq<Event>,
                                          lost: seq<Segment>)
    requires MendedBut(h, t, lost)
    ensures MendedBut(h, ExecuteEvents(h, mac, config, t, events), lost + LostDuring(h, mac, config, t, events))
    decreases |events|
  {
    if |events| > 0 {
      var next := NextMended(h, mac, config, t, events, lost);
      RunKeepsMended(h, mac, config, next, events[1..], lost + LostIn(config, t.run.node, events[0]));
    } else {
      assert lost + [] == lost;
    }
  }

  lemma NextMended(h: HashFn, mac: Mac, config: RetentionConfig, t: Trail, events: seq<Event>, lost: seq<Segment>)
    returns (next: Trail)
    requires |events| > 0 && MendedBut(h, t, lost)
    ensures MendedBut(h, next, lost + LostIn(config, t.run.node, events[0]))
    ensures ExecuteEvents(h, mac, config, t, events) == ExecuteEvents(h, mac, config, next, events[1..])
    ensures lost + LostDuring(h, mac, config, t, events)
         == lost + LostIn(config, t.run.node, events[0]) + LostDuring(h, mac, config, next, events[1..])
  {
    next := MendedNext(h, mac, config, t, events[0], lost);
    LostFirst(h, mac, config, t, events, lost);
  }

  lemma MendedNext(h: HashFn, mac: Mac, config: RetentionConfig, t: Trail, e: Event, lost: seq<Segment>)
    returns (next: Trail)
    requires MendedBut(h, t, lost)
    ensures next == Continue(h, mac, config, t, e) && MendedBut(h, next, lost + LostIn(config, t.run.node, e))
  {
    EventKeepsMended(h, mac, config, t, e);
    next := Continue(h, mac, config, t, e);
  }

  lemma LostFirst(h: HashFn, mac: Mac, config: RetentionConfig, t: Trail, events: seq<Event>, lost: seq<Segment>)
    requires |events| > 0
    ensures lost + LostDuring(h, mac, config, t, events)
         == lost + LostIn(config, t.run.node, events[0])
            + LostDuring(h, mac, config, Continue(h, mac, config, t, events[0]), events[1..])
  {
    var first := LostIn(config, t.run.node, events[0]);
    var rest := LostDuring(h, mac, config, Continue(h, mac, config, t, events[0]), events[1..]);
    assert LostDuring(h, mac, config, t, events) == first + rest;
    assert lost + first + rest == lost + (first + rest);
  }

  // ---------------------------------------------------------------------------------------------
  // Main result
  // ---------------------------------------------------------------------------------------------

  predicate Spans(s: Segment, i: int) {
    s.fromSeq <= i <= s.toSeq
  }

  ghost predicate InSome(segments: seq<Segment>, i: int) {
    exists s :: s in segments && Spans(s, i)
  }

  lemma {:induction false} PiecesSplit(pieces: seq<Piece>, s: Segment)
    ensures s in AllPieces(pieces) <==> s in Archived(pieces) || s in Lost(pieces)
    ensures s in Archived(pieces) <==> exists k :: 0 <= k < |pieces| && pieces[k].segment == s && !pieces[k].lost
    ensures s in Lost(pieces) <==> exists k :: 0 <= k < |pieces| && pieces[k].segment == s && pieces[k].lost
  {
    if |pieces| > 0 {
      var init, last := pieces[..|pieces| - 1], pieces[|pieces| - 1];
      PiecesSplit(init, s);
      assert pieces == init + [last];
      assert AllPieces(pieces) == AllPieces(init) + [last.segment];
      assert pieces[|pieces| - 1] == last;
    }
  }

  /** A tiled range has every number in exactly one tile. */
  lemma {:induction false} OneTile(history: seq<Entry>, segments: seq<Segment>, base: int, i: int) returns (k: nat)
    requires Tiles(history, segments, base) && 0 <= i < base
    ensures k < |segments| && Spans(segments[k], i)
    ensures forall m :: 0 <= m < |segments| && Spans(segments[m], i) ==> m == k
  {
    var last := |segments| - 1;
    TilesInit(history, segments, base);
    if segments[last].fromSeq <= i {
      k := last;
      forall m | 0 <= m < last
        ensures !Spans(segments[m], i)
      {
        SegmentsEndBelow(history, segments[..last], segments[last].fromSeq, m);
        assert segments[..last][m] == segments[m];
      }
    } else {
      k := OneTile(history, segments[..last], segments[last].fromSeq, i);
      forall m | 0 <= m < |segments| && Spans(segments[m], i)
        ensures m == k
      {
        assert m < last ==> segments[..last][m] == segments[m];
      }
    }
  }

  /** What a run with crashes leaves: the hot ledger is the tail of a genuine history and the anchors pin hashes
      of it; boot accepts exactly when the last anchor reaches what left, or nothing is hot and nothing
      anchored; every number that left is either in the archive, whose segments hold their true part of the
      history, or in one of `lost`, and never in both. */
  ghost predicate OnlyLost(h: HashFn, r: Run, lost: seq<Segment>) {
    var n := r.node;
    && 0 <= n.ledger.baseSeq <= |r.history|
    && n.ledger == HotPart(r.history, n.ledger.baseSeq)
    && Genuine(h, r.history) && AnchorsGenuine(r.history, n.anchors)
    && (BootAccepts(h, n) <==> BootReaches(n))
    && (forall s :: s in n.segments || s in lost ==> Covers(r.history, s))
    && (forall i :: 0 <= i < n.ledger.baseSeq ==> (InSome(n.segments, i) <==> !InSome(lost, i)))
  }

  /** Crashes only lose, exactly what they took. After any run with any rotations crashed after any of their
      saves, the gaps in the archive are exactly the prefixes that the crashed rotations had taken out, and
      all else is as it was without them. */
  lemma CrashesOnlyLose(h: HashFn, mac: Mac, config: RetentionConfig, events: seq<Event>)
    ensures var r := ExecuteEvents(h, mac, config, FIRST, events).run;
            OnlyLost(h, r, LostDuring(h, mac, config, FIRST, events))
  {
    assert Tiles([], AllPieces([]), 0);
    RunKeepsMended(h, mac, config, FIRST, events, []);
    assert [] + LostDuring(h, mac, config, FIRST, events) == LostDuring(h, mac, config, FIRST, events);
    MendedOnlyLost(h, ExecuteEvents(h, mac, config, FIRST, events));
  }

  lemma MendedOnlyLost(h: HashFn, t: Trail)
    requires Mended(h, t)
    ensures OnlyLost(h, t.run, Lost(t.pieces))
  {
    IntactIsAcceptedExactly(h, Whole(t));
    forall s | s in t.run.node.segments || s in Lost(t.pieces)
      ensures Covers(t.run.history, s)
    {
      PiecesSplit(t.pieces, s);
      var k :| 0 <= k < |t.pieces| && t.pieces[k].segment == s;
      assert TileAt(t.run.history, AllPieces(t.pieces), k);
    }
    forall i | 0 <= i < t.run.node.ledger.baseSeq
      ensures InSome(t.run.node.segments, i) <==> !InSome(Lost(t.pieces), i)
    {
      InOnePiece(h, t, i);
    }
  }

  lemma InOnePiece(h: HashFn, t: Trail, i: int)
    requires Mended(h, t) && 0 <= i < t.run.node.ledger.baseSeq
    ensures InSome(Archived(t.pieces), i) <==> !InSome(Lost(t.pieces), i)
  {
    var all := AllPieces(t.pieces);
    var k := OneTile(t.run.history, all, t.run.node.ledger.baseSeq, i);
    PiecesSplit(t.pieces, all[k]);
    if InSome(Archived(t.pieces), i) {
      var s :| s in Archived(t.pieces) && Spans(s, i);
      AtPiece(t.pieces, s, i, k);
    }
    if InSome(Lost(t.pieces), i) {
      var s :| s in Lost(t.pieces) && Spans(s, i);
      AtPiece(t.pieces, s, i, k);
    }
  }

  lemma AtPiece(pieces: seq<Piece>, s: Segment, i: int, k: nat)
    requires k < |pieces| && Spans(s, i)
    requires forall m :: 0 <= m < |pieces| && Spans(AllPieces(pieces)[m], i) ==> m == k
    ensures s in Archived(pieces) ==> !pieces[k].lost && pieces[k].segment == s
    ensures s in Lost(pieces) ==> pieces[k].lost && pieces[k].segment == s
  {
    PiecesSplit(pieces, s);
    forall m | 0 <= m < |pieces| && pieces[m].segment == s
      ensures m == k
    {
      assert Spans(AllPieces(pieces)[m], i);
    }
  }
}
