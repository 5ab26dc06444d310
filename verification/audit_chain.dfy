/** The hash-chained audit log on values: what an entry's hash covers, what `append`, `rotateOut`,
    `replayVerify`, `hashAt` and `verifyAfterRestore` compute, and what an accepted ledger proves.

    SHA-256 over the canonical JSON is an arbitrary function of the canonical fields whose output is
    never the empty string. No injectivity is assumed: where a proof needs it, the alternative is a
    collision between two entries that are named. */
module AuditChain {
  import opened Wrappers

  /** A JSON value; the code only asks whether it is a string. `Other` is any further value, by its text. */
  datatype Value = Text(text: string) | Number(n: int) | Other(json: string)

  /** A stored time: the text in the file, which is what gets hashed, and the milliseconds since the epoch
      that parsing the text gives. A clock reading is stored as its ISO 8601 text, but a file may spell
      the same instant in another way. */
  datatype Timestamp = Timestamp(ms: int, text: string)

  /** An object's fields in insertion order, which is the order JSON.stringify emits. */
  type Payload = seq<(string, Value)>

  /** The fields that `hashEntry` serializes. `buyer_id` and `request_id` are not among them. */
  datatype Canonical = Canonical(seqNo: int, eventClass: string, payload: Payload, prevHash: string, timestamp: string)

  datatype Entry = Entry(
    seqNo: int,
    eventClass: string,
    buyerId: Option<string>,
    requestId: Option<string>,
    payload: Payload,
    timestamp: Timestamp,
    prevHash: string,
    hash: string)

  type HashFn = h: Canonical -> string | forall c :: h(c) != "" witness (c: Canonical) => "0"

  const ANCHORING := "anchoring"

  /** The hot ledger: global number of its first entry, hash of the entry before it, entries. */
  datatype Ledger = Ledger(baseSeq: int, carry: string, entries: seq<Entry>)

  const EMPTY_LEDGER := Ledger(0, "", [])

  datatype AnchorRecord = AnchorRecord(seqNo: int, headHash: string, timestamp: int)

  function CanonicalOf(e: Entry): Canonical {
    Canonical(e.seqNo, e.eventClass, e.payload, e.prevHash, e.timestamp.text)
  }

  predicate VerifyEntryHash(h: HashFn, e: Entry) {
    h(CanonicalOf(e)) == e.hash
  }

  // ---------------------------------------------------------------------------------------------
  // Ledger operations
  // ---------------------------------------------------------------------------------------------

  /** The hash the next entry must link to, which is also the hash an entry at position `i` must
      carry as its `prev_hash` when `i` is the number of entries before it. */
  function LinkBefore(l: Ledger, i: nat): string
    requires i <= |l.entries|
  {
    if i == 0 then l.carry else l.entries[i - 1].hash
  }

  function NewEntry(h: HashFn, l: Ledger, eventClass: string, payload: Payload,
                    buyerId: Option<string>, requestId: Option<string>, now: Timestamp): Entry
  {
    var seqNo := l.baseSeq + |l.entries|;
    var prevHash := LinkBefore(l, |l.entries|);
    Entry(seqNo, eventClass, buyerId, requestId, payload, now, prevHash,
          h(Canonical(seqNo, eventClass, payload, prevHash, now.text)))
  }

  function Appended(l: Ledger, e: Entry): Ledger {
    l.(entries := l.entries + [e])
  }

  function HeadHash(l: Ledger): string {
    if |l.entries| == 0 then "" else l.entries[|l.entries| - 1].hash
  }

  function HeadSeq(l: Ledger): int {
    l.baseSeq + |l.entries| - 1
  }

  /** Length of the longest prefix whose entries are all older than `beforeMs`. */
  function AgedCount(entries: seq<Entry>, beforeMs: int): (n: nat)
    ensures n <= |entries|
    ensures forall i :: 0 <= i < n ==> entries[i].timestamp.ms < beforeMs
    ensures n < |entries| ==> entries[n].timestamp.ms >= beforeMs
  {
    if |entries| == 0 || entries[0].timestamp.ms >= beforeMs then 0
    else 1 + AgedCount(entries[1..], beforeMs)
  }

  lemma AgedCountIs(entries: seq<Entry>, beforeMs: int, n: nat)
    requires n <= |entries| && forall i :: 0 <= i < n ==> entries[i].timestamp.ms < beforeMs
    requires n < |entries| ==> entries[n].timestamp.ms >= beforeMs
    ensures AgedCount(entries, beforeMs) == n
  {
  }

  /** The ledger after its first `count` entries left. */
  function WithoutPrefix(l: Ledger, count: nat): Ledger
    requires count <= |l.entries|
  {
    Ledger(l.baseSeq + count, LinkBefore(l, count), l.entries[count..])
  }

  function HashAt(l: Ledger, seqNo: int): Option<string> {
    if seqNo == l.baseSeq - 1 && l.carry != "" then Some(l.carry)
    else if 0 <= seqNo - l.baseSeq < |l.entries| then Some(l.entries[seqNo - l.baseSeq].hash)
    else None
  }

  datatype ReplayError = HashMismatch | ChainBreak

  datatype ReplayResult = Valid | Failed(at: nat, error: ReplayError)

  predicate LinkHolds(h: HashFn, l: Ledger, i: nat)
    requires i < |l.entries|
  {
    VerifyEntryHash(h, l.entries[i]) && l.entries[i].prevHash == LinkBefore(l, i)
  }

  /** Every entry carries its own hash and the hash of the entry before it. */
  ghost predicate ChainHolds(h: HashFn, l: Ledger) {
    forall i :: 0 <= i < |l.entries| ==> LinkHolds(h, l, i)
  }

  /** The outcome of a full replay: the first broken entry, and which of the two checks broke. */
  ghost predicate IsReplay(h: HashFn, l: Ledger, r: ReplayResult) {
    match r
    case Valid => ChainHolds(h, l)
    case Failed(at, error) =>
      && at < |l.entries|
      && (forall i :: 0 <= i < at ==> LinkHolds(h, l, i))
      && !LinkHolds(h, l, at)
      && (error == HashMismatch <==> !VerifyEntryHash(h, l.entries[at]))
  }

  /** Replay from position `from`, entries before it having been checked. */
  function Replay(h: HashFn, l: Ledger, from: nat := 0): (r: ReplayResult)
    requires from <= |l.entries|
    ensures (forall i :: 0 <= i < from ==> LinkHolds(h, l, i)) ==> IsReplay(h, l, r)
    decreases |l.entries| - from
  {
    if from == |l.entries| then Valid
    else if !VerifyEntryHash(h, l.entries[from]) then Failed(from, HashMismatch)
    else if l.entries[from].prevHash != LinkBefore(l, from) then Failed(from, ChainBreak)
    else Replay(h, l, from + 1)
  }

  // ---------------------------------------------------------------------------------------------
  // Verification on boot
  // ---------------------------------------------------------------------------------------------

  datatype VerifyError =
    | NoAnchorButNonEmptyLedger
    | AnchoredEntryMissing
    | AnchoredPrefixMismatch
    | ReplayFailed(at: nat)

  datatype VerifyResult = VerifyResult(
    valid: bool, headHashMatch: bool, replay: Option<ReplayResult>, error: Option<VerifyError>)

  function Latest(anchors: seq<AnchorRecord>): Option<AnchorRecord> {
    if |anchors| == 0 then None else Some(anchors[|anchors| - 1])
  }

  function VerifyAfterRestore(h: HashFn, l: Ledger, anchors: seq<AnchorRecord>): (r: VerifyResult)
    ensures r.valid <==> r.error.None?
    ensures r.valid && |anchors| > 0 ==>
              ChainHolds(h, l) && HashAt(l, anchors[|anchors| - 1].seqNo) == Some(anchors[|anchors| - 1].headHash)
  {
    match Latest(anchors)
    case None =>
      var empty := HeadHash(l) == "";
      VerifyResult(empty, empty, None, if empty then None else Some(NoAnchorButNonEmptyLedger))
    case Some(latest) =>
      var anchored := HashAt(l, latest.seqNo);
      if anchored != Some(latest.headHash) then
        VerifyResult(false, false, None,
                     Some(if anchored.None? then AnchoredEntryMissing else AnchoredPrefixMismatch))
      else
        match Replay(h, l)
        case Valid => VerifyResult(true, true, Some(Valid), None)
        case Failed(at, error) => VerifyResult(false, true, Some(Failed(at, error)), Some(ReplayFailed(at)))
  }

  // ---------------------------------------------------------------------------------------------
  // Histories
  // ---------------------------------------------------------------------------------------------

  /** Hash of the entry before number `i` of a history, "" before the first. */
  function HistoryLink(history: seq<Entry>, i: nat): string
    requires i <= |history|
  {
    if i == 0 then "" else history[i - 1].hash
  }

  predicate GenuineAt(h: HashFn, history: seq<Entry>, i: nat)
    requires i < |history|
  {
    && history[i].seqNo == i
    && VerifyEntryHash(h, history[i])
    && history[i].prevHash == HistoryLink(history, i)
  }

  /** A history that the append operation can write: numbered by position, hashed, linked. */
  ghost predicate Genuine(h: HashFn, history: seq<Entry>) {
    forall i :: 0 <= i < |history| ==> GenuineAt(h, history, i)
  }

  /** The ledger left after the first `base` entries of a history were rotated out. */
  function HotPart(history: seq<Entry>, base: nat): Ledger
    requires base <= |history|
  {
    Ledger(base, HistoryLink(history, base), history[base..])
  }

  /** Appending to the hot part of a genuine history extends that history, wherever it was cut. */
  lemma AppendExtendsHistory(h: HashFn, history: seq<Entry>, base: nat, eventClass: string, payload: Payload,
                             buyerId: Option<string>, requestId: Option<string>, now: Timestamp)
    requires Genuine(h, history) && base <= |history|
    ensures var e := NewEntry(h, HotPart(history, base), eventClass, payload, buyerId, requestId, now);
            && Genuine(h, history + [e])
            && Appended(HotPart(history, base), e) == HotPart(history + [e], base)
  {
    var l := HotPart(history, base);
    var e := NewEntry(h, l, eventClass, payload, buyerId, requestId, now);
    var longer := history + [e];
    assert longer[base..] == history[base..] + [e];
    assert e.prevHash == HistoryLink(history, |history|);
    forall i | 0 <= i < |longer|
      ensures GenuineAt(h, longer, i)
    {
      if i < |history| {
        assert GenuineAt(h, history, i);
      }
    }
  }

  /** Rotating the hot part moves the cut and nothing else. */
  lemma RotationMovesTheCut(history: seq<Entry>, base: nat, count: nat)
    requires base + count <= |history|
    ensures WithoutPrefix(HotPart(history, base), count) == HotPart(history, base + count)
    ensures HotPart(history, base).entries[..count] == history[base..base + count]
  {
  }

  /** Each anchor pins a head hash the history really had at that number. */
  ghost predicate AnchorsGenuine(history: seq<Entry>, anchors: seq<AnchorRecord>) {
    forall k :: 0 <= k < |anchors| ==>
      0 <= anchors[k].seqNo < |history| && anchors[k].headHash == history[anchors[k].seqNo].hash
  }

  /** Boot verification of an untampered ledger, exactly: wherever the history was cut and whatever
      was anchored, it is accepted if and only if the last anchor is not older than the entry
      just before the cut, or there is no anchor and no entry. */
  lemma AcceptsExactly(h: HashFn, history: seq<Entry>, l: Ledger, anchors: seq<AnchorRecord>)
    requires Genuine(h, history) && AnchorsGenuine(history, anchors)
    requires 0 <= l.baseSeq <= |history| && l == HotPart(history, l.baseSeq)
    ensures VerifyAfterRestore(h, l, anchors).valid <==>
              if |anchors| == 0 then |l.entries| == 0 else l.baseSeq - 1 <= anchors[|anchors| - 1].seqNo
  {
    var base := l.baseSeq;
    assert ChainHolds(h, l) by {
      forall i | 0 <= i < |l.entries|
        ensures LinkHolds(h, l, i)
      {
        assert GenuineAt(h, history, base + i);
      }
    }
    assert Replay(h, l) == Valid by {
      assert IsReplay(h, l, Replay(h, l));
    }
    if base < |history| {
      assert GenuineAt(h, history, |history| - 1);
    }
    if base > 0 {
      assert GenuineAt(h, history, base - 1);
    }
  }

  // ---------------------------------------------------------------------------------------------
  // Tamper evidence
  // ---------------------------------------------------------------------------------------------

  /** A hash collision shown by the data at hand: the loaded entry and the genuine entry with the
      same global number differ in a hashed field and carry the same hash. */
  ghost predicate Collides(h: HashFn, history: seq<Entry>, l: Ledger, s: int) {
    && 0 <= s < |history|
    && 0 <= s - l.baseSeq < |l.entries|
    && CanonicalOf(l.entries[s - l.baseSeq]) != CanonicalOf(history[s])
    && h(CanonicalOf(l.entries[s - l.baseSeq])) == h(CanonicalOf(history[s]))
  }

  /** Hot entries numbered `from` to `to` equal the history on every hashed field and on the hash. */
  ghost predicate AgreesOn(history: seq<Entry>, l: Ledger, from: int, to: int) {
    forall s :: 0 <= s && from <= s <= to ==>
      && s < |history|
      && 0 <= s - l.baseSeq < |l.entries|
      && CanonicalOf(l.entries[s - l.baseSeq]) == CanonicalOf(history[s])
      && l.entries[s - l.baseSeq].hash == history[s].hash
  }

  /** Backward step by step: an entry whose hash is genuine pins everything before it. */
  lemma {:induction false} PinBackwards(h: HashFn, history: seq<Entry>, l: Ledger, s: nat)
    requires Genuine(h, history) && s < |history|
    requires ChainHolds(h, l)
    requires 0 <= s - l.baseSeq < |l.entries|
    requires l.entries[s - l.baseSeq].hash == history[s].hash
    requires forall k :: !Collides(h, history, l, k)
    ensures 0 <= l.baseSeq <= s
    ensures l.carry == HistoryLink(history, l.baseSeq)
    ensures AgreesOn(history, l, l.baseSeq, s)
    decreases s
  {
    var i := s - l.baseSeq;
    assert LinkHolds(h, l, i);
    assert GenuineAt(h, history, s);
    assert !Collides(h, history, l, s);
    assert CanonicalOf(l.entries[i]) == CanonicalOf(history[s]);
    if i > 0 {
      assert LinkHolds(h, l, i - 1);
      assert l.entries[i - 1].hash == HistoryLink(history, s);
      PinBackwards(h, history, l, s - 1);
    }
  }

  /** Tamper evidence. Whatever ledger file is loaded, if startup accepts it against an anchor taken
      from a genuine history at `a`, then either some hot entry collides with the genuine entry of
      its number, or every hot entry up to `a` is genuine on all hashed fields, none of them is
      missing, and the carried hash is the genuine one. */
  lemma TamperEvidence(h: HashFn, history: seq<Entry>, l: Ledger, anchors: seq<AnchorRecord>, a: nat)
    requires Genuine(h, history) && a < |history|
    requires |anchors| > 0
    requires anchors[|anchors| - 1].seqNo == a && anchors[|anchors| - 1].headHash == history[a].hash
    requires VerifyAfterRestore(h, l, anchors).valid
    ensures || (exists s :: Collides(h, history, l, s))
            || (&& 0 <= l.baseSeq <= a + 1
                && l.carry == HistoryLink(history, l.baseSeq)
                && AgreesOn(history, l, l.baseSeq, a))
  {
    if forall s :: !Collides(h, history, l, s) {
      if !(a == l.baseSeq - 1 && l.carry != "") {
        PinBackwards(h, history, l, a);
      }
    }
  }

  /** The ledger with the unhashed fields of one entry replaced. */
  function Relabelled(l: Ledger, i: nat, buyerId: Option<string>, requestId: Option<string>): Ledger
    requires i < |l.entries|
  {
    l.(entries := l.entries[i := l.entries[i].(buyerId := buyerId, requestId := requestId)])
  }

  /** The limit of that guarantee on fields: `buyer_id` and `request_id` of any entry can be rewritten
      without changing the outcome of verification. */
  lemma UnhashedFieldsAreNotCovered(h: HashFn, l: Ledger, anchors: seq<AnchorRecord>, i: nat,
                                    buyerId: Option<string>, requestId: Option<string>)
    requires i < |l.entries|
    ensures VerifyAfterRestore(h, Relabelled(l, i, buyerId, requestId), anchors) == VerifyAfterRestore(h, l, anchors)
  {
    var changed := Relabelled(l, i, buyerId, requestId);
    forall k | 0 <= k < |l.entries|
      ensures SameLink(h, changed, l, k)
    {
    }
    SameLinksReplayAlike(h, changed, l, 0);
  }

  predicate SameLink(h: HashFn, l: Ledger, m: Ledger, k: nat)
    requires k < |l.entries| && k < |m.entries|
  {
    && VerifyEntryHash(h, l.entries[k]) == VerifyEntryHash(h, m.entries[k])
    && l.entries[k].prevHash == m.entries[k].prevHash
    && LinkBefore(l, k) == LinkBefore(m, k)
  }

  lemma {:induction false} SameLinksReplayAlike(h: HashFn, l: Ledger, m: Ledger, from: nat)
    requires |l.entries| == |m.entries| && from <= |l.entries|
    requires forall k :: 0 <= k < |l.entries| ==> SameLink(h, l, m, k)
    ensures Replay(h, l, from) == Replay(h, m, from)
    decreases |l.entries| - from
  {
    if from < |l.entries| {
      assert SameLink(h, l, m, from);
      SameLinksReplayAlike(h, l, m, from + 1);
    }
  }

  /** The limit at the front: a ledger whose hot part is made to begin later, as if entries had been rotated
      out, is accepted exactly as long as the last anchor reaches what was cut away. */
  lemma PretendedRotationIsNoticedExactly(h: HashFn, history: seq<Entry>, base: nat, anchors: seq<AnchorRecord>,
                                            cut: nat)
    requires Genuine(h, history) && AnchorsGenuine(history, anchors) && |anchors| > 0
    requires base + cut <= |history|
    ensures VerifyAfterRestore(h, WithoutPrefix(HotPart(history, base), cut), anchors).valid <==>
              base + cut - 1 <= anchors[|anchors| - 1].seqNo
  {
    RotationMovesTheCut(history, base, cut);
    AcceptsExactly(h, history, WithoutPrefix(HotPart(history, base), cut), anchors);
  }

  /** The limit at the end: cutting an untampered ledger down to fewer entries is noticed exactly
      when the cut reaches the last anchored entry. */
  lemma TruncationIsNoticedExactly(h: HashFn, history: seq<Entry>, base: nat, anchors: seq<AnchorRecord>, kept: nat)
    requires Genuine(h, history) && base <= kept <= |history|
    requires |anchors| > 0
    requires var last := anchors[|anchors| - 1];
             base - 1 <= last.seqNo < |history| && 0 <= last.seqNo && last.headHash == history[last.seqNo].hash
    ensures VerifyAfterRestore(h, HotPart(history[..kept], base), anchors).valid <==>
              anchors[|anchors| - 1].seqNo < kept
  {
    var shorter := history[..kept];
    var last := anchors[|anchors| - 1];
    assert Genuine(h, shorter) by {
      forall i | 0 <= i < |shorter|
        ensures GenuineAt(h, shorter, i)
      {
        assert GenuineAt(h, history, i);
      }
    }
    if last.seqNo < kept {
      assert Latest([last]) == Latest(anchors);
      AcceptsExactly(h, shorter, HotPart(shorter, base), [last]);
      assert VerifyAfterRestore(h, HotPart(shorter, base), anchors)
          == VerifyAfterRestore(h, HotPart(shorter, base), [last]);
    } else {
      assert HashAt(HotPart(shorter, base), last.seqNo) != Some(last.headHash) by {
        assert GenuineAt(h, history, last.seqNo);
      }
    }
  }
}
