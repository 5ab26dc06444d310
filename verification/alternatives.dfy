/** Answering "can you deliver this volume": the forecast snapshot, the decision on the disclosed
    figure, and the alternatives offered when the volume does not fit. */
module Alternatives {
  import opened Wrappers
  import opened Disclosure
  import opened Periods

  datatype Estimate = Estimate(units: real, viewableUnits: Option<real>, asOf: int)

  datatype Listed = Listed(familyId: string, period: string, estimate: Estimate)

  const MAX_STALENESS_MS := 3 * 1800 * 1000
  const MAX_ALTERNATIVES := 3
  const MAX_SAFE_INTEGER := 9_007_199_254_740_991

  // ---------------------------------------------------------------------------------------------
  // The snapshot
  // ---------------------------------------------------------------------------------------------

  /** The snapshot's entries in insertion order, one per family and period; `asOf` of the estimate is
      when it was fetched. */
  datatype Source = Source(families: set<string>, ready: bool, snapshot: seq<Listed>)

  datatype Reason = UnknownFamily | UnknownPeriod | NotReady | Stale

  predicate SamePair(l: Listed, familyId: string, period: string) {
    l.familyId == familyId && l.period == period
  }

  function Find(snapshot: seq<Listed>, familyId: string, period: string): (r: Option<Listed>)
    ensures r.Some? ==> r.value in snapshot && SamePair(r.value, familyId, period)
    ensures r.None? ==> forall l :: l in snapshot ==> !SamePair(l, familyId, period)
  {
    if |snapshot| == 0 then None
    else if SamePair(snapshot[0], familyId, period) then Some(snapshot[0])
    else Find(snapshot[1..], familyId, period)
  }

  /** Set an entry: in place if the pair is known, else at the end. */
  function Stored(snapshot: seq<Listed>, l: Listed): seq<Listed> {
    if |snapshot| == 0 then [l]
    else if SamePair(snapshot[0], l.familyId, l.period) then [l] + snapshot[1..]
    else [snapshot[0]] + Stored(snapshot[1..], l)
  }

  predicate IsFresh(l: Listed, now: int) {
    !(now - l.estimate.asOf > MAX_STALENESS_MS)
  }

  function GetAvailability(src: Source, familyId: string, period: string, now: int): Result<Estimate, Reason> {
    if familyId !in src.families then Err(UnknownFamily)
    else
      match Find(src.snapshot, familyId, period)
      case None => Err(if src.ready then UnknownPeriod else NotReady)
      case Some(l) => if IsFresh(l, now) then Ok(l.estimate) else Err(Stale)
  }

  function FreshOnly(snapshot: seq<Listed>, now: int): (r: seq<Listed>)
    ensures forall l :: l in r <==> l in snapshot && IsFresh(l, now)
  {
    if |snapshot| == 0 then []
    else (if IsFresh(snapshot[0], now) then [snapshot[0]] else []) + FreshOnly(snapshot[1..], now)
  }

  function ListAvailability(src: Source, now: int): seq<Listed> {
    FreshOnly(src.snapshot, now)
  }

  ghost predicate UniquePairs(snapshot: seq<Listed>) {
    forall i, j :: 0 <= i < j < |snapshot| ==> !SamePair(snapshot[i], snapshot[j].familyId, snapshot[j].period)
  }

  /** What every refresh keeps: one entry per pair, and only of configured families. */
  ghost predicate SnapshotSound(src: Source) {
    UniquePairs(src.snapshot) && forall l :: l in src.snapshot ==> l.familyId in src.families
  }

  lemma {:induction false} StoredKeepsSound(snapshot: seq<Listed>, l: Listed)
    requires UniquePairs(snapshot)
    ensures UniquePairs(Stored(snapshot, l))
    ensures forall x :: x in Stored(snapshot, l) <==> x == l || (x in snapshot && !SamePair(x, l.familyId, l.period))
    ensures forall f, p :: Find(Stored(snapshot, l), f, p) ==
              if SamePair(l, f, p) then Some(l) else Find(snapshot, f, p)
  {
    if |snapshot| > 0 {
      StoredKeepsSound(snapshot[1..], l);
      assert forall x :: x in snapshot <==> x == snapshot[0] || x in snapshot[1..];
      assert forall x :: x in snapshot[1..] ==> !SamePair(snapshot[0], x.familyId, x.period);
    }
  }

  lemma {:induction false} FindIsUnique(snapshot: seq<Listed>, l: Listed)
    requires UniquePairs(snapshot) && l in snapshot
    ensures Find(snapshot, l.familyId, l.period) == Some(l)
  {
    if snapshot[0] != l {
      FindIsUnique(snapshot[1..], l);
      assert forall x :: x in snapshot[1..] ==> !SamePair(snapshot[0], x.familyId, x.period);
    }
  }

  /** The ad server's answer for one pair, None if the call failed. */
  type Forecasts = (string, string) -> Option<Estimate>

  /** A period that can no longer be forecast: not readable, or over. */
  predicate Skipped(period: string, today: DateParts) {
    ParsePeriod(period).None? || CompareDates(ParsePeriod(period).value.end, today) < 0
  }

  /** What a pair's entry is after the forecasts of some families and periods came in. */
  function Refreshed(before: seq<Listed>, families: seq<string>, periods: seq<string>, today: DateParts,
                     forecasts: Forecasts, f: string, p: string): Option<Listed>
  {
    if f in families && p in periods && !Skipped(p, today) && forecasts(f, p).Some?
    then Some(Listed(f, p, forecasts(f, p).value))
    else Find(before, f, p)
  }

  /** What a cycle meets at one pair. */
  datatype Outcome = Fetched | Failed | LeftOut

  function OutcomeOf(familyId: string, period: string, today: DateParts, forecasts: Forecasts): Outcome {
    if Skipped(period, today) then LeftOut else if forecasts(familyId, period).Some? then Fetched else Failed
  }

  function Outcomes(familyId: string, periods: seq<string>, today: DateParts, forecasts: Forecasts): seq<Outcome> {
    if |periods| == 0 then []
    else
      Outcomes(familyId, periods[..|periods| - 1], today, forecasts)
      + [OutcomeOf(familyId, periods[|periods| - 1], today, forecasts)]
  }

  function AllOutcomes(families: seq<string>, periods: seq<string>, today: DateParts, forecasts: Forecasts)
    : seq<Outcome>
  {
    if |families| == 0 then []
    else
      AllOutcomes(families[..|families| - 1], periods, today, forecasts)
      + Outcomes(families[|families| - 1], periods, today, forecasts)
  }

  /** How many pairs met each outcome. */
  predicate Counts(ok: nat, failed: nat, skipped: nat, outcomes: seq<Outcome>) {
    var met := multiset(outcomes);
    ok == met[Fetched] && failed == met[Failed] && skipped == met[LeftOut]
  }

  lemma CountsAppend(ok: nat, failed: nat, skipped: nat, first: seq<Outcome>, done: nat, missed: nat, over: nat,
                     more: seq<Outcome>)
    requires Counts(ok, failed, skipped, first) && Counts(done, missed, over, more)
    ensures Counts(ok + done, failed + missed, skipped + over, first + more)
  {
    assert multiset(first + more) == multiset(first) + multiset(more);
  }

  lemma OutcomesExtend(ok: nat, failed: nat, skipped: nat, familyId: string, periods: seq<string>, period: string,
                       today: DateParts, forecasts: Forecasts)
    requires Counts(ok, failed, skipped, Outcomes(familyId, periods, today, forecasts))
    ensures var more, outcomes := OutcomeOf(familyId, period, today, forecasts),
                                  Outcomes(familyId, periods + [period], today, forecasts);
            && (more == Fetched ==> Counts(ok + 1, failed, skipped, outcomes))
            && (more == Failed ==> Counts(ok, failed + 1, skipped, outcomes))
            && (more == LeftOut ==> Counts(ok, failed, skipped + 1, outcomes))
  {
    assert (periods + [period])[..|periods|] == periods;
  }

  /** Every pair has what a cycle over these periods of the family leaves it. */
  ghost predicate IsRefreshed(after: seq<Listed>, before: seq<Listed>, familyId: string, periods: seq<string>,
                              today: DateParts, forecasts: Forecasts)
  {
    forall f, p :: Find(after, f, p) == Refreshed(before, [familyId], periods, today, forecasts, f, p)
  }

  ghost predicate PairRefreshed(after: seq<Listed>, before: seq<Listed>, familyId: string, period: string,
                                today: DateParts, forecasts: Forecasts)
  {
    forall f, p :: Find(after, f, p) ==
      if f == familyId && p == period && OutcomeOf(f, p, today, forecasts) == Fetched
      then Some(Listed(f, p, forecasts(f, p).value)) else Find(before, f, p)
  }

  lemma PairExtends(before: seq<Listed>, mid: seq<Listed>, after: seq<Listed>, familyId: string,
                    periods: seq<string>, period: string, today: DateParts, forecasts: Forecasts)
    requires IsRefreshed(mid, before, familyId, periods, today, forecasts)
    requires PairRefreshed(after, mid, familyId, period, today, forecasts)
    ensures IsRefreshed(after, before, familyId, periods + [period], today, forecasts)
  {
    forall f, p
      ensures Find(after, f, p) == Refreshed(before, [familyId], periods + [period], today, forecasts, f, p)
    {
      assert Find(mid, f, p) == Refreshed(before, [familyId], periods, today, forecasts, f, p);
    }
  }

  class GamForecastSource {
    const families: seq<string>
    var ready: bool
    var snapshot: seq<Listed>

    ghost function State(): Source
      reads this
    {
      Source((set f | f in families), ready, snapshot)
    }

    constructor (families: seq<string>)
      ensures this.families == families && !ready && snapshot == [] && SnapshotSound(State())
    {
      this.families, ready, snapshot := families, false, [];
    }

    /** One cycle over every family and period with nothing else at work: an answered pair is replaced, every
        other pair keeps what it had. Overlapping cycles are in `SnapshotIsLastAnswers`. */
    method Refresh(networkAnswers: bool, periods: seq<string>, today: DateParts, forecasts: Forecasts)
      returns (ok: nat, failed: nat, skipped: nat)
      requires SnapshotSound(State())
      modifies this
      ensures SnapshotSound(State())
      ensures !networkAnswers ==> State() == old(State()) && ok == skipped == 0 && failed == |families|
      ensures networkAnswers ==>
                ready && Counts(ok, failed, skipped, AllOutcomes(families, periods, today, forecasts))
      ensures networkAnswers ==>
                forall f, p :: Find(snapshot, f, p) ==
                    Refreshed(old(snapshot), families, periods, today, forecasts, f, p)
    {
      ok, failed, skipped := 0, 0, 0;
      if !networkAnswers {
        failed := |families|;
        return;
      }
      ready := true;
      for i := 0 to |families|
        invariant ready && SnapshotSound(State())
        invariant Counts(ok, failed, skipped, AllOutcomes(families[..i], periods, today, forecasts))
        invariant forall f, p :: Find(snapshot, f, p) ==
                    Refreshed(old(snapshot), families[..i], periods, today, forecasts, f, p)
      {
        var done, missed, over := RefreshFamily(families[i], periods, today, forecasts);
        assert families[..i + 1] == families[..i] + [families[i]];
        assert families[..i + 1][..i] == families[..i];
        CountsAppend(ok, failed, skipped, AllOutcomes(families[..i], periods, today, forecasts), done, missed, over,
                     Outcomes(families[i], periods, today, forecasts));
        ok, failed, skipped := ok + done, failed + missed, skipped + over;
      }
      assert families[..|families|] == families;
    }

    method RefreshFamily(familyId: string, periods: seq<string>, today: DateParts, forecasts: Forecasts)
      returns (ok: nat, failed: nat, skipped: nat)
      requires SnapshotSound(State()) && familyId in families
      modifies this`snapshot
      ensures SnapshotSound(State())
      ensures Counts(ok, failed, skipped, Outcomes(familyId, periods, today, forecasts))
      ensures forall f, p :: Find(snapshot, f, p) ==
                Refreshed(old(snapshot), [familyId], periods, today, forecasts, f, p)
    {
      ok, failed, skipped := 0, 0, 0;
      for i := 0 to |periods|
        invariant SnapshotSound(State())
        invariant Counts(ok, failed, skipped, Outcomes(familyId, periods[..i], today, forecasts))
        invariant IsRefreshed(snapshot, old(snapshot), familyId, periods[..i], today, forecasts)
      {
        ghost var before := snapshot;
        var outcome := RefreshPair(familyId, periods[i], today, forecasts);
        assert periods[..i + 1] == periods[..i] + [periods[i]];
        OutcomesExtend(ok, failed, skipped, familyId, periods[..i], periods[i], today, forecasts);
        PairExtends(old(snapshot), before, snapshot, familyId, periods[..i], periods[i], today, forecasts);
        match outcome
        case LeftOut => skipped := skipped + 1;
        case Failed => failed := failed + 1;
        case Fetched => ok := ok + 1;
      }
      assert periods[..|periods|] == periods;
    }

    method RefreshPair(familyId: string, period: string, today: DateParts, forecasts: Forecasts)
      returns (outcome: Outcome)
      requires SnapshotSound(State()) && familyId in families
      modifies this`snapshot
      ensures SnapshotSound(State()) && outcome == OutcomeOf(familyId, period, today, forecasts)
      ensures PairRefreshed(snapshot, old(snapshot), familyId, period, today, forecasts)
    {
      var range := ParsePeriod(period);
      if range.None? || CompareDates(range.value.end, today) < 0 {
        return LeftOut;
      }
      if forecasts(familyId, period).None? {
        return Failed;
      }
      var l := Listed(familyId, period, forecasts(familyId, period).value);
      StoredKeepsSound(snapshot, l);
      snapshot := Stored(snapshot, l);
      outcome := Fetched;
    }
  }

  // A cycle awaits the ad server at every pair, so answers of several cycles may come in mixed.

  datatype SnapshotEvent = NetworkKnown | Answered(listed: Listed) | Missed(familyId: string, period: string)

  function SnapshotStep(src: Source, e: SnapshotEvent): Source {
    match e
    case NetworkKnown => src.(ready := true)
    case Answered(l) => src.(snapshot := Stored(src.snapshot, l))
    case Missed(_, _) => src
  }

  function SnapshotAfter(src: Source, events: seq<SnapshotEvent>): Source {
    if |events| == 0 then src else SnapshotStep(SnapshotAfter(src, events[..|events| - 1]), events[|events| - 1])
  }

  /** The last answer for a pair, or what there was before. */
  function LastAnswer(before: Option<Listed>, events: seq<SnapshotEvent>, f: string, p: string): Option<Listed> {
    if |events| == 0 then before
    else
      var last := events[|events| - 1];
      if last.Answered? && SamePair(last.listed, f, p) then Some(last.listed)
      else LastAnswer(before, events[..|events| - 1], f, p)
  }

  /** However cycles overlap: the snapshot keeps one entry per pair of a configured family, and each pair has
      the last answer that came in for it. */
  lemma {:induction false} SnapshotIsLastAnswers(src: Source, events: seq<SnapshotEvent>)
    requires SnapshotSound(src)
    requires forall i :: 0 <= i < |events| && events[i].Answered? ==> events[i].listed.familyId in src.families
    ensures var after := SnapshotAfter(src, events);
            && SnapshotSound(after) && after.families == src.families
            && forall f, p :: Find(after.snapshot, f, p) == LastAnswer(Find(src.snapshot, f, p), events, f, p)
  {
    if |events| > 0 {
      var init, last := events[..|events| - 1], events[|events| - 1];
      SnapshotIsLastAnswers(src, init);
      if last.Answered? {
        StoredKeepsSound(SnapshotAfter(src, init).snapshot, last.listed);
      }
    }
  }

  // ---------------------------------------------------------------------------------------------
  // The decision
  // ---------------------------------------------------------------------------------------------

  datatype Status = Available | Partial | Unavailable

  /** The status and the disclosed figure never contradict each other. */
  function DecideAvailability(commercial: int, requested: int): (s: Status)
    ensures requested > 0 ==> (s == Available <==> requested <= commercial)
    ensures s == Unavailable <==> commercial <= 0
  {
    if commercial <= 0 then Unavailable else if requested <= commercial then Available else Partial
  }

  datatype Alternative = Alternative(familyId: string, period: string, deliverableUpTo: int, viewableUpTo: Option<int>)

  datatype Answer = Answer(
    familyId: string, period: string, requested: int, status: Status, deliverableUpTo: int, viewableUpTo: Option<int>,
    alternatives: seq<Alternative>, asOf: int)

  function Viewable(p: Policy, e: Estimate): Option<int> {
    match e.viewableUnits
    case None => None
    case Some(v) => Some(Quantized(p, v))
  }

  /** An eligible pair and its disclosed figure. */
  datatype Candidate = Candidate(listed: Listed, commercial: int)

  /** The question as the alternatives search sees it; `allowed` None means every family. */
  datatype Query = Query(familyId: string, period: string, requested: int, allowed: Option<set<string>>)

  predicate Eligible(p: Policy, q: Query, l: Listed) {
    && !SamePair(l, q.familyId, q.period)
    && (q.allowed.Some? ==> l.familyId in q.allowed.value)
    && Quantized(p, l.estimate.units) >= q.requested
  }

  function Candidates(p: Policy, q: Query, listed: seq<Listed>): (r: seq<Candidate>)
    ensures forall c :: c in r <==>
              c.listed in listed && Eligible(p, q, c.listed) && c.commercial == Quantized(p, c.listed.estimate.units)
  {
    if |listed| == 0 then []
    else (if Eligible(p, q, listed[0]) then [Candidate(listed[0], Quantized(p, listed[0].estimate.units))] else [])
         + Candidates(p, q, listed[1..])
  }

  /** The order of a locale's string comparison, as a sort key: a string sorts before another when its
      key is smaller, and equal keys compare as zero. Any total preorder on strings has such keys. */
  type Collation = string -> real

  /** Unreadable periods sort last. */
  function PeriodStart(period: string): int {
    match ParsePeriod(period)
    case Some(r) => DateKey(r.start)
    case None => MAX_SAFE_INTEGER
  }

  /** The asked family first, then earlier periods, then by family name. */
  function Compare(collate: Collation, familyId: string, a: Candidate, b: Candidate): int {
    var sameFamily := (if b.listed.familyId == familyId then 1 else 0)
                      - (if a.listed.familyId == familyId then 1 else 0);
    var byPeriod := PeriodStart(a.listed.period) - PeriodStart(b.listed.period);
    if sameFamily != 0 then sameFamily
    else if byPeriod != 0 then byPeriod
    else if collate(a.listed.familyId) < collate(b.listed.familyId) then -1
    else if collate(a.listed.familyId) > collate(b.listed.familyId) then 1
    else 0
  }

  /** Stable insertion: behind everything that does not sort strictly after it. */
  function Insert(collate: Collation, familyId: string, sorted: seq<Candidate>, c: Candidate): seq<Candidate> {
    if |sorted| == 0 then [c]
    else if Compare(collate, familyId, sorted[|sorted| - 1], c) <= 0 then sorted + [c]
    else Insert(collate, familyId, sorted[..|sorted| - 1], c) + [sorted[|sorted| - 1]]
  }

  function Sort(collate: Collation, familyId: string, candidates: seq<Candidate>): seq<Candidate> {
    if |candidates| == 0 then []
    else
      var init, last := candidates[..|candidates| - 1], candidates[|candidates| - 1];
      Insert(collate, familyId, Sort(collate, familyId, init), last)
  }

  function Offer(p: Policy, c: Candidate): Alternative {
    Alternative(c.listed.familyId, c.listed.period, c.commercial, Viewable(p, c.listed.estimate))
  }

  function FirstThree(sorted: seq<Candidate>): seq<Candidate> {
    if |sorted| > MAX_ALTERNATIVES then sorted[..MAX_ALTERNATIVES] else sorted
  }

  function Offers(p: Policy, chosen: seq<Candidate>): (r: seq<Alternative>)
    ensures |r| == |chosen| && forall i :: 0 <= i < |r| ==> r[i] == Offer(p, chosen[i])
  {
    seq(|chosen|, i requires 0 <= i < |chosen| => Offer(p, chosen[i]))
  }

  function FindAlternatives(collate: Collation, p: Policy, q: Query, listed: seq<Listed>): seq<Alternative> {
    Offers(p, FirstThree(Sort(collate, q.familyId, Candidates(p, q, listed))))
  }

  /** The estimate is read from `src`; the alternatives are listed after an await, from `later`. */
  function CheckAvailability(collate: Collation, p: Policy, src: Source, now: int, later: Source, laterNow: int,
                             q: Query)
    : Result<Answer, Reason>
  {
    match GetAvailability(src, q.familyId, q.period, now)
    case Err(reason) => Err(reason)
    case Ok(estimate) =>
      var commercial := Quantized(p, estimate.units);
      var status := DecideAvailability(commercial, q.requested);
      Ok(Answer(q.familyId, q.period, q.requested, status, commercial, Viewable(p, estimate),
                if status == Available then [] else FindAlternatives(collate, p, q, ListAvailability(later, laterNow)),
                estimate.asOf))
  }

  // ---------------------------------------------------------------------------------------------
  // The order and the sort
  // ---------------------------------------------------------------------------------------------

  /** The comparator is a total preorder, so sorting by it means something. */
  lemma CompareIsTotalPreorder(collate: Collation, familyId: string, a: Candidate, b: Candidate, c: Candidate)
    ensures Compare(collate, familyId, a, b) < 0 <==> Compare(collate, familyId, b, a) > 0
    ensures Compare(collate, familyId, a, b) <= 0 && Compare(collate, familyId, b, c) <= 0 ==>
              Compare(collate, familyId, a, c) <= 0
  {
  }

  /** Readable periods come in calendar order, before unreadable ones. */
  lemma PeriodOrderIsCalendarOrder(a: string, b: string)
    requires ParsePeriod(a).Some?
    ensures ParsePeriod(b).Some? ==>
              (PeriodStart(a) < PeriodStart(b) <==>
                  CompareDates(ParsePeriod(a).value.start, ParsePeriod(b).value.start) < 0)
    ensures ParsePeriod(b).None? ==> PeriodStart(a) < PeriodStart(b)
  {
    if ParsePeriod(b).Some? {
      KeyAgreesWithCompareDates(ParsePeriod(a).value.start, ParsePeriod(b).value.start);
    }
  }

  ghost predicate Sorted(collate: Collation, familyId: string, s: seq<Candidate>) {
    forall i, j :: 0 <= i < j < |s| ==> Compare(collate, familyId, s[i], s[j]) <= 0
  }

  lemma SplitLast(s: seq<Candidate>)
    requires |s| > 0
    ensures multiset(s) == multiset(s[..|s| - 1]) + multiset{s[|s| - 1]}
  {
    assert s == s[..|s| - 1] + [s[|s| - 1]];
  }

  lemma {:induction false} InsertPermutes(collate: Collation, familyId: string, sorted: seq<Candidate>, c: Candidate)
    ensures multiset(Insert(collate, familyId, sorted, c)) == multiset(sorted) + multiset{c}
  {
    if |sorted| > 0 {
      InsertPermutes(collate, familyId, sorted[..|sorted| - 1], c);
      SplitLast(sorted);
    }
  }

  lemma {:induction false} SortPermutes(collate: Collation, familyId: string, candidates: seq<Candidate>)
    ensures multiset(Sort(collate, familyId, candidates)) == multiset(candidates)
  {
    if |candidates| > 0 {
      var init, last := candidates[..|candidates| - 1], candidates[|candidates| - 1];
      SortPermutes(collate, familyId, init);
      InsertPermutes(collate, familyId, Sort(collate, familyId, init), last);
      SplitLast(candidates);
    }
  }

  /** Nothing in `s` sorts after `c`. */
  ghost predicate AllBefore(collate: Collation, familyId: string, s: seq<Candidate>, c: Candidate) {
    forall i :: 0 <= i < |s| ==> Compare(collate, familyId, s[i], c) <= 0
  }

  lemma SortedInit(collate: Collation, familyId: string, s: seq<Candidate>)
    requires |s| > 0 && Sorted(collate, familyId, s)
    ensures Sorted(collate, familyId, s[..|s| - 1]) && AllBefore(collate, familyId, s[..|s| - 1], s[|s| - 1])
  {
  }

  lemma SortedAppend(collate: Collation, familyId: string, s: seq<Candidate>, c: Candidate)
    requires Sorted(collate, familyId, s) && AllBefore(collate, familyId, s, c)
    ensures Sorted(collate, familyId, s + [c])
  {
  }

  lemma BeforeAppends(collate: Collation, familyId: string, s: seq<Candidate>, c: Candidate, d: Candidate)
    requires AllBefore(collate, familyId, s, d) && Compare(collate, familyId, c, d) <= 0
    ensures AllBefore(collate, familyId, s + [c], d)
  {
  }

  lemma {:induction false} InsertStaysBefore(collate: Collation, familyId: string, s: seq<Candidate>, c: Candidate,
                                             d: Candidate)
    requires AllBefore(collate, familyId, s, d) && Compare(collate, familyId, c, d) <= 0
    ensures AllBefore(collate, familyId, Insert(collate, familyId, s, c), d)
  {
    if |s| == 0 || Compare(collate, familyId, s[|s| - 1], c) <= 0 {
      BeforeAppends(collate, familyId, s, c, d);
    } else {
      var init := s[..|s| - 1];
      InsertStaysBefore(collate, familyId, init, c, d);
      BeforeAppends(collate, familyId, Insert(collate, familyId, init, c), s[|s| - 1], d);
    }
  }

  lemma AllBeforeLast(collate: Collation, familyId: string, s: seq<Candidate>, c: Candidate)
    requires |s| > 0 && Sorted(collate, familyId, s) && Compare(collate, familyId, s[|s| - 1], c) <= 0
    ensures AllBefore(collate, familyId, s, c)
  {
    forall i | 0 <= i < |s|
      ensures Compare(collate, familyId, s[i], c) <= 0
    {
      if i < |s| - 1 {
        CompareIsTotalPreorder(collate, familyId, s[i], s[|s| - 1], c);
      }
    }
  }

  lemma {:induction false} InsertSorts(collate: Collation, familyId: string, sorted: seq<Candidate>, c: Candidate)
    requires Sorted(collate, familyId, sorted)
    ensures Sorted(collate, familyId, Insert(collate, familyId, sorted, c))
  {
    if |sorted| > 0 {
      var last := sorted[|sorted| - 1];
      var init := sorted[..|sorted| - 1];
      if Compare(collate, familyId, last, c) <= 0 {
        AllBeforeLast(collate, familyId, sorted, c);
        SortedAppend(collate, familyId, sorted, c);
      } else {
        SortedInit(collate, familyId, sorted);
        InsertSorts(collate, familyId, init, c);
        CompareIsTotalPreorder(collate, familyId, last, c, last);
        InsertStaysBefore(collate, familyId, init, c, last);
        SortedAppend(collate, familyId, Insert(collate, familyId, init, c), last);
      }
    }
  }

  lemma {:induction false} SortSorts(collate: Collation, familyId: string, candidates: seq<Candidate>)
    ensures Sorted(collate, familyId, Sort(collate, familyId, candidates))
  {
    if |candidates| > 0 {
      SortSorts(collate, familyId, candidates[..|candidates| - 1]);
      var init, last := candidates[..|candidates| - 1], candidates[|candidates| - 1];
      InsertSorts(collate, familyId, Sort(collate, familyId, init), last);
    }
  }

  /** The candidates that compare equal to `c`, in order. */
  function Ties(collate: Collation, familyId: string, s: seq<Candidate>, c: Candidate): seq<Candidate> {
    if |s| == 0 then []
    else Ties(collate, familyId, s[..|s| - 1], c)
         + (if Compare(collate, familyId, s[|s| - 1], c) == 0 then [s[|s| - 1]] else [])
  }

  lemma {:induction false} InsertIsStable(collate: Collation, familyId: string, sorted: seq<Candidate>,
                                          x: Candidate, c: Candidate)
    ensures Ties(collate, familyId, Insert(collate, familyId, sorted, x), c)
         == Ties(collate, familyId, sorted, c) + (if Compare(collate, familyId, x, c) == 0 then [x] else [])
  {
    if |sorted| == 0 {
      assert [x][..0] == [];
    } else {
      var last := sorted[|sorted| - 1];
      var init := sorted[..|sorted| - 1];
      if Compare(collate, familyId, last, x) <= 0 {
        assert (sorted + [x])[..|sorted|] == sorted;
      } else {
        var r := Insert(collate, familyId, init, x);
        InsertIsStable(collate, familyId, init, x, c);
        assert (r + [last])[..|r|] == r;
      }
    }
  }

  /** The sort is stable: pairs that compare equal keep the order of the snapshot. */
  lemma {:induction false} SortIsStable(collate: Collation, familyId: string, candidates: seq<Candidate>, c: Candidate)
    ensures Ties(collate, familyId, Sort(collate, familyId, candidates), c) == Ties(collate, familyId, candidates, c)
  {
    if |candidates| > 0 {
      var init := candidates[..|candidates| - 1];
      SortIsStable(collate, familyId, init, c);
      InsertIsStable(collate, familyId, Sort(collate, familyId, init), candidates[|candidates| - 1], c);
    }
  }

  // ---------------------------------------------------------------------------------------------
  // Main results
  // ---------------------------------------------------------------------------------------------

  /** `chosen` is the best `|chosen|` of `eligible`: in order, drawn from it, and nothing left out sorts
      strictly earlier than anything chosen. */
  ghost predicate IsTop(collate: Collation, familyId: string, eligible: seq<Candidate>, chosen: seq<Candidate>) {
    && Sorted(collate, familyId, chosen)
    && multiset(chosen) <= multiset(eligible)
    && forall c, d :: c in multiset(eligible) - multiset(chosen) && d in chosen ==>
         Compare(collate, familyId, d, c) <= 0
  }

  lemma PrefixIsTop(collate: Collation, familyId: string, eligible: seq<Candidate>, sorted: seq<Candidate>, n: nat)
    requires Sorted(collate, familyId, sorted) && multiset(sorted) == multiset(eligible) && n <= |sorted|
    ensures IsTop(collate, familyId, eligible, sorted[..n])
  {
    assert sorted == sorted[..n] + sorted[n..];
    assert multiset(eligible) == multiset(sorted[..n]) + multiset(sorted[n..]);
    forall c, d | c in multiset(eligible) - multiset(sorted[..n]) && d in sorted[..n]
      ensures Compare(collate, familyId, d, c) <= 0
    {
      assert c in sorted[n..];
      var i, j :| 0 <= i < n && sorted[i] == d && n <= j < |sorted| && sorted[j] == c;
    }
  }

  lemma SameSize(s: seq<Candidate>, t: seq<Candidate>)
    requires multiset(s) == multiset(t)
    ensures |s| == |t|
  {
    assert |multiset(s)| == |s| && |multiset(t)| == |t|;
  }

  /** The alternatives are an exact top three: as many as there are eligible pairs, up to three; each
      is an eligible pair, so entitled, different from the asked one and large enough; they come in
      order; and no eligible pair that is left out sorts strictly earlier than one that is offered. */
  lemma AlternativesAreTopThree(collate: Collation, p: Policy, q: Query,
                                listed: seq<Listed>) returns (chosen: seq<Candidate>)
    ensures var eligible := Candidates(p, q, listed);
            && FindAlternatives(collate, p, q, listed) == Offers(p, chosen)
            && |chosen| == (if |eligible| < MAX_ALTERNATIVES then |eligible| else MAX_ALTERNATIVES)
            && (forall c :: c in chosen ==> c.listed in listed && Eligible(p, q, c.listed)
                                            && q.requested <= c.commercial == Quantized(p, c.listed.estimate.units))
            && IsTop(collate, q.familyId, eligible, chosen)
  {
    var eligible := Candidates(p, q, listed);
    var sorted := Sort(collate, q.familyId, eligible);
    SortSorts(collate, q.familyId, eligible);
    SortPermutes(collate, q.familyId, eligible);
    SameSize(sorted, eligible);
    chosen := FirstThree(sorted);
    assert chosen == sorted[..|chosen|];
    PrefixIsTop(collate, q.familyId, eligible, sorted, |chosen|);
    forall c | c in chosen
      ensures c in eligible
    {
      assert c in multiset(chosen);
    }
  }

  /** A listed pair can be asked about, and the answer is its own estimate. */
  lemma ListedIsAnswered(src: Source, l: Listed, now: int)
    requires SnapshotSound(src) && l in ListAvailability(src, now)
    ensures GetAvailability(src, l.familyId, l.period, now) == Ok(l.estimate)
  {
    FindIsUnique(src.snapshot, l);
  }

  /** Re-asking: on the snapshot and at the time that the alternatives were listed, asking for the same volume
      in any offered alternative is answered available, with the very figures that were offered. */
  lemma OfferedAlternativesAreAvailable(collate: Collation, p: Policy, src: Source, now: int, later: Source,
                                        laterNow: int,
                                        q: Query, i: nat)
    requires SnapshotSound(later) && q.requested > 0
    requires CheckAvailability(collate, p, src, now, later, laterNow, q).Ok?
    requires i < |CheckAvailability(collate, p, src, now, later, laterNow, q).value.alternatives|
    ensures var offered := CheckAvailability(collate, p, src, now, later, laterNow, q).value.alternatives[i];
            var asked := q.(familyId := offered.familyId, period := offered.period);
            AnsweredAsOffered(collate, p, later, laterNow, asked, offered)
  {
    var chosen := AlternativesAreTopThree(collate, p, q, ListAvailability(later, laterNow));
    assert chosen[i] in chosen;
    ListedIsAnswered(later, chosen[i].listed, laterNow);
  }

  /** Whatever snapshot comes after. */
  ghost predicate AnsweredAsOffered(collate: Collation, p: Policy, src: Source, now: int, asked: Query,
                                    offered: Alternative) {
    forall later, laterNow ::
      var again := CheckAvailability(collate, p, src, now, later, laterNow, asked);
      && again.Ok?
      && again.value.status == Available
      && again.value.deliverableUpTo == offered.deliverableUpTo >= asked.requested
      && again.value.viewableUpTo == offered.viewableUpTo
      && again.value.alternatives == []
  }

  /** Every answer: available exactly when the requested volume is within a positive figure; the viewable
      figure is within the deliverable one whenever the estimate's is. */
  lemma AnswersAreConsistent(collate: Collation, p: Policy, src: Source, now: int, later: Source, laterNow: int,
                             q: Query)
    requires ValidPolicy(p) && q.requested > 0
    requires CheckAvailability(collate, p, src, now, later, laterNow, q).Ok?
    ensures var answer := CheckAvailability(collate, p, src, now, later, laterNow, q).value;
            var estimate := GetAvailability(src, q.familyId, q.period, now).value;
            && (answer.status == Available <==> q.requested <= answer.deliverableUpTo)
            && (answer.status == Unavailable <==> answer.deliverableUpTo == 0)
            && (estimate.units >= 0.0 ==> answer.deliverableUpTo as real <= estimate.units)
            && (estimate.viewableUnits.Some? && estimate.viewableUnits.value <= estimate.units ==>
                  answer.viewableUpTo.Some? && answer.viewableUpTo.value <= answer.deliverableUpTo)
  {
    FiguresAreConsistent(p, GetAvailability(src, q.familyId, q.period, now).value);
  }

  lemma FiguresAreConsistent(p: Policy, e: Estimate)
    requires ValidPolicy(p)
    ensures Quantized(p, e.units) >= 0
    ensures e.units >= 0.0 ==> Quantized(p, e.units) as real <= e.units
    ensures e.viewableUnits.Some? && e.viewableUnits.value <= e.units ==> Viewable(p, e).value <= Quantized(p, e.units)
  {
    QuantizedMonotone(p, e.units, e.units);
    if e.units >= 0.0 {
      QuantizedBelow(p, e.units);
    }
    if e.viewableUnits.Some? && e.viewableUnits.value <= e.units {
      QuantizedMonotone(p, e.viewableUnits.value, e.units);
    }
  }

  /** The node never offers more than the forecast. */
  lemma QuantizedBelow(p: Policy, x: real)
    requires ValidPolicy(p) && x >= 0.0
    ensures Quantized(p, x) as real <= x
  {
    if x > 0.0 {
      OfferBelowEstimate(p, x);
      if Offered(p, x) >= 1 {
        RoundDownBounds(p, Offered(p, x));
      }
    }
  }
}
