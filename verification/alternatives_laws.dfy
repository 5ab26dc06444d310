/** The availability answer in the buyer's terms: which forecasts can be asked about, what an answer says, and
    which alternatives it names, in which order. */
module AlternativesLaws {
  import opened Wrappers
  import opened Disclosure
  import opened DisclosureLaws
  import opened Periods
  import opened Alternatives

  // ---------------------------------------------------------------------------------------------
  // Dates and periods
  // ---------------------------------------------------------------------------------------------

  predicate IsBefore(a: DateParts, b: DateParts) {
    || a.year < b.year
    || (a.year == b.year && a.month < b.month)
    || (a.year == b.year && a.month == b.month && a.day < b.day)
  }

  lemma CompareDatesExactly(a: DateParts, b: DateParts)
    ensures CompareDates(a, b) < 0 <==> IsBefore(a, b)
    ensures CompareDates(a, b) == 0 <==> a == b
  {
  }

  const MONTH_LENGTHS := [31, 28, 31, 30, 31, 30, 31, 31, 30, 31, 30, 31]

  /** The last day of a month; February of the year 0 is read as one of a common year. */
  function LastDay(year: int, month: int): int
    requires 1 <= month <= 12
  {
    if month == 2 && year % 4 == 0 && (year % 100 != 0 || year % 400 == 0) && year != 0 then 29
    else MONTH_LENGTHS[month - 1]
  }

  /** A printed month is the days from its first to its last, a printed quarter those of its three months. */
  lemma PeriodsAreDays(year: int, month: int, q: int)
    requires 0 <= year <= 9999 && 1 <= month <= 12 && 1 <= q <= 4
    ensures ParsePeriod(PrintMonth(year, month)) ==
            Some(PeriodRange(DateParts(year, month, 1), DateParts(year, month, LastDay(year, month))))
    ensures ParsePeriod(PrintQuarter(year, q)) == ParsePeriod(PrintYearQuarter(year, q)) ==
            Some(PeriodRange(DateParts(year, 3 * q - 2, 1), DateParts(year, 3 * q, LastDay(year, 3 * q))))
  {
    ParseInvertsPrint(year, month, q);
    LastDayAgrees(year, month);
    LastDayAgrees(year, 3 * q);
  }

  lemma LastDayAgrees(year: int, month: int)
    requires 0 <= year <= 9999 && 1 <= month <= 12
    ensures LastDayOfMonth(year, month) == LastDay(year, month)
  {
  }

  /** A refresh leaves out exactly the periods that cannot be read or ended before today. */
  lemma SkippedExactly(period: string, today: DateParts)
    ensures Skipped(period, today) <==>
            ParsePeriod(period) == None || IsBefore(ParsePeriod(period).value.end, today)
  {
    if ParsePeriod(period).Some? {
      CompareDatesExactly(ParsePeriod(period).value.end, today);
    }
  }

  /** A pair is forecast anew exactly if its family is configured, its period asked for, readable and not over,
      and the ad server answered; it then has that answer, and else what it had. */
  lemma RefreshedExactly(before: seq<Listed>, families: seq<string>, periods: seq<string>, today: DateParts,
                         forecasts: Forecasts, f: string, p: string)
    ensures var after := Refreshed(before, families, periods, today, forecasts, f, p);
            if f in families && p in periods && ParsePeriod(p).Some? && !IsBefore(ParsePeriod(p).value.end, today)
               && forecasts(f, p).Some?
            then after == Some(Listed(f, p, forecasts(f, p).value))
            else after == Find(before, f, p)
    ensures var over := ParsePeriod(p) == None || IsBefore(ParsePeriod(p).value.end, today);
            OutcomeOf(f, p, today, forecasts) ==
              if over then LeftOut else if forecasts(f, p) == None then Failed else Fetched
  {
    SkippedExactly(p, today);
  }

  // ---------------------------------------------------------------------------------------------
  // Which forecasts can be asked about
  // ---------------------------------------------------------------------------------------------

  /** A forecast is served for an hour and a half. */
  predicate IsServed(l: Listed, now: int) {
    now - l.estimate.asOf <= 5_400_000
  }

  /** Every answer of the snapshot: the one reason why there is none, or the pair's own estimate. */
  lemma AskedExactly(src: Source, familyId: string, period: string, now: int)
    requires SnapshotSound(src)
    ensures var r := GetAvailability(src, familyId, period, now);
            var known := exists l :: l in src.snapshot && SamePair(l, familyId, period);
            && (r == Err(UnknownFamily) <==> familyId !in src.families)
            && (r == Err(NotReady) <==> familyId in src.families && !known && !src.ready)
            && (r == Err(UnknownPeriod) <==> familyId in src.families && !known && src.ready)
            && (r == Err(Stale) <==>
                  exists l :: l in src.snapshot && SamePair(l, familyId, period) && !IsServed(l, now))
            && (forall e :: r == Ok(e) <==>
                  Listed(familyId, period, e) in src.snapshot && IsServed(Listed(familyId, period, e), now))
  {
    forall l | l in src.snapshot && SamePair(l, familyId, period)
      ensures Find(src.snapshot, familyId, period) == Some(l)
    {
      FindIsUnique(src.snapshot, l);
    }
  }

  /** What remains of `whole`, in its order, after some of it is left out. */
  predicate InOrder<T(==)>(part: seq<T>, whole: seq<T>) {
    if |whole| == 0 then part == []
    else InOrder(part, whole[1..]) || (|part| > 0 && part[0] == whole[0] && InOrder(part[1..], whole[1..]))
  }

  lemma InOrderGrows<T>(x: T, part: seq<T>, whole: seq<T>)
    requires InOrder(part, whole)
    ensures InOrder(part, [x] + whole) && InOrder([x] + part, [x] + whole)
  {
    assert ([x] + whole)[1..] == whole && ([x] + part)[1..] == part;
  }

  /** The list of forecasts is the snapshot without those no longer served. */
  lemma {:induction false} ListedExactly(snapshot: seq<Listed>, now: int)
    ensures InOrder(FreshOnly(snapshot, now), snapshot)
    ensures forall l :: l in FreshOnly(snapshot, now) <==> l in snapshot && IsServed(l, now)
  {
    if |snapshot| > 0 {
      ListedExactly(snapshot[1..], now);
      var r := FreshOnly(snapshot, now);
      if IsServed(snapshot[0], now) {
        assert r[1..] == FreshOnly(snapshot[1..], now);
      } else {
        assert r == FreshOnly(snapshot[1..], now);
      }
    }
  }

  // ---------------------------------------------------------------------------------------------
  // The order of the alternatives
  // ---------------------------------------------------------------------------------------------

  /** A readable period comes before one that starts later, and before an unreadable one. */
  predicate StartsBefore(a: string, b: string) {
    && ParsePeriod(a).Some?
    && (ParsePeriod(b).None? || IsBefore(ParsePeriod(a).value.start, ParsePeriod(b).value.start))
  }

  /** The asked family first; then the period that starts earlier; then the family that collates first. */
  predicate Precedes(collate: Collation, familyId: string, a: Listed, b: Listed) {
    || (a.familyId == familyId && b.familyId != familyId)
    || (&& (a.familyId == familyId <==> b.familyId == familyId)
        && (|| StartsBefore(a.period, b.period)
            || (!StartsBefore(b.period, a.period) && collate(a.familyId) < collate(b.familyId))))
  }

  lemma CompareExactly(collate: Collation, familyId: string, a: Candidate, b: Candidate)
    ensures Compare(collate, familyId, a, b) < 0 <==> Precedes(collate, familyId, a.listed, b.listed)
    ensures Compare(collate, familyId, a, b) > 0 <==> Precedes(collate, familyId, b.listed, a.listed)
  {
    StartsAgree(a.listed.period, b.listed.period);
    StartsAgree(b.listed.period, a.listed.period);
  }

  lemma StartsAgree(a: string, b: string)
    ensures PeriodStart(a) < PeriodStart(b) <==> StartsBefore(a, b)
  {
    if ParsePeriod(a).Some? {
      PeriodOrderIsCalendarOrder(a, b);
      if ParsePeriod(b).Some? {
        CompareDatesExactly(ParsePeriod(a).value.start, ParsePeriod(b).value.start);
      }
    } else if ParsePeriod(b).Some? {
      PeriodOrderIsCalendarOrder(b, a);
    }
  }

  // ---------------------------------------------------------------------------------------------
  // Which alternatives are named
  // ---------------------------------------------------------------------------------------------

  ghost predicate DisclosesViewable(p: Policy, e: Estimate, figure: Option<int>) {
    match e.viewableUnits
    case None => figure == None
    case Some(units) => figure.Some? && Discloses(p, units, figure.value)
  }

  /** An alternative to the question: another pair, of a family the buyer may see, whose disclosed figure takes
      the whole volume. */
  ghost predicate MayOffer(p: Policy, q: Query, l: Listed) {
    && !(l.familyId == q.familyId && l.period == q.period)
    && (q.allowed.Some? ==> l.familyId in q.allowed.value)
    && exists figure: int :: Discloses(p, l.estimate.units, figure) && q.requested <= figure
  }

  /** The alternative shows the pair with its own figures. */
  ghost predicate Shows(p: Policy, a: Alternative, l: Listed) {
    && a.familyId == l.familyId && a.period == l.period
    && Discloses(p, l.estimate.units, a.deliverableUpTo)
    && DisclosesViewable(p, l.estimate, a.viewableUpTo)
  }

  lemma EligibleExactly(p: Policy, q: Query, l: Listed)
    requires ValidPolicy(p)
    ensures Eligible(p, q, l) <==> MayOffer(p, q, l)
  {
    var units := l.estimate.units;
    DisclosedExactly(p, units, Quantized(p, units));
    if figure: int :| Discloses(p, units, figure) && q.requested <= figure {
      DisclosedExactly(p, units, figure);
    }
  }

  lemma OfferShows(p: Policy, c: Candidate)
    requires ValidPolicy(p) && c.commercial == Quantized(p, c.listed.estimate.units)
    ensures Shows(p, Offer(p, c), c.listed)
  {
    var units := c.listed.estimate.units;
    DisclosedExactly(p, units, c.commercial);
    ViewableExactly(p, c.listed.estimate);
  }

  lemma ViewableExactly(p: Policy, e: Estimate)
    requires ValidPolicy(p)
    ensures DisclosesViewable(p, e, Viewable(p, e))
  {
    if e.viewableUnits.Some? {
      var units := e.viewableUnits.value;
      DisclosedExactly(p, units, Quantized(p, units));
    }
  }

  function Pairs(candidates: seq<Candidate>): (r: seq<Listed>)
    ensures |r| == |candidates| && forall i :: 0 <= i < |r| ==> r[i] == candidates[i].listed
  {
    seq(|candidates|, i requires 0 <= i < |candidates| => candidates[i].listed)
  }

  lemma CandidatesUnfold(p: Policy, q: Query, listed: seq<Listed>)
    requires |listed| > 0
    ensures var rest := Pairs(Candidates(p, q, listed[1..]));
            Pairs(Candidates(p, q, listed)) == if Eligible(p, q, listed[0]) then [listed[0]] + rest else rest
  {
  }

  /** The candidates are the pairs that may be offered, in the order of the list. */
  lemma {:induction false} CandidatesInOrder(p: Policy, q: Query, listed: seq<Listed>)
    ensures InOrder(Pairs(Candidates(p, q, listed)), listed)
  {
    if |listed| > 0 {
      var rest := Candidates(p, q, listed[1..]);
      CandidatesInOrder(p, q, listed[1..]);
      InOrderGrows(listed[0], Pairs(rest), listed[1..]);
      assert listed == [listed[0]] + listed[1..];
      CandidatesUnfold(p, q, listed);
    }
  }

  ghost predicate TopThree(collate: Collation, p: Policy, q: Query, listed: seq<Listed>, pairs: seq<Listed>) {
    && |pairs| <= 3
    && (forall i :: 0 <= i < |pairs| ==> pairs[i] in listed && MayOffer(p, q, pairs[i]))
    && (forall i, j :: 0 <= i < j < |pairs| ==> !Precedes(collate, q.familyId, pairs[j], pairs[i]))
    && (forall l :: l in listed && MayOffer(p, q, l) && l !in pairs ==>
          |pairs| == 3 && forall i :: 0 <= i < |pairs| ==> !Precedes(collate, q.familyId, l, pairs[i]))
  }

  /** The alternatives are the first three, or all, of the pairs that may be offered: in the order of the asked
      family, calendar and collation, each with its own figures; whatever is left out comes before none of them. */
  lemma NamedExactly(collate: Collation, p: Policy, q: Query, listed: seq<Listed>) returns (pairs: seq<Listed>)
    requires ValidPolicy(p)
    ensures var named := FindAlternatives(collate, p, q, listed);
            && |named| == |pairs| && TopThree(collate, p, q, listed, pairs)
            && forall i :: 0 <= i < |pairs| ==> Shows(p, named[i], pairs[i])
  {
    var chosen := AlternativesAreTopThree(collate, p, q, listed);
    pairs := Pairs(chosen);
    forall i | 0 <= i < |chosen|
      ensures Shows(p, Offer(p, chosen[i]), pairs[i]) && MayOffer(p, q, pairs[i])
    {
      assert chosen[i] in chosen;
      ChosenIsOffer(p, q, chosen[i]);
    }
    ChosenInOrder(collate, q.familyId, chosen);
    forall l | l in listed && MayOffer(p, q, l) && l !in pairs
      ensures |pairs| == 3 && forall i :: 0 <= i < |pairs| ==> !Precedes(collate, q.familyId, l, pairs[i])
    {
      LeftOutIsLater(collate, p, q, listed, chosen, l);
    }
  }

  lemma ChosenIsOffer(p: Policy, q: Query, c: Candidate)
    requires ValidPolicy(p) && Eligible(p, q, c.listed) && c.commercial == Quantized(p, c.listed.estimate.units)
    ensures Shows(p, Offer(p, c), c.listed) && MayOffer(p, q, c.listed)
  {
    OfferShows(p, c);
    EligibleExactly(p, q, c.listed);
  }

  lemma ChosenInOrder(collate: Collation, familyId: string, chosen: seq<Candidate>)
    requires Sorted(collate, familyId, chosen)
    ensures forall i, j :: 0 <= i < j < |chosen| ==> !Precedes(collate, familyId, chosen[j].listed, chosen[i].listed)
  {
    forall i, j | 0 <= i < j < |chosen|
      ensures !Precedes(collate, familyId, chosen[j].listed, chosen[i].listed)
    {
      CompareExactly(collate, familyId, chosen[i], chosen[j]);
    }
  }

  lemma LeftOutIsLater(collate: Collation, p: Policy, q: Query, listed: seq<Listed>, chosen: seq<Candidate>, l: Listed)
    requires ValidPolicy(p) && l in listed && MayOffer(p, q, l) && l !in Pairs(chosen)
    requires var eligible := Candidates(p, q, listed);
             && IsTop(collate, q.familyId, eligible, chosen)
             && |chosen| == (if |eligible| < MAX_ALTERNATIVES then |eligible| else MAX_ALTERNATIVES)
    ensures |chosen| == 3
    ensures forall i :: 0 <= i < |chosen| ==> !Precedes(collate, q.familyId, l, chosen[i].listed)
  {
    var eligible := Candidates(p, q, listed);
    var c := Candidate(l, Quantized(p, l.estimate.units));
    EligibleExactly(p, q, l);
    assert c in eligible;
    forall k | 0 <= k < |chosen|
      ensures chosen[k] != c
    {
      assert Pairs(chosen)[k] in Pairs(chosen);
    }
    var out := multiset(eligible) - multiset(chosen);
    assert c in out;
    assert |out| == |multiset(eligible)| - |multiset(chosen)|;
    forall i | 0 <= i < |chosen|
      ensures !Precedes(collate, q.familyId, l, chosen[i].listed)
    {
      assert chosen[i] in chosen;
      CompareExactly(collate, q.familyId, chosen[i], c);
    }
  }

  // ---------------------------------------------------------------------------------------------
  // The answer
  // ---------------------------------------------------------------------------------------------

  /** Every answer: a refusal exactly when the pair has no served forecast; otherwise the question back, the
      figures of the pair's own forecast, the status that follows from the figure, and alternatives exactly when
      the volume does not fit. */
  lemma AnswerExactly(collate: Collation, p: Policy, src: Source, now: int, later: Source, laterNow: int, q: Query)
    requires ValidPolicy(p) && SnapshotSound(src)
    ensures var r := CheckAvailability(collate, p, src, now, later, laterNow, q);
            match GetAvailability(src, q.familyId, q.period, now)
            case Err(reason) => r == Err(reason)
            case Ok(e) => r.Ok? && IsAnswer(collate, p, later, laterNow, q, e, r.value)
  {
    var r := GetAvailability(src, q.familyId, q.period, now);
    if r.Ok? {
      var units := r.value.units;
      DisclosedExactly(p, units, Quantized(p, units));
      ViewableExactly(p, r.value);
    }
  }

  ghost predicate IsAnswer(collate: Collation, p: Policy, later: Source, laterNow: int, q: Query, e: Estimate,
                           a: Answer)
  {
    && a.familyId == q.familyId && a.period == q.period && a.requested == q.requested && a.asOf == e.asOf
    && Discloses(p, e.units, a.deliverableUpTo) && DisclosesViewable(p, e, a.viewableUpTo)
    && (a.status == Unavailable <==> a.deliverableUpTo <= 0)
    && (a.status == Available <==> 0 < a.deliverableUpTo && q.requested <= a.deliverableUpTo)
    && a.alternatives == (if a.status == Available then []
                          else FindAlternatives(collate, p, q, FreshOnly(later.snapshot, laterNow)))
  }
}
