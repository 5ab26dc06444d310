/** When the submit-later queue can store one number twice: exactly when a number is appended twice and
    reconciles may overlap. */
module StoredOnce {
  import opened SubmissionQueue

  // ---------------------------------------------------------------------------------------------
  // Fresh numbers are stored once, whatever overlaps
  // ---------------------------------------------------------------------------------------------

  function Numbers(records: seq<Record>): set<int> {
    set r | r in records :: r.seqNo
  }

  ghost predicate Unrepeated(records: seq<Record>) {
    forall i, j :: 0 <= i < j < |records| ==> records[i].seqNo != records[j].seqNo
  }

  /** What a reconcile in progress still answers for. */
  function HeldBy(pass: Pass): seq<Record> {
    pass.queue + pass.failed
  }

  /** Each number is in one place: stored, pending, or held by one reconcile. All numbers so far are in
      `used`. */
  ghost predicate OnePlaceEach(w: World, used: set<int>) {
    && w.stored == SeqsOf(w.log) && NoDuplicates(w.log) && w.stored <= used
    && Unrepeated(w.mirror) && Numbers(w.mirror) <= used
    && Unrepeated(w.pending) && Numbers(w.pending) <= used && Numbers(w.pending) !! w.stored
    && (forall p :: p in w.passes ==> HeldApart(w, w.passes[p], used))
    && (forall p, q :: p in w.passes && q in w.passes && p != q ==>
          Numbers(HeldBy(w.passes[p])) !! Numbers(HeldBy(w.passes[q])))
  }

  ghost predicate HeldApart(w: World, pass: Pass, used: set<int>) {
    && Unrepeated(HeldBy(pass)) && Numbers(HeldBy(pass)) <= used
    && Numbers(HeldBy(pass)) !! w.stored && Numbers(HeldBy(pass)) !! Numbers(w.pending)
  }

  function UsedAfter(used: set<int>, a: Action): set<int> {
    if a.Append? then used + {a.record.seqNo} else used
  }

  lemma NumbersAdd(a: seq<Record>, b: seq<Record>)
    ensures Numbers(a + b) == Numbers(a) + Numbers(b)
  {
    assert forall r :: r in a + b <==> r in a || r in b;
  }

  lemma UnrepeatedSplits(a: seq<Record>, b: seq<Record>)
    ensures Unrepeated(a + b) <==> Unrepeated(a) && Unrepeated(b) && Numbers(a) !! Numbers(b)
  {
    if Unrepeated(a + b) {
      assert Unrepeated(a) && Unrepeated(b) by {
        assert forall i :: 0 <= i < |a| ==> (a + b)[i] == a[i];
        assert forall i :: 0 <= i < |b| ==> (a + b)[|a| + i] == b[i];
      }
      forall i, j | 0 <= i < |a| && 0 <= j < |b|
        ensures a[i].seqNo != b[j].seqNo
      {
        assert (a + b)[i] == a[i] && (a + b)[|a| + j] == b[j];
      }
    } else {
      var i, j :| 0 <= i < j < |a + b| && (a + b)[i].seqNo == (a + b)[j].seqNo;
      if i < |a| <= j {
        assert a[i].seqNo in Numbers(a) && b[j - |a|].seqNo in Numbers(b);
      }
    }
  }

  lemma {:induction false} UnstoredUnrepeated(records: seq<Record>, stored: set<int>)
    requires Unrepeated(records)
    ensures Unrepeated(Unstored(records, stored))
    ensures Numbers(Unstored(records, stored)) <= Numbers(records) && Numbers(Unstored(records, stored)) !! stored
  {
    UnstoredAre(records, stored);
    if |records| > 0 {
      UnstoredUnrepeated(records[1..], stored);
      assert records == [records[0]] + records[1..];
      UnrepeatedSplits([records[0]], records[1..]);
      UnrepeatedSplits([records[0]], Unstored(records[1..], stored));
    }
  }

  /** Ending a reconcile, or its next record failing, only moves what it holds. */
  lemma RotatedHeld(queue: seq<Record>, failed: seq<Record>)
    requires |queue| > 0
    ensures Numbers(queue[1..] + (failed + [queue[0]])) == Numbers(queue + failed)
    ensures Unrepeated(queue + failed) ==> Unrepeated(queue[1..] + (failed + [queue[0]]))
  {
    var first, rest := [queue[0]], queue[1..];
    assert queue == first + rest;
    NumbersAdd(first, rest);
    NumbersAdd(queue, failed);
    NumbersAdd(failed, first);
    NumbersAdd(rest, failed + first);
    UnrepeatedSplits(queue, failed);
    UnrepeatedSplits(first, rest);
    UnrepeatedSplits(failed, first);
    UnrepeatedSplits(rest, failed + first);
  }

  lemma DroppedHeld(queue: seq<Record>, failed: seq<Record>)
    requires |queue| > 0 && Unrepeated(queue + failed)
    ensures Unrepeated(queue[1..] + failed)
    ensures Numbers(queue[1..] + failed) == Numbers(queue + failed) - {queue[0].seqNo}
  {
    assert queue + failed == [queue[0]] + (queue[1..] + failed);
    UnrepeatedSplits([queue[0]], queue[1..] + failed);
    NumbersAdd([queue[0]], queue[1..] + failed);
  }

  lemma AppendKeepsOnePlace(w: World, used: set<int>, r: Record, written: bool)
    requires OnePlaceEach(w, used) && r.seqNo !in used
    ensures OnePlaceEach(Step(w, Append(r, written)), used + {r.seqNo})
  {
    UnrepeatedSplits(w.mirror, [r]);
    UnrepeatedSplits(w.pending, [r]);
    NumbersAdd(w.mirror, [r]);
    NumbersAdd(w.pending, [r]);
    var after := Step(w, Append(r, written));
    forall p | p in after.passes
      ensures HeldApart(after, after.passes[p], used + {r.seqNo})
    {
      assert HeldApart(w, w.passes[p], used);
    }
  }

  lemma BeginKeepsOnePlace(w: World, used: set<int>, p: nat)
    requires OnePlaceEach(w, used) && Enabled(w, Begin(p))
    ensures OnePlaceEach(Step(w, Begin(p)), used)
  {
    var after := Step(w, Begin(p));
    assert HeldBy(after.passes[p]) == w.pending;
    forall q | q in after.passes
      ensures HeldApart(after, after.passes[q], used)
    {
      assert q != p ==> HeldApart(w, w.passes[q], used);
    }
  }

  lemma VisitKeepsOnePlace(w: World, used: set<int>, p: nat)
    requires OnePlaceEach(w, used) && Enabled(w, Visit(p))
    ensures OnePlaceEach(Step(w, Visit(p)), used)
  {
    var pass := w.passes[p];
    assert HeldApart(w, pass, used);
    assert pass.queue[0] in HeldBy(pass);
    var after := Step(w, Visit(p));
    forall q | q in after.passes
      ensures HeldApart(after, after.passes[q], used)
    {
      assert HeldApart(w, w.passes[q], used) && HeldBy(after.passes[q]) == HeldBy(w.passes[q]);
    }
  }

  lemma FinishKeepsOnePlace(w: World, used: set<int>, p: nat, ok: bool)
    requires OnePlaceEach(w, used) && Enabled(w, Finish(p, ok))
    ensures OnePlaceEach(Step(w, Finish(p, ok)), used)
  {
    var pass := w.passes[p];
    var r := pass.queue[0];
    assert HeldApart(w, pass, used);
    assert r in HeldBy(pass);
    assert r.seqNo in Numbers(HeldBy(pass));
    RotatedHeld(pass.queue, pass.failed);
    DroppedHeld(pass.queue, pass.failed);
    var after := Step(w, Finish(p, ok));
    assert after.stored == SeqsOf(after.log);
    forall q | q in after.passes
      ensures HeldApart(after, after.passes[q], used)
    {
      assert HeldApart(w, w.passes[q], used);
    }
  }

  lemma EndKeepsOnePlace(w: World, used: set<int>, p: nat)
    requires OnePlaceEach(w, used) && Enabled(w, End(p))
    ensures OnePlaceEach(Step(w, End(p)), used)
  {
    var failed := w.passes[p].failed;
    assert HeldApart(w, w.passes[p], used) && HeldBy(w.passes[p]) == failed;
    UnrepeatedSplits(failed, w.pending);
    NumbersAdd(failed, w.pending);
    var after := Step(w, End(p));
    forall q | q in after.passes
      ensures HeldApart(after, after.passes[q], used)
    {
      assert HeldApart(w, w.passes[q], used);
    }
  }

  lemma StepKeepsOnePlace(w: World, used: set<int>, a: Action)
    requires OnePlaceEach(w, used) && (a.Append? ==> a.record.seqNo !in used)
    ensures OnePlaceEach(Step(w, a), UsedAfter(used, a))
  {
    if Enabled(w, a) {
      match a
      case Append(r, written) => AppendKeepsOnePlace(w, used, r, written);
      case Begin(p) => BeginKeepsOnePlace(w, used, p);
      case Visit(p) => VisitKeepsOnePlace(w, used, p);
      case Finish(p, ok) => FinishKeepsOnePlace(w, used, p, ok);
      case End(p) => EndKeepsOnePlace(w, used, p);
      case Restart => UnstoredUnrepeated(w.mirror, w.stored);
    }
  }

  /** The records a run appends, in order. */
  function Appends(actions: seq<Action>): seq<Record> {
    if |actions| == 0 then []
    else (if actions[0].Append? then [actions[0].record] else []) + Appends(actions[1..])
  }

  /** No number of the records is in `used` and none comes twice. */
  ghost predicate AllFresh(records: seq<Record>, used: set<int>) {
    Unrepeated(records) && Numbers(records) !! used
  }

  /** Numbers that are appended once are stored at most once, under any overlap of reconciles, any failures
      and any restarts. */
  lemma {:induction false} FreshIsStoredOnce(w: World, used: set<int>, actions: seq<Action>)
    requires OnePlaceEach(w, used) && AllFresh(Appends(actions), used)
    ensures NoDuplicates(Execute(w, actions).log)
    decreases |actions|
  {
    if |actions| > 0 {
      var a := actions[0];
      assert !a.Append? ==> Appends(actions) == Appends(actions[1..]);
      if a.Append? {
        UnrepeatedSplits([a.record], Appends(actions[1..]));
        NumbersAdd([a.record], Appends(actions[1..]));
        assert a.record.seqNo in Numbers([a.record]);
      }
      StepKeepsOnePlace(w, used, a);
      FreshIsStoredOnce(Step(w, a), UsedAfter(used, a), actions[1..]);
    }
  }

  // ---------------------------------------------------------------------------------------------
  // A repeated number can be stored twice
  // ---------------------------------------------------------------------------------------------

  function Appending(records: seq<Record>): seq<Action> {
    if |records| == 0 then [] else [Append(records[0], true)] + Appending(records[1..])
  }

  function Queued(w: World, records: seq<Record>): World {
    w.(mirror := w.mirror + records, pending := w.pending + records)
  }

  lemma QueuedAdds(w: World, a: seq<Record>, b: seq<Record>)
    ensures Queued(Queued(w, a), b) == Queued(w, a + b)
  {
    assert w.mirror + a + b == w.mirror + (a + b) && w.pending + a + b == w.pending + (a + b);
  }

  lemma {:induction false} ExecuteAppends(w: World, records: seq<Record>)
    ensures Execute(w, Appending(records)) == Queued(w, records)
    decreases |records|
  {
    if |records| > 0 {
      assert Appending(records)[1..] == Appending(records[1..]);
      assert Step(w, Append(records[0], true)) == Queued(w, [records[0]]);
      ExecuteAppends(Queued(w, [records[0]]), records[1..]);
      QueuedAdds(w, [records[0]], records[1..]);
      assert records == [records[0]] + records[1..];
    } else {
      assert Queued(w, records) == w;
    }
  }

  lemma {:induction false} AppendsAppending(records: seq<Record>)
    ensures Appends(Appending(records)) == records
  {
    if |records| > 0 {
      assert Appending(records)[1..] == Appending(records[1..]);
      AppendsAppending(records[1..]);
    }
  }

  lemma {:induction false} ExecuteBoth(w: World, a: seq<Action>, b: seq<Action>)
    ensures Execute(w, a + b) == Execute(Execute(w, a), b)
    decreases |a|
  {
    if |a| == 0 {
      assert a + b == b;
    } else {
      ExecuteBoth(Step(w, a[0]), a[1..], b);
      assert (a + b)[0] == a[0] && (a + b)[1..] == a[1..] + b;
    }
  }

  lemma {:induction false} AppendsBoth(a: seq<Action>, b: seq<Action>)
    ensures Appends(a + b) == Appends(a) + Appends(b)
    decreases |a|
  {
    if |a| == 0 {
      assert a + b == b;
    } else {
      AppendsBoth(a[1..], b);
      assert (a + b)[0] == a[0] && (a + b)[1..] == a[1..] + b;
      var first := if a[0].Append? then [a[0].record] else [];
      assert first + (Appends(a[1..]) + Appends(b)) == first + Appends(a[1..]) + Appends(b);
    }
  }

  lemma {:induction false} AppendsNothing(actions: seq<Action>)
    requires forall i :: 0 <= i < |actions| ==> !actions[i].Append?
    ensures Appends(actions) == []
  {
    if |actions| > 0 {
      AppendsNothing(actions[1..]);
    }
  }

  /** One reconcile takes what is pending and another the next record, and starts to submit it. */
  function TakeAndStart(p: nat, r: Record): seq<Action> {
    [Begin(p), Append(r, true), Begin(p + 1), Visit(p + 1)]
  }

  lemma TakingAndStarting(w: World, p: nat, r: Record)
    requires p !in w.passes && p + 1 !in w.passes && r.seqNo !in w.stored
    ensures Execute(w, TakeAndStart(p, r))
         == w.(mirror := w.mirror + [r], pending := [],
               passes := w.passes[p := Pass(w.pending, false, [])][p + 1 := Pass([r], true, [])])
  {
    var a := TakeAndStart(p, r);
    var w1 := w.(pending := [], passes := w.passes[p := Pass(w.pending, false, [])]);
    var w2 := w1.(mirror := w.mirror + [r], pending := [r]);
    var w3 := w2.(pending := [], passes := w1.passes[p + 1 := Pass([r], false, [])]);
    assert Step(w, a[0]) == w1;
    assert [] + [r] == [r];
    assert Step(w1, a[1]) == w2;
    assert Step(w2, a[2]) == w3;
    assert Step(w3, a[3]) == w3.(passes := w3.passes[p + 1 := Pass([r], true, [])]);
    assert w3.passes[p + 1 := Pass([r], true, [])] ==
        w.passes[p := Pass(w.pending, false, [])][p + 1 := Pass([r], true, [])];
    ExecuteFour(w, a);
    assert a[4..] == [];
  }

  /** Both submissions under way succeed. */
  lemma BothSucceed(w: World, p: nat, q: nat)
    requires p != q && p in w.passes && q in w.passes
    requires w.passes[p].submitting && |w.passes[p].queue| > 0 && w.passes[q].submitting && |w.passes[q].queue| > 0
    ensures Execute(w, [Finish(p, true), Finish(q, true)]).log
         == w.log + [w.passes[p].queue[0].seqNo, w.passes[q].queue[0].seqNo]
  {
    var a := [Finish(p, true), Finish(q, true)];
    var w1 := Step(w, a[0]);
    assert a[1..] == [a[1]] && a[1..][1..] == [];
    assert Execute(w1, a[1..]) == Step(w1, a[1]);
  }

  /** Append the records, let reconcile `p` take them, and let reconcile `p + 1` start on `r`. */
  function TakeAll(records: seq<Record>, p: nat, r: Record, tail: seq<Action>): seq<Action> {
    Appending(records) + (TakeAndStart(p, r) + tail)
  }

  /** The world between `TakeAll` and its tail. */
  function Taken(w: World, records: seq<Record>, p: nat, r: Record): World {
    w.(mirror := w.mirror + records + [r], pending := [],
       passes := w.passes[p := Pass(w.pending + records, false, [])][p + 1 := Pass([r], true, [])])
  }

  lemma ExecuteTakeAll(w: World, records: seq<Record>, p: nat, r: Record, tail: seq<Action>)
    requires p !in w.passes && p + 1 !in w.passes && r.seqNo !in w.stored
    ensures Execute(w, TakeAll(records, p, r, tail)) == Execute(Taken(w, records, p, r), tail)
  {
    ExecuteBoth(w, Appending(records), TakeAndStart(p, r) + tail);
    ExecuteAppends(w, records);
    ExecuteBoth(Queued(w, records), TakeAndStart(p, r), tail);
    TakingAndStarting(Queued(w, records), p, r);
  }

  lemma AppendsTakeAll(records: seq<Record>, p: nat, r: Record, tail: seq<Action>)
    ensures Appends(TakeAll(records, p, r, tail)) == records + [r] + Appends(tail)
  {
    AppendsBoth(Appending(records), TakeAndStart(p, r) + tail);
    AppendsAppending(records);
    AppendsBoth(TakeAndStart(p, r), tail);
    AppendsTaking(p, r);
  }

  lemma AppendsTaking(p: nat, r: Record)
    ensures Appends(TakeAndStart(p, r)) == [r]
  {
    AppendsBoth([Begin(p), Append(r, true)], [Begin(p + 1), Visit(p + 1)]);
    assert TakeAndStart(p, r) == [Begin(p), Append(r, true)] + [Begin(p + 1), Visit(p + 1)];
    AppendsNothing([Begin(p + 1), Visit(p + 1)]);
    AppendsBoth([Begin(p)], [Append(r, true)]);
    assert [Begin(p), Append(r, true)] == [Begin(p)] + [Append(r, true)];
    AppendsNothing([Begin(p)]);
    assert [Append(r, true)][1..] == [];
  }

  /** Both submissions succeed, then the rest is appended. */
  function Ending(rest: seq<Record>): seq<Action> {
    [Finish(1, true), Finish(3, true)] + Appending(rest)
  }

  lemma AppendsEnding(rest: seq<Record>)
    ensures Appends(Ending(rest)) == rest
  {
    AppendsBoth([Finish(1, true), Finish(3, true)], Appending(rest));
    AppendsNothing([Finish(1, true), Finish(3, true)]);
    AppendsAppending(rest);
  }

  /** A run whose reconciles take everything up to each of the two records before the next record comes. */
  function Doubling(records: seq<Record>, i: nat, j: nat): seq<Action>
    requires i < j < |records|
  {
    TakeAll(records[..i], 0, records[i], TakeAll(records[i + 1..j], 2, records[j], Ending(records[j + 1..])))
  }

  lemma DoublingAppends(records: seq<Record>, i: nat, j: nat)
    requires i < j < |records|
    ensures Appends(Doubling(records, i, j)) == records
  {
    var ending := Ending(records[j + 1..]);
    AppendsEnding(records[j + 1..]);
    AppendsTakeAll(records[i + 1..j], 2, records[j], ending);
    AppendsTakeAll(records[..i], 0, records[i], TakeAll(records[i + 1..j], 2, records[j], ending));
    assert records[i + 1..j] + [records[j]] + records[j + 1..] == records[i + 1..];
    assert records[..i] + [records[i]] + records[i + 1..] == records;
  }

  lemma DoublingStoresTwice(records: seq<Record>, i: nat, j: nat)
    requires i < j < |records| && records[i].seqNo == records[j].seqNo
    ensures Execute(START, Doubling(records, i, j)).log == [records[i].seqNo, records[j].seqNo]
  {
    var ending := Ending(records[j + 1..]);
    var w1 := Taken(START, records[..i], 0, records[i]);
    var w2 := Taken(w1, records[i + 1..j], 2, records[j]);
    ExecuteTakeAll(START, records[..i], 0, records[i], TakeAll(records[i + 1..j], 2, records[j], ending));
    ExecuteTakeAll(w1, records[i + 1..j], 2, records[j], ending);
    EndingStores(w2, records[j + 1..]);
  }

  lemma EndingStores(w: World, rest: seq<Record>)
    requires 1 in w.passes && w.passes[1].submitting && |w.passes[1].queue| > 0
    requires 3 in w.passes && w.passes[3].submitting && |w.passes[3].queue| > 0
    ensures Execute(w, Ending(rest)).log == w.log + [w.passes[1].queue[0].seqNo, w.passes[3].queue[0].seqNo]
  {
    var finishes := [Finish(1, true), Finish(3, true)];
    ExecuteBoth(w, finishes, Appending(rest));
    BothSucceed(w, 1, 3);
    ExecuteAppends(Execute(w, finishes), rest);
  }

  // ---------------------------------------------------------------------------------------------
  // Exactly when
  // ---------------------------------------------------------------------------------------------

  /** Some interleaving that appends exactly these records, with reconciles overlapping only if `overlap`,
      stores a number twice. */
  ghost predicate CanStoreTwice(records: seq<Record>, overlap: bool) {
    exists actions ::
      && Appends(actions) == records
      && (overlap || OneAtATime(START, actions))
      && !NoDuplicates(Execute(START, actions).log)
  }

  lemma WithoutRepeatOrOverlap(records: seq<Record>, overlap: bool, actions: seq<Action>)
    requires Appends(actions) == records && (overlap || OneAtATime(START, actions))
    requires !overlap || Unrepeated(records)
    ensures NoDuplicates(Execute(START, actions).log)
  {
    if overlap {
      FreshIsStoredOnce(START, {}, actions);
    } else {
      NothingIsStoredTwice(START, actions);
    }
  }

  lemma WithRepeatAndOverlap(records: seq<Record>)
    requires !Unrepeated(records)
    ensures CanStoreTwice(records, true)
  {
    var i, j :| 0 <= i < j < |records| && records[i].seqNo == records[j].seqNo;
    var actions := Doubling(records, i, j);
    DoublingAppends(records, i, j);
    DoublingStoresTwice(records, i, j);
    var log := Execute(START, actions).log;
    assert log[0] == log[1];
    assert !NoDuplicates(Execute(START, actions).log);
  }

  /** From a first boot: a number can be stored twice if and only if reconciles may overlap and a number is
      appended twice. */
  lemma StoredTwiceExactly(records: seq<Record>, overlap: bool)
    ensures CanStoreTwice(records, overlap) <==> overlap && !Unrepeated(records)
  {
    if overlap && !Unrepeated(records) {
      WithRepeatAndOverlap(records);
    } else {
      forall actions | Appends(actions) == records && (overlap || OneAtATime(START, actions))
        ensures NoDuplicates(Execute(START, actions).log)
      {
        WithoutRepeatOrOverlap(records, overlap, actions);
      }
    }
  }
}
