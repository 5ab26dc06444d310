/** The local-first, submit-later queue that both external anchor sinks share: the time-stamp authority
    sink stores a token per anchor, the object-lock sink puts an object per anchor. Durable appends are
    whole lines. */
module SubmissionQueue {
  datatype Record = Record(seqNo: int, headHash: string)

  /** Records without a stored submission. */
  function Unstored(records: seq<Record>, stored: set<int>): seq<Record> {
    if |records| == 0 then []
    else (if records[0].seqNo in stored then [] else [records[0]]) + Unstored(records[1..], stored)
  }

  lemma {:induction false} UnstoredAre(records: seq<Record>, stored: set<int>)
    ensures forall r :: r in Unstored(records, stored) <==> r in records && r.seqNo !in stored
  {
    if |records| > 0 {
      UnstoredAre(records[1..], stored);
      assert forall r :: r in records <==> r == records[0] || r in records[1..];
    }
  }

  function SeqsOf(log: seq<int>): set<int> {
    set s | s in log
  }

  /** How one undisturbed pass over a queue ends: what was stored, in order, and what failed. `outcomes`
      says of each submission whether it worked. */
  datatype Drained = Drained(log: seq<int>, failed: seq<Record>)

  function Drain(queue: seq<Record>, stored: set<int>, outcomes: seq<bool>): Drained
    requires |outcomes| == |queue|
  {
    if |queue| == 0 then Drained([], [])
    else if queue[0].seqNo in stored then Drain(queue[1..], stored, outcomes[1..])
    else if outcomes[0] then
      var rest := Drain(queue[1..], stored + {queue[0].seqNo}, outcomes[1..]);
      Drained([queue[0].seqNo] + rest.log, rest.failed)
    else
      var rest := Drain(queue[1..], stored, outcomes[1..]);
      Drained(rest.log, [queue[0]] + rest.failed)
  }

  class DeferredSink {
    var mirror: seq<Record>   // the durable local file of anchor records
    var log: seq<int>         // the durable file of stored submissions
    var stored: set<int>
    var pending: seq<Record>

    /** Memory agrees with the submissions file. */
    ghost predicate Valid()
      reads this
    {
      stored == SeqsOf(log)
    }

    constructor (mirror: seq<Record>, log: seq<int>)
      ensures Valid() && this.mirror == mirror && this.log == log && pending == []
    {
      this.mirror, this.log := mirror, log;
      stored := {};
      pending := [];
      new;
      for i := 0 to |log|
        invariant stored == SeqsOf(log[..i]) && this.mirror == mirror && this.log == log && pending == []
      {
        stored := stored + {log[i]};
        assert log[..i + 1] == log[..i] + [log[i]];
      }
      assert log[..|log|] == log;
    }

    /** The record is queued even when the local write fails; that failure is reported elsewhere. */
    method Append(r: Record, written: bool)
      modifies this
      ensures mirror == (if written then old(mirror) + [r] else old(mirror))
      ensures pending == old(pending) + [r] && stored == old(stored) && log == old(log)
    {
      if written {
        mirror := mirror + [r];
      }
      pending := pending + [r];
    }

    method ReadAll() returns (records: seq<Record>)
      modifies this
      ensures records == mirror == old(mirror) && pending == Unstored(mirror, stored)
      ensures stored == old(stored) && log == old(log)
    {
      records := mirror;
      pending := Unstored(records, stored);
    }

    /** One pass with nothing else happening: every queued record is stored or queued again, in order. */
    method Reconcile(outcomes: seq<bool>)
      requires Valid() && |outcomes| == |pending|
      modifies this
      ensures Valid() && mirror == old(mirror)
      ensures var d := Drain(old(pending), old(stored), outcomes);
              pending == d.failed && log == old(log) + d.log
    {
      var queue := pending;
      pending := [];
      var failed: seq<Record> := [];
      ghost var was, before := stored, log;
      ghost var whole := Drain(queue, stored, outcomes);
      for i := 0 to |queue|
        invariant stored == SeqsOf(log) && mirror == old(mirror) && pending == []
        invariant var rest := Drain(queue[i..], stored, outcomes[i..]);
                  before + whole.log == log + rest.log && whole.failed == failed + rest.failed
      {
        var record := queue[i];
        assert queue[i..][1..] == queue[i + 1..] && outcomes[i..][1..] == outcomes[i + 1..];
        if record.seqNo !in stored {
          if outcomes[i] {
            log := log + [record.seqNo];
            stored := stored + {record.seqNo};
          } else {
            failed := failed + [record];
          }
        }
      }
      pending := failed + pending;
    }
  }

  // ---------------------------------------------------------------------------------------------
  // Every interleaving
  // ---------------------------------------------------------------------------------------------

  /** A reconcile in progress: records still to visit, whether the first of them is being submitted, and
      the failures so far. */
  datatype Pass = Pass(queue: seq<Record>, submitting: bool, failed: seq<Record>)

  datatype World = World(
    mirror: seq<Record>, log: seq<int>, stored: set<int>, pending: seq<Record>, passes: map<nat, Pass>)

  const START := World([], [], {}, [], map[])

  datatype Action =
    | Append(record: Record, written: bool)
    | Begin(pass: nat)
    | Visit(pass: nat)
    | Finish(pass: nat, ok: bool)
    | End(pass: nat)
    | Restart

  /** `Visit` looks at the next record: skip it if stored, else start submitting; `Finish` is the
      outcome of that submission; `End` puts failures back in front of what was appended meanwhile. */
  predicate Enabled(w: World, a: Action) {
    match a
    case Append(_, _) => true
    case Begin(p) => p !in w.passes
    case Visit(p) => p in w.passes && !w.passes[p].submitting && |w.passes[p].queue| > 0
    case Finish(p, _) => p in w.passes && w.passes[p].submitting && |w.passes[p].queue| > 0
    case End(p) => p in w.passes && |w.passes[p].queue| == 0
    case Restart => true
  }

  function Step(w: World, a: Action): World {
    if !Enabled(w, a) then w
    else
      match a
      case Append(r, written) => w.(mirror := if written then w.mirror + [r] else w.mirror, pending := w.pending + [r])
      case Begin(p) => w.(pending := [], passes := w.passes[p := Pass(w.pending, false, [])])
      case Visit(p) =>
        var pass := w.passes[p];
        if pass.queue[0].seqNo in w.stored then w.(passes := w.passes[p := pass.(queue := pass.queue[1..])])
        else w.(passes := w.passes[p := pass.(submitting := true)])
      case Finish(p, ok) =>
        var pass := w.passes[p];
        var r := pass.queue[0];
        if ok then World(w.mirror, w.log + [r.seqNo], w.stored + {r.seqNo}, w.pending,
                         w.passes[p := Pass(pass.queue[1..], false, pass.failed)])
        else w.(passes := w.passes[p := Pass(pass.queue[1..], false, pass.failed + [r])])
      case End(p) => w.(pending := w.passes[p].failed + w.pending, passes := w.passes - {p})
      case Restart => World(w.mirror, w.log, SeqsOf(w.log), Unstored(w.mirror, SeqsOf(w.log)), map[])
  }

  function Execute(w: World, actions: seq<Action>): World
    decreases |actions|
  {
    if |actions| == 0 then w else Execute(Step(w, actions[0]), actions[1..])
  }

  predicate InFlight(w: World, r: Record) {
    exists p :: p in w.passes && (r in w.passes[p].queue || r in w.passes[p].failed)
  }

  /** The obligation to submit a record is still on file somewhere. */
  ghost predicate Accounted(w: World, r: Record) {
    r.seqNo in w.stored || r in w.pending || InFlight(w, r)
  }

  ghost predicate Sound(w: World) {
    w.stored == SeqsOf(w.log) && forall r :: r in w.mirror ==> Accounted(w, r)
  }

  lemma StepKeepsAccounted(w: World, a: Action, r: Record)
    requires w.stored == SeqsOf(w.log) && Accounted(w, r) && (a.Restart? ==> r in w.mirror)
    ensures Accounted(Step(w, a), r)
  {
    var after := Step(w, a);
    if Enabled(w, a) {
      match a
      case Restart => UnstoredAre(w.mirror, SeqsOf(w.log));
      case Append(_, _) =>
        if InFlight(w, r) {
          assert after.passes == w.passes;
        }
      case Begin(p) =>
        assert after.passes[p].queue == w.pending;
        PassesKeep(w, after, p, r);
      case Visit(p) =>
        VisitKeepsAccounted(w, p, r);
      case Finish(p, ok) =>
        FinishKeepsAccounted(w, p, ok, r);
      case End(p) =>
        PassesKeep(w, after, p, r);
    }
  }

  lemma VisitKeepsAccounted(w: World, p: nat, r: Record)
    requires Accounted(w, r) && Enabled(w, Visit(p))
    ensures Accounted(Step(w, Visit(p)), r)
  {
    var after := Step(w, Visit(p));
    var queue := w.passes[p].queue;
    assert queue == [queue[0]] + queue[1..];
    PassesKeep(w, after, p, r);
    assert r in queue ==> r.seqNo in w.stored || r in after.passes[p].queue;
    assert r in w.passes[p].failed ==> r in after.passes[p].failed;
  }

  lemma FinishKeepsAccounted(w: World, p: nat, ok: bool, r: Record)
    requires Accounted(w, r) && Enabled(w, Finish(p, ok))
    ensures Accounted(Step(w, Finish(p, ok)), r)
  {
    var after := Step(w, Finish(p, ok));
    var queue := w.passes[p].queue;
    assert queue == [queue[0]] + queue[1..];
    PassesKeep(w, after, p, r);
    assert r in queue ==> r.seqNo in after.stored || r in after.passes[p].queue || r in after.passes[p].failed;
    assert r in w.passes[p].failed ==> r in after.passes[p].failed;
  }

  /** A record in flight in another pass stays there. */
  lemma PassesKeep(w: World, after: World, p: nat, r: Record)
    requires forall x :: x in w.passes && x != p ==> x in after.passes && after.passes[x] == w.passes[x]
    ensures InFlight(w, r) ==>
              InFlight(after, r) || (p in w.passes && (r in w.passes[p].queue || r in w.passes[p].failed))
  {
  }

  lemma StepKeepsSound(w: World, a: Action)
    requires Sound(w)
    ensures Sound(Step(w, a))
  {
    var after := Step(w, a);
    forall r | r in after.mirror
      ensures Accounted(after, r)
    {
      if r in w.mirror {
        StepKeepsAccounted(w, a, r);
      }
    }
  }

  /** No submission is lost: over every interleaving of appends, any number of overlapping reconciles,
      successes, failures and restarts, each mirrored record's number is stored, or the record is
      pending or in flight; and after a restart it is stored or pending. */
  lemma {:induction false} NoSubmissionIsLost(w: World, actions: seq<Action>)
    requires Sound(w)
    ensures Sound(Execute(w, actions))
    ensures forall r :: r in Execute(w, actions + [Restart]).mirror ==>
              var after := Execute(w, actions + [Restart]);
              r.seqNo in after.stored || r in after.pending
    decreases |actions|
  {
    if |actions| == 0 {
      UnstoredAre(w.mirror, SeqsOf(w.log));
      assert Execute(w, [Restart]) == Step(w, Restart) by {
        assert [Restart][1..] == [];
      }
    } else {
      StepKeepsSound(w, actions[0]);
      NoSubmissionIsLost(Step(w, actions[0]), actions[1..]);
      assert (actions + [Restart])[1..] == actions[1..] + [Restart];
    }
  }

  // ---------------------------------------------------------------------------------------------
  // Nothing is stored twice without overlap
  // ---------------------------------------------------------------------------------------------

  /** No reconcile begins while another is in progress. */
  predicate OneAtATime(w: World, actions: seq<Action>)
    decreases |actions|
  {
    |actions| == 0 || ((actions[0].Begin? ==> |w.passes| == 0) && OneAtATime(Step(w, actions[0]), actions[1..]))
  }

  ghost predicate NoDuplicates(log: seq<int>) {
    forall i, j :: 0 <= i < j < |log| ==> log[i] != log[j]
  }

  ghost predicate Single(w: World) {
    && w.stored == SeqsOf(w.log)
    && NoDuplicates(w.log)
    && (forall p, q :: p in w.passes && q in w.passes ==> p == q)
    && (forall p :: p in w.passes && w.passes[p].submitting ==>
         |w.passes[p].queue| > 0 && w.passes[p].queue[0].seqNo !in w.stored)
  }

  lemma StepKeepsSingle(w: World, a: Action)
    requires Single(w) && (a.Begin? ==> |w.passes| == 0)
    ensures Single(Step(w, a))
  {
  }

  lemma {:induction false} NothingIsStoredTwice(w: World, actions: seq<Action>)
    requires Single(w) && OneAtATime(w, actions)
    ensures NoDuplicates(Execute(w, actions).log)
    decreases |actions|
  {
    if |actions| > 0 {
      StepKeepsSingle(w, actions[0]);
      NothingIsStoredTwice(Step(w, actions[0]), actions[1..]);
    }
  }

  /** Four steps at once. */
  lemma ExecuteFour(w: World, a: seq<Action>)
    requires |a| >= 4
    ensures Execute(w, a) == Execute(Step(Step(Step(Step(w, a[0]), a[1]), a[2]), a[3]), a[4..])
  {
    assert a[1..][1..] == a[2..] && a[2..][1..] == a[3..] && a[3..][1..] == a[4..];
    var w1 := Step(w, a[0]);
    var w2 := Step(w1, a[1]);
    var w3 := Step(w2, a[2]);
    assert Execute(w1, a[1..]) == Execute(w2, a[2..]);
    assert Execute(w2, a[2..]) == Execute(w3, a[3..]);
  }

  /** With overlap it does happen: a head anchored twice under one number, the second time while the
      first submission is under way, is stored twice. */
  lemma OverlapStoresTwice(r: Record)
    ensures var actions := [Append(r, true), Begin(0), Visit(0), Append(r, true), Begin(1), Visit(1), Finish(0, true),
                            Finish(1, true)];
            Execute(START, actions).log == [r.seqNo, r.seqNo]
  {
    var w1 := World([r], [], {}, [r], map[]);
    var w2 := World([r], [], {}, [], map[0 := Pass([r], false, [])]);
    var w3 := World([r], [], {}, [], map[0 := Pass([r], true, [])]);
    var w4 := World([r, r], [], {}, [r], map[0 := Pass([r], true, [])]);
    assert Step(START, Append(r, true)) == w1 && Step(w1, Begin(0)) == w2 && Step(w2, Visit(0)) == w3;
    assert Step(w3, Append(r, true)) == w4;
    var actions := [Append(r, true), Begin(0), Visit(0), Append(r, true), Begin(1), Visit(1), Finish(0, true),
                    Finish(1, true)];
    ExecuteFour(START, actions);
    SecondPassStoresAgain(r, w4);
    assert actions[4..] == [Begin(1), Visit(1), Finish(0, true), Finish(1, true)];
  }

  lemma SecondPassStoresAgain(r: Record, w4: World)
    requires w4 == World([r, r], [], {}, [r], map[0 := Pass([r], true, [])])
    ensures Execute(w4, [Begin(1), Visit(1), Finish(0, true), Finish(1, true)]).log == [r.seqNo, r.seqNo]
  {
    var w5 := World([r, r], [], {}, [], map[0 := Pass([r], true, []), 1 := Pass([r], false, [])]);
    var w6 := World([r, r], [], {}, [], map[0 := Pass([r], true, []), 1 := Pass([r], true, [])]);
    var w7 := World([r, r], [r.seqNo], {r.seqNo}, [], map[0 := Pass([], false, []), 1 := Pass([r], true, [])]);
    assert [r][1..] == [];
    assert Step(w4, Begin(1)) == w5 && Step(w5, Visit(1)) == w6 && Step(w6, Finish(0, true)) == w7;
    ExecuteFour(w4, [Begin(1), Visit(1), Finish(0, true), Finish(1, true)]);
    assert Step(w7, Finish(1, true)).log == [r.seqNo] + [r.seqNo];
  }

  // ---------------------------------------------------------------------------------------------
  // The sequential pass is a run
  // ---------------------------------------------------------------------------------------------

  /** The actions of one undisturbed pass over `queue`. */
  function PassActions(p: nat, queue: seq<Record>, stored: set<int>, outcomes: seq<bool>): seq<Action>
    requires |outcomes| == |queue|
  {
    if |queue| == 0 then [End(p)]
    else if queue[0].seqNo in stored then [Visit(p)] + PassActions(p, queue[1..], stored, outcomes[1..])
    else if outcomes[0] then
      [Visit(p), Finish(p, true)] + PassActions(p, queue[1..], stored + {queue[0].seqNo}, outcomes[1..])
    else [Visit(p), Finish(p, false)] + PassActions(p, queue[1..], stored, outcomes[1..])
  }

  /** What `Reconcile` computes in one go is what the interleaving model reaches when nothing else
      happens. */
  lemma {:induction false} DrainIsARun(w: World, p: nat, outcomes: seq<bool>)
    requires p in w.passes && !w.passes[p].submitting && |outcomes| == |w.passes[p].queue|
    ensures var pass := w.passes[p];
            var d := Drain(pass.queue, w.stored, outcomes);
            var after := Execute(w, PassActions(p, pass.queue, w.stored, outcomes));
            after.log == w.log + d.log && after.pending == pass.failed + d.failed + w.pending &&
                after.mirror == w.mirror
    decreases |outcomes|
  {
    var pass := w.passes[p];
    var actions := PassActions(p, pass.queue, w.stored, outcomes);
    if |pass.queue| == 0 {
      assert actions[1..] == [];
      assert Execute(w, actions) == Step(w, End(p));
    } else if pass.queue[0].seqNo in w.stored {
      var w1 := Step(w, Visit(p));
      assert actions[1..] == PassActions(p, pass.queue[1..], w.stored, outcomes[1..]);
      DrainIsARun(w1, p, outcomes[1..]);
    } else {
      var w1 := Step(w, Visit(p));
      var w2 := Step(w1, Finish(p, outcomes[0]));
      assert actions[1..][1..] == PassActions(p, pass.queue[1..], w2.stored, outcomes[1..]);
      assert Execute(w, actions) == Execute(w1, actions[1..]) == Execute(w2, actions[1..][1..]);
      DrainIsARun(w2, p, outcomes[1..]);
    }
  }

  // ---------------------------------------------------------------------------------------------
  // What is on file was acknowledged
  // ---------------------------------------------------------------------------------------------

  /** The numbers that the external store acknowledged, in order. */
  function Acknowledged(w: World, actions: seq<Action>): seq<int>
    decreases |actions|
  {
    if |actions| == 0 then []
    else
      var a := actions[0];
      (if a.Finish? && a.ok && Enabled(w, a) then [w.passes[a.pass].queue[0].seqNo] else [])
      + Acknowledged(Step(w, a), actions[1..])
  }

  /** Over every interleaving the submissions file grows by exactly what was acknowledged, in that order. */
  lemma {:induction false} FileIsAcknowledged(w: World, actions: seq<Action>)
    ensures Execute(w, actions).log == w.log + Acknowledged(w, actions)
    decreases |actions|
  {
    if |actions| > 0 {
      var a := actions[0];
      var first := if a.Finish? && a.ok && Enabled(w, a) then [w.passes[a.pass].queue[0].seqNo] else [];
      FileIsAcknowledged(Step(w, a), actions[1..]);
      assert Step(w, a).log == w.log + first;
      assert w.log + first + Acknowledged(Step(w, a), actions[1..]) ==
          w.log + (first + Acknowledged(Step(w, a), actions[1..]));
    }
  }

  /** Some record of the queue with this number was submitted with success. */
  ghost predicate Succeeds(queue: seq<Record>, outcomes: seq<bool>, seqNo: int)
    requires |outcomes| == |queue|
  {
    exists i :: 0 <= i < |queue| && queue[i].seqNo == seqNo && outcomes[i]
  }

  /** One undisturbed pass: a number is newly stored exactly if it was not stored and a submission of it
      succeeded, and only once; what is queued again was not stored and its submission failed; and every
      record is stored or queued again. */
  lemma {:induction false} DrainExactly(queue: seq<Record>, stored: set<int>, outcomes: seq<bool>)
    requires |outcomes| == |queue|
    ensures var d := Drain(queue, stored, outcomes);
            && (forall s :: s in d.log <==> s !in stored && Succeeds(queue, outcomes, s))
            && NoDuplicates(d.log)
            && (forall r :: r in d.failed ==>
                  r.seqNo !in stored && exists i :: 0 <= i < |queue| && queue[i] == r && !outcomes[i])
            && (forall i :: 0 <= i < |queue| ==>
                  queue[i].seqNo in stored || queue[i].seqNo in d.log || queue[i] in d.failed)
  {
    if |queue| > 0 {
      var done := queue[0].seqNo !in stored && outcomes[0];
      var rest, others := queue[1..], outcomes[1..];
      var next := if done then stored + {queue[0].seqNo} else stored;
      DrainExactly(rest, next, others);
      assert forall i :: 1 <= i < |queue| ==> queue[i] == rest[i - 1] && outcomes[i] == others[i - 1];
      forall s
        ensures Succeeds(queue, outcomes, s) <==> (queue[0].seqNo == s && outcomes[0]) || Succeeds(rest, others, s)
      {
        if Succeeds(rest, others, s) {
          var i :| 0 <= i < |rest| && rest[i].seqNo == s && others[i];
          assert queue[i + 1].seqNo == s;
        }
      }
      DrainUnfolds(queue, stored, outcomes);
      var d, e := Drain(queue, stored, outcomes), Drain(rest, next, others);
      forall r | r in d.failed
        ensures r.seqNo !in stored && exists i :: 0 <= i < |queue| && queue[i] == r && !outcomes[i]
      {
        if r in e.failed {
          var i :| 0 <= i < |rest| && rest[i] == r && !others[i];
          assert queue[i + 1] == r;
        }
      }
    }
  }

  lemma DrainUnfolds(queue: seq<Record>, stored: set<int>, outcomes: seq<bool>)
    requires |outcomes| == |queue| > 0
    ensures var isNew := queue[0].seqNo !in stored;
            var next := if isNew && outcomes[0] then stored + {queue[0].seqNo} else stored;
            var d, e := Drain(queue, stored, outcomes), Drain(queue[1..], next, outcomes[1..]);
            && d.log == (if isNew && outcomes[0] then [queue[0].seqNo] else []) + e.log
            && d.failed == (if isNew && !outcomes[0] then [queue[0]] else []) + e.failed
  {
  }
}
