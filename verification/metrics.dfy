/** The metrics registry: label escaping, series keys, counting and rendering. */
module Metrics {
  import opened Wrappers

  // ---------------------------------------------------------------------------------------------
  // Escaping
  // ---------------------------------------------------------------------------------------------

  function ReplaceAll(s: string, c: char, replacement: string): string {
    if |s| == 0 then "" else (if s[0] == c then replacement else [s[0]]) + ReplaceAll(s[1..], c, replacement)
  }

  /** Three replacements one after the other: backslash, quote, newline. */
  function EscapeLabelValue(value: string): string {
    ReplaceAll(ReplaceAll(ReplaceAll(value, '\\', "\\\\"), '"', "\\\""), '\n', "\\n")
  }

  function EscapeChar(c: char): string {
    if c == '\\' then "\\\\" else if c == '"' then "\\\"" else if c == '\n' then "\\n" else [c]
  }

  function EscapeEach(value: string): string {
    if |value| == 0 then "" else EscapeChar(value[0]) + EscapeEach(value[1..])
  }

  lemma {:induction false} ReplaceAllAppends(s: string, t: string, c: char, replacement: string)
    ensures ReplaceAll(s + t, c, replacement) == ReplaceAll(s, c, replacement) + ReplaceAll(t, c, replacement)
  {
    if |s| == 0 {
      assert s + t == t;
    } else {
      ReplaceAllAppends(s[1..], t, c, replacement);
      var first := if s[0] == c then replacement else [s[0]];
      var rest, more := ReplaceAll(s[1..], c, replacement), ReplaceAll(t, c, replacement);
      assert (s + t)[0] == s[0] && (s + t)[1..] == s[1..] + t;
      assert first + (rest + more) == first + rest + more;
    }
  }

  lemma ReplaceOne(x: char, c: char, replacement: string)
    ensures ReplaceAll([x], c, replacement) == if x == c then replacement else [x]
  {
    assert ReplaceAll([x][1..], c, replacement) == "";
  }

  lemma ReplaceTwo(x: char, y: char, c: char, replacement: string)
    ensures ReplaceAll([x, y], c, replacement) ==
              (if x == c then replacement else [x]) + (if y == c then replacement else [y])
  {
    assert [x, y] == [x] + [y];
    ReplaceAllAppends([x], [y], c, replacement);
    ReplaceOne(x, c, replacement);
    ReplaceOne(y, c, replacement);
  }

  lemma EscapeOfOne(x: char)
    ensures EscapeLabelValue([x]) == EscapeChar(x)
  {
    ReplaceOne(x, '\\', "\\\\");
    if x == '\\' {
      ReplaceTwo('\\', '\\', '"', "\\\"");
      ReplaceTwo('\\', '\\', '\n', "\\n");
    } else {
      ReplaceOne(x, '"', "\\\"");
      if x == '"' {
        ReplaceTwo('\\', '"', '\n', "\\n");
      } else {
        ReplaceOne(x, '\n', "\\n");
      }
    }
  }

  lemma EscapeAppends(s: string, t: string)
    ensures EscapeLabelValue(s + t) == EscapeLabelValue(s) + EscapeLabelValue(t)
  {
    ReplaceAllAppends(s, t, '\\', "\\\\");
    var s1, t1 := ReplaceAll(s, '\\', "\\\\"), ReplaceAll(t, '\\', "\\\\");
    ReplaceAllAppends(s1, t1, '"', "\\\"");
    ReplaceAllAppends(ReplaceAll(s1, '"', "\\\""), ReplaceAll(t1, '"', "\\\""), '\n', "\\n");
  }

  /** The three passes do not disturb each other: together they are one map on characters. */
  lemma {:induction false} EscapeIsPerCharacter(value: string)
    ensures EscapeLabelValue(value) == EscapeEach(value)
  {
    if |value| > 0 {
      assert value == [value[0]] + value[1..];
      EscapeAppends([value[0]], value[1..]);
      EscapeOfOne(value[0]);
      EscapeIsPerCharacter(value[1..]);
    }
  }

  function UnescapeChar(c: char): char {
    if c == 'n' then '\n' else c
  }

  function Prepend(c: char, read: Option<(string, string)>): Option<(string, string)> {
    match read
    case None => None
    case Some((value, rest)) => Some(([c] + value, rest))
  }

  /** A reader of the text format: the label value up to the first bare quote, and what follows it. */
  function ReadQuoted(text: string): (r: Option<(string, string)>)
    decreases |text|
  {
    if |text| == 0 then None
    else if text[0] == '"' then Some(("", text[1..]))
    else if text[0] != '\\' then Prepend(text[0], ReadQuoted(text[1..]))
    else if |text| == 1 then None
    else Prepend(UnescapeChar(text[1]), ReadQuoted(text[2..]))
  }

  /** What was escaped reads back, whatever follows. */
  lemma {:induction false} QuotedReadsBack(value: string, rest: string)
    ensures ReadQuoted(EscapeLabelValue(value) + "\"" + rest) == Some((value, rest))
  {
    EscapeIsPerCharacter(value);
    var text := EscapeEach(value) + "\"" + rest;
    if |value| == 0 {
      assert text[0] == '"' && text[1..] == rest;
    } else {
      QuotedReadsBack(value[1..], rest);
      EscapeIsPerCharacter(value[1..]);
      var first, tail := EscapeChar(value[0]), EscapeEach(value[1..]) + "\"" + rest;
      assert text == first + tail;
      assert text[0] == first[0] && text[|first|..] == tail;
      assert |first| == 2 ==> text[1] == first[1];
      assert value == [value[0]] + value[1..];
    }
  }

  /** Escaping is injective. */
  lemma EscapeIsInjective(v: string, v': string)
    requires EscapeLabelValue(v) == EscapeLabelValue(v')
    ensures v == v'
  {
    QuotedReadsBack(v, "");
    QuotedReadsBack(v', "");
  }

  // ---------------------------------------------------------------------------------------------
  // Series keys
  // ---------------------------------------------------------------------------------------------

  type Labels = map<string, string>

  /** A missing label counts as the empty string. */
  function LabelValue(labels: Labels, key: string): string {
    if key in labels then labels[key] else ""
  }

  function Values(keys: seq<string>, labels: Labels): (r: seq<string>)
    ensures |r| == |keys| && forall i :: 0 <= i < |r| ==> r[i] == LabelValue(labels, keys[i])
  {
    seq(|keys|, i requires 0 <= i < |keys| => LabelValue(labels, keys[i]))
  }

  function Part(key: string, value: string): string {
    key + "=\"" + EscapeLabelValue(value) + "\""
  }

  function Joined(keys: seq<string>, values: seq<string>): string
    requires |keys| == |values|
  {
    if |keys| == 0 then ""
    else if |keys| == 1 then Part(keys[0], values[0])
    else Part(keys[0], values[0]) + "," + Joined(keys[1..], values[1..])
  }

  function SeriesKey(name: string, keys: seq<string>, labels: Labels): string {
    if |keys| == 0 then name else name + "{" + Joined(keys, Values(keys, labels)) + "}"
  }

  function Tail(keys: seq<string>, values: seq<string>): string
    requires |keys| == |values| > 0
  {
    if |keys| == 1 then "" else "," + Joined(keys[1..], values[1..])
  }

  lemma JoinedSplits(keys: seq<string>, values: seq<string>)
    requires |keys| == |values| > 0
    ensures Joined(keys, values) == (keys[0] + "=\"") + (EscapeLabelValue(values[0]) + "\"" + Tail(keys, values))
  {
  }

  lemma {:induction false} JoinedIsInjective(keys: seq<string>, values: seq<string>, values': seq<string>)
    requires |keys| == |values| == |values'| && Joined(keys, values) == Joined(keys, values')
    ensures values == values'
    decreases |keys|
  {
    if |keys| > 0 {
      var tail, tail' := Tail(keys, values), Tail(keys, values');
      var head := keys[0] + "=\"";
      JoinedSplits(keys, values);
      JoinedSplits(keys, values');
      AfterHead(head, EscapeLabelValue(values[0]) + "\"" + tail, EscapeLabelValue(values'[0]) + "\"" + tail');
      QuotedReadsBack(values[0], tail);
      QuotedReadsBack(values'[0], tail');
      if |keys| > 1 {
        AfterHead(",", Joined(keys[1..], values[1..]), Joined(keys[1..], values'[1..]));
        JoinedIsInjective(keys[1..], values[1..], values'[1..]);
      }
      assert values == [values[0]] + values[1..] && values' == [values'[0]] + values'[1..];
    }
  }

  lemma AfterHead(head: string, s: string, t: string)
    requires head + s == head + t
    ensures s == t
  {
    assert s == (head + s)[|head|..] && t == (head + t)[|head|..];
  }

  predicate NoBrace(name: string) {
    '{' !in name
  }

  /** A series belongs to a metric when its key is the name or starts with the name and a brace. */
  predicate Belongs(key: string, name: string) {
    key == name || name + "{" <= key
  }

  function UpToBrace(key: string): string {
    if |key| == 0 || key[0] == '{' then "" else [key[0]] + UpToBrace(key[1..])
  }

  lemma {:induction false} NameOfKey(name: string, rest: string)
    requires NoBrace(name) && (|rest| == 0 || rest[0] == '{')
    ensures UpToBrace(name + rest) == name
  {
    if |name| == 0 {
      assert name + rest == rest;
    } else {
      NameOfKey(name[1..], rest);
      assert (name + rest)[0] == name[0] && (name + rest)[1..] == name[1..] + rest;
    }
  }

  lemma BelongsByName(key: string, name: string)
    requires NoBrace(name) && Belongs(key, name)
    ensures UpToBrace(key) == name
  {
    assert key == name + key[|name|..];
    NameOfKey(name, key[|name|..]);
  }

  /** A key belongs to no metric but its own. */
  lemma BelongsToOne(name: string, keys: seq<string>, labels: Labels, other: string)
    requires NoBrace(name) && NoBrace(other)
    ensures Belongs(SeriesKey(name, keys, labels), other) <==> name == other
  {
    var key := SeriesKey(name, keys, labels);
    if |keys| > 0 {
      assert key == name + "{" + (Joined(keys, Values(keys, labels)) + "}");
    }
    BelongsByName(key, name);
    if Belongs(key, other) {
      BelongsByName(key, other);
    }
  }

  /** Series never merge: two label sets of one metric share a key only if they agree on every label of
      the metric, and keys of different metrics differ. */
  lemma SeriesNeverMerge(name: string, keys: seq<string>, labels: Labels, name': string, keys': seq<string>,
                         labels': Labels)
    requires NoBrace(name) && NoBrace(name') && (name == name' ==> keys == keys')
    ensures SeriesKey(name, keys, labels) == SeriesKey(name', keys', labels')
            <==> name == name' && Values(keys, labels) == Values(keys', labels')
  {
    if SeriesKey(name, keys, labels) == SeriesKey(name', keys', labels') {
      BelongsToOne(name, keys, labels, name');
      BelongsToOne(name', keys', labels', name');
      if |keys| > 0 {
        var head := name + "{";
        assert SeriesKey(name, keys, labels) == head + (Joined(keys, Values(keys, labels)) + "}");
        assert SeriesKey(name, keys, labels') == head + (Joined(keys, Values(keys, labels')) + "}");
        AfterHead(head, Joined(keys, Values(keys, labels)) + "}", Joined(keys, Values(keys, labels')) + "}");
        BeforeTail(Joined(keys, Values(keys, labels)), Joined(keys, Values(keys, labels')), "}");
        JoinedIsInjective(keys, Values(keys, labels), Values(keys, labels'));
      }
    }
  }

  lemma BeforeTail(s: string, t: string, tail: string)
    requires s + tail == t + tail
    ensures s == t
  {
    assert |s| == |t|;
    assert s == (s + tail)[..|s|] && t == (t + tail)[..|t|];
  }

  // ---------------------------------------------------------------------------------------------
  // The registry
  // ---------------------------------------------------------------------------------------------

  datatype CounterDef = CounterDef(name: string, help: string, labelKeys: seq<string>)

  const TOOL_CALLS_NAME := "mcp_tool_calls_total"
  const AUTH_FAILURES_NAME := "mcp_auth_failures_total"
  const RATE_LIMITED_NAME := "mcp_rate_limited_total"
  const REPLAY_REJECTED_NAME := "mcp_replay_rejected_total"
  const DISCLOSURE_REJECTED_NAME := "mcp_disclosure_rejected_total"
  const INTENT_HANDOFF_NAME := "mcp_intent_handoff_total"

  /** The closed set of counters; no law depends on the help texts. */
  function Counters(help: string -> string): seq<CounterDef> {
    [CounterDef(TOOL_CALLS_NAME, help(TOOL_CALLS_NAME), ["tool", "outcome"]),
     CounterDef(AUTH_FAILURES_NAME, help(AUTH_FAILURES_NAME), ["tool", "reason"]),
     CounterDef(RATE_LIMITED_NAME, help(RATE_LIMITED_NAME), ["tool"]),
     CounterDef(REPLAY_REJECTED_NAME, help(REPLAY_REJECTED_NAME), ["tool"]),
     CounterDef(DISCLOSURE_REJECTED_NAME, help(DISCLOSURE_REJECTED_NAME), ["tool"]),
     CounterDef(INTENT_HANDOFF_NAME, help(INTENT_HANDOFF_NAME), ["outcome"])]
  }

  /** Metric names are distinct and brace-free, as the closed set of names is. */
  ghost predicate WellNamed(defs: seq<CounterDef>) {
    && (forall i :: 0 <= i < |defs| ==> NoBrace(defs[i].name))
    && (forall i, j :: 0 <= i < j < |defs| ==> defs[i].name != defs[j].name)
  }

  function DefOf(defs: seq<CounterDef>, name: string): (r: Option<CounterDef>)
    ensures r.Some? ==> r.value in defs && r.value.name == name
  {
    if |defs| == 0 then None else if defs[0].name == name then Some(defs[0]) else DefOf(defs[1..], name)
  }

  datatype Increase = Increase(name: string, labels: Labels)

  /** Two increments count for the same series. */
  predicate SameSeries(defs: seq<CounterDef>, a: Increase, b: Increase) {
    && a.name == b.name && DefOf(defs, a.name).Some?
    && Values(DefOf(defs, a.name).value.labelKeys, a.labels) == Values(DefOf(defs, a.name).value.labelKeys, b.labels)
  }

  function KeyOf(defs: seq<CounterDef>, a: Increase): Option<string> {
    match DefOf(defs, a.name)
    case None => None
    case Some(def) => Some(SeriesKey(a.name, def.labelKeys, a.labels))
  }

  function Occurrences(defs: seq<CounterDef>, log: seq<Increase>, a: Increase): nat {
    if |log| == 0 then 0
    else Occurrences(defs, log[..|log| - 1], a) + if SameSeries(defs, log[|log| - 1], a) then 1 else 0
  }

  datatype Line = Help(name: string, help: string) | Type(name: string) | Sample(key: string, value: nat)

  /** One metric's samples among the series in the order they first appeared. */
  function SamplesOf(name: string, order: seq<string>, counters: map<string, nat>): seq<Line>
    requires forall k :: k in order ==> k in counters
  {
    if |order| == 0 then []
    else
      var last := order[|order| - 1];
      SamplesOf(name, order[..|order| - 1], counters)
      + (if Belongs(last, name) then [Sample(last, counters[last])] else [])
  }

  function Rendered(defs: seq<CounterDef>, order: seq<string>, counters: map<string, nat>): seq<Line>
    requires forall k :: k in order ==> k in counters
  {
    if |defs| == 0 then []
    else
      var def := defs[|defs| - 1];
      Rendered(defs[..|defs| - 1], order, counters)
      + ([Help(def.name, def.help), Type(def.name)] + SamplesOf(def.name, order, counters))
  }

  ghost predicate Unique(order: seq<string>) {
    forall i, j :: 0 <= i < j < |order| ==> order[i] != order[j]
  }

  /** Every logged increase has its series, and every series a logged increase. */
  ghost predicate Logged(defs: seq<CounterDef>, counters: map<string, nat>, log: seq<Increase>) {
    && (forall i :: 0 <= i < |log| ==> HasSeries(defs, counters, log[i]))
    && (forall k :: k in counters ==> InLog(defs, log, k))
  }

  predicate HasSeries(defs: seq<CounterDef>, counters: map<string, nat>, a: Increase) {
    KeyOf(defs, a).Some? && KeyOf(defs, a).value in counters
  }

  ghost predicate InLog(defs: seq<CounterDef>, log: seq<Increase>, key: string) {
    exists i :: 0 <= i < |log| && KeyOf(defs, log[i]) == Some(key)
  }

  /** Every series stands at the number of its increases. */
  ghost predicate Tallied(defs: seq<CounterDef>, counters: map<string, nat>, log: seq<Increase>) {
    forall a :: HasSeries(defs, counters, a) ==> counters[KeyOf(defs, a).value] == Occurrences(defs, log, a)
  }

  ghost predicate Lists(order: seq<string>, counters: map<string, nat>) {
    (forall k :: k in order <==> k in counters) && Unique(order)
  }

  /** The counters, the order in which they first appeared, and every accepted increase. */
  datatype Registry = Registry(order: seq<string>, counters: map<string, nat>, log: seq<Increase>)

  ghost predicate Consistent(defs: seq<CounterDef>, r: Registry) {
    Lists(r.order, r.counters) && Logged(defs, r.counters, r.log) && Tallied(defs, r.counters, r.log)
  }

  function AfterBump(r: Registry, key: string, now: Increase): Registry {
    Registry(if key in r.counters then r.order else r.order + [key], Bumped(r.counters, key), r.log + [now])
  }

  function Bumped(counters: map<string, nat>, key: string): map<string, nat> {
    counters[key := (if key in counters then counters[key] else 0) + 1]
  }

  class MetricsRegistry {
    const defs: seq<CounterDef>
    var counters: map<string, nat>
    var order: seq<string>           // the counters in insertion order
    ghost var log: seq<Increase>     // every accepted increase

    ghost predicate Valid()
      reads this
    {
      WellNamed(defs) && Consistent(defs, State())
    }

    ghost function State(): Registry
      reads this
    {
      Registry(order, counters, log)
    }

    constructor (defs: seq<CounterDef>)
      requires WellNamed(defs)
      ensures Valid() && this.defs == defs && log == []
    {
      this.defs := defs;
      counters, order, log := map[], [], [];
    }

    /** Fails on an unknown name; otherwise exactly one series goes up by one. */
    method Increment(name: string, labels: Labels) returns (known: bool)
      requires Valid()
      modifies this
      ensures Valid()
      ensures known == DefOf(defs, name).Some?
      ensures log == if known then old(log) + [Increase(name, labels)] else old(log)
      ensures !known ==> counters == old(counters) && order == old(order)
      ensures known ==> counters == Bumped(old(counters), KeyOf(defs, Increase(name, labels)).value)
    {
      var def := DefOf(defs, name);
      if def.None? {
        return false;
      }
      var key := SeriesKey(name, def.value.labelKeys, labels);
      BumpKeepsConsistent(defs, State(), Increase(name, labels));
      Bump(key, Increase(name, labels));
      known := true;
    }

    method Bump(key: string, ghost now: Increase)
      modifies this
      ensures State() == AfterBump(old(State()), key, now)
    {
      if key !in counters {
        order := order + [key];
        counters := counters[key := 1];
      } else {
        counters := counters[key := counters[key] + 1];
      }
      log := log + [now];
    }

    method CollectSamples(name: string) returns (samples: seq<Line>)
      requires Lists(order, counters)
      ensures samples == SamplesOf(name, order, counters)
    {
      samples := [];
      for j := 0 to |order|
        invariant samples == SamplesOf(name, order[..j], counters)
      {
        assert order[..j + 1][..j] == order[..j];
        if order[j] == name || name + "{" <= order[j] {
          samples := samples + [Sample(order[j], counters[order[j]])];
        }
      }
      assert order[..|order|] == order;
    }

    method Render() returns (lines: seq<Line>)
      requires Lists(order, counters)
      ensures lines == Rendered(defs, order, counters)
    {
      lines := [];
      for i := 0 to |defs|
        invariant lines == Rendered(defs[..i], order, counters)
      {
        var samples := CollectSamples(defs[i].name);
        assert defs[..i + 1][..i] == defs[..i];
        lines := lines + ([Help(defs[i].name, defs[i].help), Type(defs[i].name)] + samples);
      }
      assert defs[..|defs|] == defs;
    }
  }

  /** Increments have the same key exactly when they are for the same series. */
  lemma KeysTellSeriesApart(defs: seq<CounterDef>, a: Increase, b: Increase)
    requires WellNamed(defs) && KeyOf(defs, a).Some? && KeyOf(defs, b).Some?
    ensures KeyOf(defs, a) == KeyOf(defs, b) <==> SameSeries(defs, a, b)
  {
    var da, db := DefOf(defs, a.name).value, DefOf(defs, b.name).value;
    SeriesNeverMerge(a.name, da.labelKeys, a.labels, b.name, db.labelKeys, b.labels);
  }

  lemma BumpKeepsConsistent(defs: seq<CounterDef>, r: Registry, now: Increase)
    requires WellNamed(defs) && KeyOf(defs, now).Some? && Consistent(defs, r)
    ensures Consistent(defs, AfterBump(r, KeyOf(defs, now).value, now))
  {
    BumpKeepsLists(r.order, r.counters, KeyOf(defs, now).value);
    BumpKeepsLogged(defs, r.counters, r.log, now);
    BumpKeepsTallied(defs, r.counters, r.log, now);
  }

  lemma BumpKeepsLists(order: seq<string>, counters: map<string, nat>, key: string)
    requires Lists(order, counters)
    ensures Lists(if key in counters then order else order + [key], Bumped(counters, key))
  {
  }

  lemma BumpKeepsLogged(defs: seq<CounterDef>, counters: map<string, nat>, log: seq<Increase>, now: Increase)
    requires KeyOf(defs, now).Some? && Logged(defs, counters, log)
    ensures Logged(defs, Bumped(counters, KeyOf(defs, now).value), log + [now])
  {
    var log' := log + [now];
    var counters' := Bumped(counters, KeyOf(defs, now).value);
    forall k | k in counters'
      ensures InLog(defs, log', k)
    {
      if k in counters {
        assert InLog(defs, log, k);
        var i :| 0 <= i < |log| && KeyOf(defs, log[i]) == Some(k);
        assert log'[i] == log[i];
      } else {
        assert log'[|log|] == now;
      }
    }
    forall i | 0 <= i < |log'|
      ensures HasSeries(defs, counters', log'[i])
    {
      assert i < |log| ==> HasSeries(defs, counters, log[i]);
    }
  }

  lemma BumpKeepsTallied(defs: seq<CounterDef>, counters: map<string, nat>, log: seq<Increase>, now: Increase)
    requires WellNamed(defs) && KeyOf(defs, now).Some?
    requires Logged(defs, counters, log) && Tallied(defs, counters, log)
    ensures Tallied(defs, Bumped(counters, KeyOf(defs, now).value), log + [now])
  {
    var counters' := Bumped(counters, KeyOf(defs, now).value);
    forall a | HasSeries(defs, counters', a)
      ensures counters'[KeyOf(defs, a).value] == Occurrences(defs, log + [now], a)
    {
      KeysTellSeriesApart(defs, now, a);
      assert (log + [now])[..|log|] == log;
      if !HasSeries(defs, counters, a) {
        NeverSeen(defs, counters, log, a);
      }
    }
  }

  lemma {:induction false} NeverSeen(defs: seq<CounterDef>, counters: map<string, nat>, log: seq<Increase>, a: Increase)
    requires WellNamed(defs) && KeyOf(defs, a).Some? && !HasSeries(defs, counters, a)
    requires forall i :: 0 <= i < |log| ==> HasSeries(defs, counters, log[i])
    ensures Occurrences(defs, log, a) == 0
  {
    if |log| > 0 {
      KeysTellSeriesApart(defs, log[|log| - 1], a);
      NeverSeen(defs, counters, log[..|log| - 1], a);
    }
  }

  // ---------------------------------------------------------------------------------------------
  // Rendering
  // ---------------------------------------------------------------------------------------------

  /** How often a series is printed. */
  function Printed(lines: seq<Line>, key: string): nat {
    if |lines| == 0 then 0
    else
      var last := lines[|lines| - 1];
      Printed(lines[..|lines| - 1], key) + if last.Sample? && last.key == key then 1 else 0
  }

  lemma {:induction false} PrintedAdds(a: seq<Line>, b: seq<Line>, key: string)
    ensures Printed(a + b, key) == Printed(a, key) + Printed(b, key)
  {
    if |b| == 0 {
      assert a + b == a;
    } else {
      PrintedAdds(a, b[..|b| - 1], key);
      assert (a + b)[..|a + b| - 1] == a + b[..|b| - 1];
    }
  }

  lemma SampleIsPrinted(line: Line, key: string)
    requires line.Sample?
    ensures Printed([line], key) == if line.key == key then 1 else 0
  {
    assert [line][..0] == [];
  }

  lemma {:induction false} SamplesPrint(name: string, order: seq<string>, counters: map<string, nat>, key: string)
    requires Unique(order) && forall k :: k in order ==> k in counters
    ensures Printed(SamplesOf(name, order, counters), key) == if key in order && Belongs(key, name) then 1 else 0
    ensures forall l :: l in SamplesOf(name, order, counters) ==>
              l.Sample? && l.key in order && l.value == counters[l.key]
  {
    if |order| > 0 {
      var init, last := order[..|order| - 1], order[|order| - 1];
      SamplesPrint(name, init, counters, key);
      assert order == init + [last];
      var line := Sample(last, counters[last]);
      PrintedAdds(SamplesOf(name, init, counters), [line], key);
      SampleIsPrinted(line, key);
      assert !Belongs(last, name) ==> SamplesOf(name, order, counters) == SamplesOf(name, init, counters);
      assert key in order <==> key in init || key == last;
      assert key == last ==> key !in init;
    }
  }

  /** How many metrics a key belongs to. */
  function Owners(defs: seq<CounterDef>, key: string): nat {
    if |defs| == 0 then 0 else Owners(defs[..|defs| - 1], key) + if Belongs(key, defs[|defs| - 1].name) then 1 else 0
  }

  lemma HeadersPrintNothing(def: CounterDef, key: string)
    ensures Printed([Help(def.name, def.help), Type(def.name)], key) == 0
  {
    var headers := [Help(def.name, def.help), Type(def.name)];
    PrintedAdds([Help(def.name, def.help)], [Type(def.name)], key);
    assert headers == [Help(def.name, def.help)] + [Type(def.name)];
  }

  lemma {:induction false} RenderedPrints(defs: seq<CounterDef>, order: seq<string>, counters: map<string, nat>,
                                          key: string)
    requires Unique(order) && forall k :: k in order ==> k in counters
    ensures Printed(Rendered(defs, order, counters), key) == if key in order then Owners(defs, key) else 0
    ensures forall l :: l in Rendered(defs, order, counters) && l.Sample? ==>
              l.key in order && l.value == counters[l.key]
  {
    if |defs| > 0 {
      var def := defs[|defs| - 1];
      var headers := [Help(def.name, def.help), Type(def.name)];
      var before := Rendered(defs[..|defs| - 1], order, counters);
      var samples := SamplesOf(def.name, order, counters);
      RenderedPrints(defs[..|defs| - 1], order, counters, key);
      SamplesPrint(def.name, order, counters, key);
      PrintedAdds(before, headers + samples, key);
      PrintedAdds(headers, samples, key);
      HeadersPrintNothing(def, key);
    }
  }

  lemma {:induction false} OwnedOnce(defs: seq<CounterDef>, name: string, keys: seq<string>, labels: Labels)
    requires WellNamed(defs) && NoBrace(name)
    ensures Owners(defs, SeriesKey(name, keys, labels))
         == if exists i :: 0 <= i < |defs| && defs[i].name == name then 1 else 0
  {
    if |defs| > 0 {
      var init, last := defs[..|defs| - 1], defs[|defs| - 1];
      OwnedOnce(init, name, keys, labels);
      BelongsToOne(name, keys, labels, last.name);
      assert forall i :: 0 <= i < |init| ==> init[i] == defs[i];
    }
  }

  /** Rendering prints each series exactly once, with its count, and prints nothing else as a series. */
  lemma EachSeriesIsPrintedOnce(r: MetricsRegistry, a: Increase)
    requires r.Valid() && KeyOf(r.defs, a).Some?
    ensures var key := KeyOf(r.defs, a).value;
            var lines := Rendered(r.defs, r.order, r.counters);
            && Printed(lines, key) == (if key in r.counters then 1 else 0)
            && (forall l :: l in lines && l.Sample? && l.key == key ==> l.value == Occurrences(r.defs, r.log, a))
  {
    var def := DefOf(r.defs, a.name).value;
    RenderedPrints(r.defs, r.order, r.counters, KeyOf(r.defs, a).value);
    var i :| 0 <= i < |r.defs| && r.defs[i] == def;
    OwnedOnce(r.defs, a.name, def.labelKeys, a.labels);
  }

  /** A name without a brace, of a length of its own. */
  ghost predicate Named(name: string, length: nat) {
    NoBrace(name) && |name| == length
  }

  lemma ToolCallsIsNamed()
    ensures Named(TOOL_CALLS_NAME, 20)
  {
  }

  lemma AuthFailuresIsNamed()
    ensures Named(AUTH_FAILURES_NAME, 23)
  {
  }

  lemma RateLimitedIsNamed()
    ensures Named(RATE_LIMITED_NAME, 22)
  {
  }

  lemma ReplayRejectedIsNamed()
    ensures Named(REPLAY_REJECTED_NAME, 25)
  {
  }

  lemma DisclosureRejectedIsNamed()
    ensures Named(DISCLOSURE_REJECTED_NAME, 29)
  {
  }

  lemma IntentHandoffIsNamed()
    ensures Named(INTENT_HANDOFF_NAME, 24)
  {
  }

  lemma DistinctByLength(defs: seq<CounterDef>, lengths: seq<nat>)
    requires |defs| == |lengths|
    requires forall i :: 0 <= i < |defs| ==> Named(defs[i].name, lengths[i])
    requires forall i, j :: 0 <= i < j < |lengths| ==> lengths[i] != lengths[j]
    ensures WellNamed(defs)
  {
    forall i, j | 0 <= i < j < |defs|
      ensures defs[i].name != defs[j].name
    {
      assert lengths[i] != lengths[j];
    }
  }

  lemma SixAreWellNamed(defs: seq<CounterDef>)
    requires |defs| == 6
    requires Named(defs[0].name, 20) && Named(defs[1].name, 23) && Named(defs[2].name, 22)
    requires Named(defs[3].name, 25) && Named(defs[4].name, 29) && Named(defs[5].name, 24)
    ensures WellNamed(defs)
  {
    DistinctByLength(defs, [20, 23, 22, 25, 29, 24]);
  }

  /** The registry's own names meet the assumption. */
  lemma CountersAreWellNamed(help: string -> string)
    ensures WellNamed(Counters(help))
  {
    ToolCallsIsNamed();
    AuthFailuresIsNamed();
    RateLimitedIsNamed();
    ReplayRejectedIsNamed();
    DisclosureRejectedIsNamed();
    IntentHandoffIsNamed();
    SixAreWellNamed(Counters(help));
  }
}
