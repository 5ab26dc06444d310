/** The exposition text: what a label value and a series look like, and under which header a sample stands. */
module MetricsLaws {
  import opened Wrappers
  import opened Metrics

  /** Backslash, double quote and newline are written with a backslash before them, the newline as `n`; every
      other character stands for itself, and a value is written character by character. */
  lemma EscapedExactly(c: char, value: string, more: string)
    ensures EscapeLabelValue("\\") == "\\\\" && EscapeLabelValue("\"") == "\\\"" && EscapeLabelValue("\n") == "\\n"
    ensures c !in "\\\"\n" ==> EscapeLabelValue([c]) == [c]
    ensures EscapeLabelValue("") == ""
    ensures EscapeLabelValue(value + more) == EscapeLabelValue(value) + EscapeLabelValue(more)
  {
    EscapeOfOne('\\');
    EscapeOfOne('"');
    EscapeOfOne('\n');
    EscapeOfOne(c);
    EscapeAppends(value, more);
    assert c == '\\' ==> c == "\\\"\n"[0];
    assert c == '"' ==> c == "\\\"\n"[1];
    assert c == '\n' ==> c == "\\\"\n"[2];
  }

  /** A reader of one label, with the key known: its value, and what follows it. */
  function ReadLabel(text: string, key: string): Option<(string, string)> {
    var head := key + "=\"";
    if head <= text then ReadQuoted(text[|head|..]) else None
  }

  /** A reader of the labels of a series: the keys in order, commas between, a brace at the end. */
  function ReadLabels(text: string, keys: seq<string>): Option<seq<string>>
    decreases |keys|
  {
    if |keys| == 0 then None
    else
      match ReadLabel(text, keys[0])
      case None => None
      case Some((value, rest)) =>
        if |keys| == 1 then (if rest == "}" then Some([value]) else None)
        else if "," <= rest then
          match ReadLabels(rest[1..], keys[1..])
          case None => None
          case Some(values) => Some([value] + values)
        else None
  }

  lemma LabelReadsBack(key: string, value: string, rest: string)
    ensures ReadLabel(Part(key, value) + rest, key) == Some((value, rest))
  {
    var head := key + "=\"";
    var text := Part(key, value) + rest;
    var quoted := EscapeLabelValue(value) + "\"" + rest;
    assert text == head + quoted;
    assert text[|head|..] == quoted;
    QuotedReadsBack(value, rest);
  }

  lemma {:induction false} LabelsReadBack(keys: seq<string>, values: seq<string>)
    requires |keys| == |values| > 0
    ensures ReadLabels(Joined(keys, values) + "}", keys) == Some(values)
    decreases |keys|
  {
    assert values == [values[0]] + values[1..];
    if |keys| == 1 {
      LabelReadsBack(keys[0], values[0], "}");
      assert values == [values[0]];
    } else {
      var others := Joined(keys[1..], values[1..]) + "}";
      LabelsReadBack(keys[1..], values[1..]);
      LabelReadsBack(keys[0], values[0], "," + others);
      JoinedThen(keys, values);
      assert ("," + others)[1..] == others;
    }
  }

  lemma JoinedThen(keys: seq<string>, values: seq<string>)
    requires |keys| == |values| > 1
    ensures Joined(keys, values) + "}" == Part(keys[0], values[0]) + ("," + (Joined(keys[1..], values[1..]) + "}"))
  {
  }

  /** The labels of a metric by its keys, a missing one as empty. */
  predicate AreLabels(values: seq<string>, keys: seq<string>, labels: Labels) {
    && |values| == |keys|
    && forall i :: 0 <= i < |keys| ==> values[i] == if keys[i] in labels then labels[keys[i]] else ""
  }

  /** A series' text is its metric's name and, in braces, its labels, which read back in the metric's order. */
  lemma SeriesReadsBack(name: string, keys: seq<string>, labels: Labels) returns (values: seq<string>)
    ensures |keys| == 0 ==> SeriesKey(name, keys, labels) == name
    ensures |keys| > 0 ==> exists text :: SeriesKey(name, keys, labels) == name + "{" + text &&
                                         ReadLabels(text, keys) == Some(values) && AreLabels(values, keys, labels)
  {
    values := Values(keys, labels);
    if |keys| > 0 {
      LabelsReadBack(keys, values);
      BraceJoins(name, Joined(keys, values));
    }
  }

  lemma BraceJoins(name: string, joined: string)
    ensures name + "{" + joined + "}" == name + "{" + (joined + "}")
  {
  }

  /** Only declared counters count. */
  lemma {:induction false} DeclaredExactly(defs: seq<CounterDef>, name: string)
    ensures DefOf(defs, name).None? <==> forall i :: 0 <= i < |defs| ==> defs[i].name != name
  {
    if |defs| > 0 {
      DeclaredExactly(defs[1..], name);
      assert forall i :: 1 <= i < |defs| ==> defs[i] == defs[1..][i - 1];
    }
  }

  // ---------------------------------------------------------------------------------------------
  // Headers
  // ---------------------------------------------------------------------------------------------

  /** The headers among the lines, in order. */
  function Headers(lines: seq<Line>): seq<Line> {
    if |lines| == 0 then []
    else
      var last := lines[|lines| - 1];
      Headers(lines[..|lines| - 1]) + (if last.Sample? then [] else [last])
  }

  function DeclaredHeaders(defs: seq<CounterDef>): seq<Line> {
    if |defs| == 0 then []
    else
      var last := defs[|defs| - 1];
      DeclaredHeaders(defs[..|defs| - 1]) + [Help(last.name, last.help), Type(last.name)]
  }

  lemma {:induction false} HeadersAppend(a: seq<Line>, b: seq<Line>)
    ensures Headers(a + b) == Headers(a) + Headers(b)
  {
    if |b| == 0 {
      assert a + b == a;
    } else {
      HeadersAppend(a, b[..|b| - 1]);
      assert (a + b)[..|a + b| - 1] == a + b[..|b| - 1];
    }
  }

  lemma {:induction false} SamplesHaveNoHeaders(lines: seq<Line>)
    requires forall l :: l in lines ==> l.Sample?
    ensures Headers(lines) == []
  {
    if |lines| > 0 {
      SamplesHaveNoHeaders(lines[..|lines| - 1]);
      assert lines[|lines| - 1] in lines;
    }
  }

  /** The sample at `q` stands under the type header of the metric it belongs to, with only samples between. */
  ghost predicate StandsUnder(lines: seq<Line>, q: nat)
    requires q < |lines| && lines[q].Sample?
  {
    exists p :: 0 <= p < q && lines[p].Type? && IsOf(lines[q].key, lines[p].name) &&
        forall m :: p < m < q ==> lines[m].Sample?
  }

  predicate IsOf(key: string, name: string) {
    key == name || name + "{" <= key
  }

  lemma {:induction false} SamplesBelong(name: string, order: seq<string>, counters: map<string, nat>)
    requires forall k :: k in order ==> k in counters
    ensures forall l :: l in SamplesOf(name, order, counters) ==> l.Sample? && IsOf(l.key, name)
  {
    if |order| > 0 {
      SamplesBelong(name, order[..|order| - 1], counters);
    }
  }

  /** The scrape has every declared metric's help and type header once, in the order of the declarations, samples
      or not; and every sample stands under its own metric's. */
  lemma {:induction false} HeadersExactly(defs: seq<CounterDef>, order: seq<string>, counters: map<string, nat>)
    requires forall k :: k in order ==> k in counters
    ensures Headers(Rendered(defs, order, counters)) == DeclaredHeaders(defs)
    ensures var lines := Rendered(defs, order, counters);
            forall q :: 0 <= q < |lines| && lines[q].Sample? ==> StandsUnder(lines, q)
  {
    if |defs| > 0 {
      var init, def := defs[..|defs| - 1], defs[|defs| - 1];
      var before := Rendered(init, order, counters);
      var samples := SamplesOf(def.name, order, counters);
      HeadersExactly(init, order, counters);
      SamplesBelong(def.name, order, counters);
      SectionHasHeaders(before, def, samples);
      SectionStands(before, def, samples);
    }
  }

  lemma SectionHasHeaders(before: seq<Line>, def: CounterDef, samples: seq<Line>)
    requires forall l :: l in samples ==> l.Sample?
    ensures var headers := [Help(def.name, def.help), Type(def.name)];
            Headers(before + (headers + samples)) == Headers(before) + headers
  {
    var help, typed: Line := Help(def.name, def.help), Type(def.name);
    SamplesHaveNoHeaders(samples);
    HeadersAppend(before, [help, typed] + samples);
    HeadersAppend([help, typed], samples);
    HeadersAppend([help], [typed]);
    assert [help, typed] == [help] + [typed];
    assert [help][..0] == [] && [typed][..0] == [];
  }

  lemma SectionStands(before: seq<Line>, def: CounterDef, samples: seq<Line>)
    requires forall q :: 0 <= q < |before| && before[q].Sample? ==> StandsUnder(before, q)
    requires forall l :: l in samples ==> l.Sample? && IsOf(l.key, def.name)
    ensures var lines := before + ([Help(def.name, def.help), Type(def.name)] + samples);
            forall q :: 0 <= q < |lines| && lines[q].Sample? ==> StandsUnder(lines, q)
  {
    var lines := before + ([Help(def.name, def.help), Type(def.name)] + samples);
    forall q | 0 <= q < |lines| && lines[q].Sample?
      ensures StandsUnder(lines, q)
    {
      if q < |before| {
        assert StandsUnder(before, q);
        var p :| 0 <= p < q && before[p].Type? && IsOf(before[q].key, before[p].name) &&
            forall m :: p < m < q ==> before[m].Sample?;
        assert lines[p] == before[p];
      } else {
        var p := |before| + 1;
        assert lines[p] == Type(def.name);
        assert lines[q] in samples;
        assert forall m :: p < m < q ==> lines[m] == samples[m - p - 1];
      }
    }
  }
}
