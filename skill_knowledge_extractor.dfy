/**
 * The logic of the skill/knowledge extractor that is not model inference:
 * relabelling the records a token-classification pipeline returns, merging
 * runs of adjacent spans into multi-word entities, and projecting the merged
 * spans onto their words.  The pipelines themselves are external; what they
 * return is a parameter of every operation here.
 */
module SkillKnowledgeExtractor {
  import opened Wrappers
  import opened Strings

  /**
   * One record of the pipeline's output.  `entity` and `entityGroup` stand for
   * the dictionary keys "entity" and "entity_group", which may be absent.
   * Offsets are Python integers (unbounded); the score is carried, never used.
   */
  datatype Span = Span(
    start: int,
    end: int,
    word: string,
    score: real,
    entity: Option<string>,
    entityGroup: Option<string>)

  const SKILL_LABEL: string := "Skill"
  const KNOWLEDGE_LABEL: string := "Knowledge"

  /** The argument of an extraction call: a Python `str`, or any other value. */
  datatype TextArg = Str(value: string) | NotStr

  /** The result of `extract_all`: the words of the merged skill and knowledge spans. */
  datatype Extraction = Extraction(skills: seq<string>, knowledge: seq<string>)

  // ---------------------------------------------------------------------------
  // Relabelling

  /**
   * One record after the relabelling step: a group tag becomes the fixed label,
   * the group key goes, and offsets, word and score stay.
   */
  function Relabelled(item: Span, tag: string): (r: Span)
    ensures r.entityGroup.None?
    ensures r.start == item.start && r.end == item.end && r.word == item.word && r.score == item.score
    ensures item.entityGroup.Some? ==> r.entity == Some(tag)
    ensures item.entityGroup.None? ==> r == item
  {
    if item.entityGroup.Some? then item.(entity := Some(tag), entityGroup := None)
    else item
  }

  /** The relabelling pass over the whole pipeline output, as a value. */
  function RelabelAll(output: seq<Span>, tag: string): (items: seq<Span>)
    ensures |items| == |output|
    ensures forall i :: 0 <= i < |output| && output[i].entityGroup.Some? ==>
      items[i] == output[i].(entity := Some(tag), entityGroup := None)
    ensures forall i :: 0 <= i < |output| && output[i].entityGroup.None? ==>
      items[i] == output[i]
    ensures forall i :: 0 <= i < |items| ==> items[i].entityGroup.None?
    decreases |output|
  {
    if output == [] then [] else [Relabelled(output[0], tag)] + RelabelAll(output[1..], tag)
  }

  /** The relabelling loop of `extract_skills` / `extract_knowledge`, one record at a time. */
  method Relabel(output: seq<Span>, tag: string) returns (items: seq<Span>)
    ensures items == RelabelAll(output, tag)
  {
    items := output;
    for i := 0 to |items|
      invariant |items| == |output|
      invariant forall j :: 0 <= j < i ==> items[j] == Relabelled(output[j], tag)
      invariant forall j :: i <= j < |items| ==> items[j] == output[j]
    {
      if items[i].entityGroup.Some? {
        items := items[i := items[i].(entity := Some(tag), entityGroup := None)];
      }
    }
  }

  /** Once relabelled, no record carries a group tag, so a second pass changes nothing. */
  lemma {:induction false} RelabelIdempotent(output: seq<Span>, tag: string, tag2: string)
    ensures RelabelAll(RelabelAll(output, tag), tag2) == RelabelAll(output, tag)
  {
    var once := RelabelAll(output, tag);
    var twice := RelabelAll(once, tag2);
    assert |twice| == |once|;
    forall i | 0 <= i < |once| ensures twice[i] == once[i] {
      assert once[i].entityGroup.None?;
    }
  }

  // ---------------------------------------------------------------------------
  // Span aggregation

  /**
   * The merge test: the next span starts one offset after the current one
   * ends, so it neither overlaps the current span nor leaves a wider gap.
   */
  predicate Adjacent(current: Span, next: Span): (b: bool)
    ensures b <==> current.end < next.start && next.start <= current.end + 1
  {
    next.start == current.end + 1
  }

  /**
   * Merging `next` into `current`: the two words space-joined, `end` taken from
   * `next`, everything else from `current`. The merged span is adjacent to
   * exactly the spans `next` was adjacent to.
   */
  function Merge(current: Span, next: Span): (r: Span)
    ensures r.word == Join([current.word, next.word])
    ensures r.start == current.start && r.end == next.end
    ensures r.entity == current.entity && r.entityGroup == current.entityGroup && r.score == current.score
    ensures forall after :: Adjacent(r, after) <==> Adjacent(next, after)
  {
    current.(word := current.word + " " + next.word, end := next.end)
  }

  /** The `end` of the last span consumed: `rest`'s last, or `current` when `rest` is empty. */
  function LastEnd(current: Span, rest: seq<Span>): int {
    if rest == [] then current.end else rest[|rest| - 1].end
  }

  /**
   * The aggregation loop from the point where `current` is accumulating and
   * `rest` is still to be scanned: the spans it still emits, in order.
   */
  function AggregateFrom(current: Span, rest: seq<Span>): (r: seq<Span>)
    ensures 1 <= |r| <= 1 + |rest|
    decreases |rest|
  {
    if rest == [] then [current]
    else if Adjacent(current, rest[0]) then AggregateFrom(Merge(current, rest[0]), rest[1..])
    else [current] + AggregateFrom(rest[0], rest[1..])
  }

  /** What `_aggregate_span` returns for `results`. */
  function Aggregate(results: seq<Span>): (r: seq<Span>)
    ensures r == [] <==> results == []
    ensures |r| <= |results|
  {
    if results == [] then [] else AggregateFrom(results[0], results[1..])
  }

  /** One step of the scan from `current` when `r` is the next span. */
  lemma AggregateFromCons(current: Span, r: Span, rest: seq<Span>)
    ensures Adjacent(current, r) ==>
      AggregateFrom(current, [r] + rest) == AggregateFrom(Merge(current, r), rest)
    ensures !Adjacent(current, r) ==>
      AggregateFrom(current, [r] + rest) == [current] + AggregateFrom(r, rest)
  {
    assert ([r] + rest)[0] == r;
    assert ([r] + rest)[1..] == rest;
  }

  /** `_aggregate_span`: one left-to-right scan with a single accumulating span. */
  method AggregateSpan(results: seq<Span>) returns (aggregated: seq<Span>)
    ensures aggregated == Aggregate(results)
  {
    if |results| == 0 {
      return [];
    }
    aggregated := [];
    var current := results[0];
    for k := 1 to |results|
      invariant aggregated + AggregateFrom(current, results[k..]) == Aggregate(results)
    {
      var result := results[k];
      assert results[k..] == [result] + results[k + 1..];
      AggregateFromCons(current, result, results[k + 1..]);
      if Adjacent(current, result) {
        current := Merge(current, result);
      } else {
        aggregated := aggregated + [current];
        current := result;
      }
    }
    aggregated := aggregated + [current];
  }

  /** The number of consecutive pairs of `rs` that are not adjacent. */
  function Breaks(rs: seq<Span>): (b: nat)
    ensures rs != [] ==> b <= |rs| - 1
    decreases |rs|
  {
    if |rs| < 2 then 0
    else (if Adjacent(rs[0], rs[1]) then 0 else 1) + Breaks(rs[1..])
  }

  /** Breaks only look at the first span's `end`. */
  lemma BreaksHead(a: Span, b: Span, rest: seq<Span>)
    requires a.end == b.end
    ensures Breaks([a] + rest) == Breaks([b] + rest)
  {
    if rest != [] {
      assert ([a] + rest)[1..] == rest;
      assert ([b] + rest)[1..] == rest;
    }
  }

  lemma {:induction false} AggregateFromLength(current: Span, rest: seq<Span>)
    ensures |AggregateFrom(current, rest)| == 1 + Breaks([current] + rest)
    decreases |rest|
  {
    if rest != [] {
      var r := rest[0];
      assert ([current] + rest)[1..] == rest;
      assert [r] + rest[1..] == rest;
      if Adjacent(current, r) {
        AggregateFromLength(Merge(current, r), rest[1..]);
        BreaksHead(Merge(current, r), r, rest[1..]);
      } else {
        AggregateFromLength(r, rest[1..]);
      }
    }
  }

  /**
   * The output has one span per run: one plus the number of consecutive input
   * pairs whose second `start` is not the first `end` plus one.
   */
  lemma AggregateLength(results: seq<Span>)
    requires results != []
    ensures |Aggregate(results)| == 1 + Breaks(results)
    ensures 1 <= |Aggregate(results)| <= |results|
  {
    assert [results[0]] + results[1..] == results;
    AggregateFromLength(results[0], results[1..]);
  }

  /** No consecutive pair of `rs` is adjacent. */
  predicate NoAdjacentPairs(rs: seq<Span>) {
    forall i :: 1 <= i < |rs| ==> !Adjacent(rs[i - 1], rs[i])
  }

  /** One step of the scan, seen on whole sequences: merge the first two or emit the first. */
  lemma AggregateStep(results: seq<Span>)
    requires |results| >= 2
    ensures Adjacent(results[0], results[1]) ==>
      Aggregate(results) == Aggregate([Merge(results[0], results[1])] + results[2..])
    ensures !Adjacent(results[0], results[1]) ==>
      Aggregate(results) == [results[0]] + Aggregate(results[1..])
  {
    assert results[1..][0] == results[1];
    assert results[1..][1..] == results[2..];
    assert ([Merge(results[0], results[1])] + results[2..])[1..] == results[2..];
  }

  /** With no adjacent pair, aggregation returns its input unchanged. */
  lemma {:induction false} AggregateIdentity(results: seq<Span>)
    requires NoAdjacentPairs(results)
    ensures Aggregate(results) == results
    decreases |results|
  {
    if |results| >= 2 {
      var tail := results[1..];
      forall i | 1 <= i < |tail| ensures !Adjacent(tail[i - 1], tail[i]) {
        assert tail[i - 1] == results[i] && tail[i] == results[i + 1];
      }
      AggregateIdentity(tail);
      AggregateStep(results);
      assert [results[0]] + tail == results;
    }
  }

  /** Every consecutive pair of `rs` is adjacent: `rs` is one run. */
  predicate AllAdjacent(rs: seq<Span>) {
    forall i :: 1 <= i < |rs| ==> Adjacent(rs[i - 1], rs[i])
  }

  /** The words of the spans, in order (the projection of `extract_all`). */
  function Words(spans: seq<Span>): (ws: seq<string>)
    ensures |ws| == |spans|
    ensures forall i :: 0 <= i < |spans| ==> ws[i] == spans[i].word
    decreases |spans|
  {
    if spans == [] then [] else [spans[0].word] + Words(spans[1..])
  }

  /** Merging the first two spans of a run leaves a run. */
  lemma AllAdjacentMergeHead(results: seq<Span>)
    requires |results| >= 2 && AllAdjacent(results)
    ensures AllAdjacent([Merge(results[0], results[1])] + results[2..])
  {
    var merged := [Merge(results[0], results[1])] + results[2..];
    forall i | 1 <= i < |merged| ensures Adjacent(merged[i - 1], merged[i]) {
      assert merged[i] == results[i + 1];
      assert i > 1 ==> merged[i - 1] == results[i];
    }
  }

  /** Merging the first two spans fuses their words and keeps the other words. */
  lemma WordsMergeHead(results: seq<Span>)
    requires |results| >= 2
    ensures Join(Words([Merge(results[0], results[1])] + results[2..])) == Join(Words(results))
  {
    var r0, r1, tail := results[0], results[1], results[2..];
    calc {
      Join(Words([Merge(r0, r1)] + tail));
      { assert Words([Merge(r0, r1)] + tail) == [r0.word + " " + r1.word] + Words(tail); }
      Join([r0.word + " " + r1.word] + Words(tail));
      { JoinFuseHead(r0.word, r1.word, Words(tail)); }
      Join([r0.word, r1.word] + Words(tail));
      { assert Words(results) == [r0.word] + Words(results[1..]);
        assert Words(results[1..]) == [r1.word] + Words(tail); }
      Join(Words(results));
    }
  }

  /**
   * A run of adjacent spans becomes one span: the first span with the words of
   * all of them joined by single spaces and the last span's `end`.
   */
  lemma {:induction false} AggregateRun(results: seq<Span>)
    requires results != [] && AllAdjacent(results)
    ensures Aggregate(results)
      == [results[0].(word := Join(Words(results)), end := results[|results| - 1].end)]
    decreases |results|
  {
    if |results| >= 2 {
      var merged := [Merge(results[0], results[1])] + results[2..];
      AllAdjacentMergeHead(results);
      AggregateRun(merged);
      AggregateStep(results);
      WordsMergeHead(results);
      assert merged[|merged| - 1].end == results[|results| - 1].end;
    } else {
      assert Words(results) == [results[0].word];
    }
  }

  lemma {:induction false} AggregateFromSplit(current: Span, rest: seq<Span>, ys: seq<Span>)
    requires ys != [] && ys[0].start != LastEnd(current, rest) + 1
    ensures AggregateFrom(current, rest + ys) == AggregateFrom(current, rest) + AggregateFrom(ys[0], ys[1..])
    decreases |rest|
  {
    var after := AggregateFrom(ys[0], ys[1..]);
    if rest == [] {
      assert rest + ys == [ys[0]] + ys[1..];
      AggregateFromCons(current, ys[0], ys[1..]);
    } else {
      var r, tail := rest[0], rest[1..];
      if Adjacent(current, r) {
        var merged := Merge(current, r);
        calc {
          AggregateFrom(current, rest + ys);
          == { assert rest + ys == [r] + (tail + ys); AggregateFromCons(current, r, tail + ys); }
          AggregateFrom(merged, tail + ys);
          == { assert LastEnd(merged, tail) == LastEnd(current, rest); AggregateFromSplit(merged, tail, ys); }
          AggregateFrom(merged, tail) + after;
          == { assert rest == [r] + tail; AggregateFromCons(current, r, tail); }
          AggregateFrom(current, rest) + after;
        }
      } else {
        calc {
          AggregateFrom(current, rest + ys);
          == { assert rest + ys == [r] + (tail + ys); AggregateFromCons(current, r, tail + ys); }
          [current] + AggregateFrom(r, tail + ys);
          == { assert LastEnd(r, tail) == LastEnd(current, rest); AggregateFromSplit(r, tail, ys); }
          [current] + (AggregateFrom(r, tail) + after);
          == { assert rest == [r] + tail; AggregateFromCons(current, r, tail); }
          AggregateFrom(current, rest) + after;
        }
      }
    }
  }

  /**
   * Aggregation splits at every break: when the last span of `xs` and the first
   * of `ys` are not adjacent, the two halves are aggregated independently.
   * Together with AggregateRun this fixes the output: one merged span per
   * maximal run, in order.
   */
  lemma AggregateSplit(xs: seq<Span>, ys: seq<Span>)
    requires xs != [] && ys != []
    requires !Adjacent(xs[|xs| - 1], ys[0])
    ensures Aggregate(xs + ys) == Aggregate(xs) + Aggregate(ys)
  {
    assert (xs + ys)[0] == xs[0];
    assert (xs + ys)[1..] == xs[1..] + ys;
    AggregateFromSplit(xs[0], xs[1..], ys);
  }

  lemma {:induction false} AggregateFromEnds(current: Span, rest: seq<Span>)
    ensures AggregateFrom(current, rest)[0].start == current.start
    ensures AggregateFrom(current, rest)[|AggregateFrom(current, rest)| - 1].end == LastEnd(current, rest)
    decreases |rest|
  {
    if rest != [] {
      var r, tail := rest[0], rest[1..];
      assert rest == [r] + tail;
      AggregateFromCons(current, r, tail);
      if Adjacent(current, r) {
        AggregateFromEnds(Merge(current, r), tail);
        assert LastEnd(Merge(current, r), tail) == LastEnd(current, rest);
      } else {
        AggregateFromEnds(r, tail);
        assert LastEnd(r, tail) == LastEnd(current, rest);
      }
    }
  }

  /**
   * The first output span starts where the first input span starts, and the
   * last output span ends where the last input span ends.
   */
  lemma AggregateEnds(results: seq<Span>)
    requires results != []
    ensures Aggregate(results)[0].start == results[0].start
    ensures Aggregate(results)[|Aggregate(results)| - 1].end == results[|results| - 1].end
  {
    AggregateFromEnds(results[0], results[1..]);
  }

  /** The `start` offsets of the spans, in order. */
  function Starts(spans: seq<Span>): (ss: seq<int>)
    ensures |ss| == |spans|
    ensures forall i :: 0 <= i < |spans| ==> ss[i] == spans[i].start
    decreases |spans|
  {
    if spans == [] then [] else [spans[0].start] + Starts(spans[1..])
  }

  /** `xs` can be obtained from `ys` by deleting elements. */
  predicate IsSubsequence(xs: seq<int>, ys: seq<int>)
    decreases |ys|
  {
    if xs == [] then true
    else if ys == [] then false
    else (xs[0] == ys[0] && IsSubsequence(xs[1..], ys[1..])) || IsSubsequence(xs, ys[1..])
  }

  lemma {:induction false} SubsequenceInsertSecond(xs: seq<int>, a: int, b: int, ys: seq<int>)
    requires IsSubsequence(xs, [a] + ys)
    ensures IsSubsequence(xs, [a, b] + ys)
  {
    assert ([a] + ys)[1..] == ys;
    assert ([a, b] + ys)[1..] == [b] + ys;
    assert ([b] + ys)[1..] == ys;
    if xs != [] && xs[0] == a && IsSubsequence(xs[1..], ys) {
      assert IsSubsequence(xs[1..], [b] + ys);
    } else {
      assert IsSubsequence(xs, [b] + ys);
    }
  }

  /** The output keeps input order: its `start`s are a subsequence of the input's. */
  lemma {:induction false} AggregateStarts(results: seq<Span>)
    ensures IsSubsequence(Starts(Aggregate(results)), Starts(results))
    decreases |results|
  {
    if |results| == 1 {
      assert Starts(results) == [results[0].start];
    } else if |results| >= 2 {
      var r0, r1 := results[0], results[1];
      AggregateStep(results);
      assert Starts(results) == [r0.start] + Starts(results[1..]);
      assert Starts(results[1..]) == [r1.start] + Starts(results[2..]);
      if Adjacent(r0, r1) {
        var merged := [Merge(r0, r1)] + results[2..];
        AggregateStarts(merged);
        assert Starts(merged) == [r0.start] + Starts(results[2..]);
        SubsequenceInsertSecond(Starts(Aggregate(results)), r0.start, r1.start, Starts(results[2..]));
        assert Starts(results) == [r0.start, r1.start] + Starts(results[2..]);
      } else {
        var tail := Aggregate(results[1..]);
        AggregateStarts(results[1..]);
        assert Starts([r0] + tail) == [r0.start] + Starts(tail);
        assert ([r0.start] + Starts(tail))[1..] == Starts(tail);
        assert ([r0.start] + Starts(results[1..]))[1..] == Starts(results[1..]);
      }
    }
  }

  lemma RelabelAllCons(r: Span, rest: seq<Span>, tag: string)
    ensures RelabelAll([r] + rest, tag) == [Relabelled(r, tag)] + RelabelAll(rest, tag)
  {
    assert ([r] + rest)[1..] == rest;
  }

  lemma {:induction false} AggregateFromRelabel(current: Span, rest: seq<Span>, tag: string)
    ensures AggregateFrom(Relabelled(current, tag), RelabelAll(rest, tag))
      == RelabelAll(AggregateFrom(current, rest), tag)
    decreases |rest|
  {
    if rest != [] {
      var r, tail := rest[0], rest[1..];
      assert rest == [r] + tail;
      RelabelAllCons(r, tail, tag);
      AggregateFromCons(current, r, tail);
      AggregateFromCons(Relabelled(current, tag), Relabelled(r, tag), RelabelAll(tail, tag));
      if Adjacent(current, r) {
        assert Merge(Relabelled(current, tag), Relabelled(r, tag)) == Relabelled(Merge(current, r), tag);
        AggregateFromRelabel(Merge(current, r), tail, tag);
      } else {
        AggregateFromRelabel(r, tail, tag);
        RelabelAllCons(current, AggregateFrom(r, tail), tag);
      }
    }
  }

  /**
   * Relabelling commutes with aggregation: merging only reads offsets and
   * words, and a run keeps its first record's labels.
   */
  lemma AggregateRelabel(results: seq<Span>, tag: string)
    ensures Aggregate(RelabelAll(results, tag)) == RelabelAll(Aggregate(results), tag)
  {
    if results != [] {
      assert RelabelAll(results, tag)[1..] == RelabelAll(results[1..], tag);
      AggregateFromRelabel(results[0], results[1..], tag);
    }
  }

  /** Relabelling leaves every word as it was. */
  lemma WordsRelabel(spans: seq<Span>, tag: string)
    ensures Words(RelabelAll(spans, tag)) == Words(spans)
  {
  }

  // ---------------------------------------------------------------------------
  // Extraction facade

  /** The common body of `extract_skills` and `extract_knowledge`. */
  method ExtractLabelled(text: TextArg, output: seq<Span>, tag: string) returns (spans: seq<Span>)
    ensures text.NotStr? ==> spans == []
    ensures text.Str? ==> spans == Aggregate(RelabelAll(output, tag))
  {
    if text.NotStr? {
      return [];
    }
    var items := Relabel(output, tag);
    spans := AggregateSpan(items);
  }

  /** `extract_skills`: `output` is what the skill pipeline returned for `text`. */
  method ExtractSkills(text: TextArg, output: seq<Span>) returns (spans: seq<Span>)
    ensures text.NotStr? ==> spans == []
    ensures text.Str? ==> spans == Aggregate(RelabelAll(output, SKILL_LABEL))
  {
    spans := ExtractLabelled(text, output, SKILL_LABEL);
  }

  /** `extract_knowledge`: `output` is what the knowledge pipeline returned for `text`. */
  method ExtractKnowledge(text: TextArg, output: seq<Span>) returns (spans: seq<Span>)
    ensures text.NotStr? ==> spans == []
    ensures text.Str? ==> spans == Aggregate(RelabelAll(output, KNOWLEDGE_LABEL))
  {
    spans := ExtractLabelled(text, output, KNOWLEDGE_LABEL);
  }

  /**
   * `extract_all`: the words of the merged spans of both pipelines.  The
   * labels never reach the result, so it is the words of the aggregated raw
   * pipeline output.
   */
  method ExtractAll(text: TextArg, skillOutput: seq<Span>, knowledgeOutput: seq<Span>) returns (r: Extraction)
    ensures text.NotStr? ==> r == Extraction([], [])
    ensures text.Str? ==> r.skills == Words(Aggregate(skillOutput))
    ensures text.Str? ==> r.knowledge == Words(Aggregate(knowledgeOutput))
  {
    var skills := ExtractSkills(text, skillOutput);
    var knowledge := ExtractKnowledge(text, knowledgeOutput);
    r := Extraction(Words(skills), Words(knowledge));
    if text.Str? {
      AggregateRelabel(skillOutput, SKILL_LABEL);
      WordsRelabel(Aggregate(skillOutput), SKILL_LABEL);
      AggregateRelabel(knowledgeOutput, KNOWLEDGE_LABEL);
      WordsRelabel(Aggregate(knowledgeOutput), KNOWLEDGE_LABEL);
    }
  }
}
