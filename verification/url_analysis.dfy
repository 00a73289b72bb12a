/** The deterministic steps of `findUrlTypes` in `src/lib/url-analysis.ts`:
    sampling at most 2000 URLs, slicing them into batches of 500, and merging
    the categories each batch's language-model answer reports. The answer to
    a batch is an input (an oracle from the batch text to an outcome). */
module UrlAnalysis {
  import opened Wrappers
  import opened Seqs
  import opened Text
  import opened Records
  import opened Arith
  import UrlPatternMatcher

  type UrlCategory = UrlPatternMatcher.UrlCategory

  const BatchSize: nat := 500
  const MaxUrls: nat := 2000
  /** Cap on the examples kept after a merge. */
  const MaxExamples: nat := 5

  // ---------------------------------------------------------------------------
  // Sampling

  /** `urls.filter((_, index) => index % step === 0)`, from index `from` on. */
  function EveryNth(urls: seq<string>, step: nat, from: nat): seq<string>
    requires step >= 1
    decreases |urls| - from
  {
    if from >= |urls| then []
    else (if from % step == 0 then [urls[from]] else []) + EveryNth(urls, step, from + 1)
  }

  /** Indices strictly between two multiples of `step` are skipped. */
  lemma {:induction false} SkipGap(urls: seq<string>, step: nat, j: nat, d: nat)
    requires step >= 1 && 1 <= d <= step
    ensures EveryNth(urls, step, j * step + d) == EveryNth(urls, step, Min((j + 1) * step, |urls|))
    decreases step - d
  {
    var base := j * step;
    var next := (j + 1) * step;
    assert next == base + step;
    var from := base + d;
    if from >= |urls| {
    } else if d == step {
    } else {
      DivModUnique(from, step, j, d);
      assert from % step != 0;
      SkipGap(urls, step, j, d + 1);
      assert base + (d + 1) == from + 1;
    }
  }

  /** The filter from the multiple `j * step` on: its `t`-th element is the URL
      at index `(j + t) * step`. */
  lemma {:induction false} EveryNthAt(urls: seq<string>, step: nat, j: nat, t: nat)
    requires step >= 1 && t < |EveryNth(urls, step, j * step)|
    ensures (j + t) * step < |urls| && EveryNth(urls, step, j * step)[t] == urls[(j + t) * step]
    decreases |urls| - j * step
  {
    var n := |urls|;
    var from := j * step;
    var r := EveryNth(urls, step, from);
    var next := (j + 1) * step;
    assert next == from + step;
    DivModUnique(from, step, j, 0);
    var rest := EveryNth(urls, step, from + 1);
    assert r == [urls[from]] + rest;
    if t == 0 {
      assert (j + t) * step == from;
    } else {
      SkipGap(urls, step, j, 1);
      assert j * step + 1 == from + 1;
      if next <= n {
        assert rest == EveryNth(urls, step, (j + 1) * step);
        EveryNthAt(urls, step, j + 1, t - 1);
        assert j + 1 + (t - 1) == j + t;
      } else {
        assert false;
      }
    }
  }

  /** The first index past the end is the first multiple not kept. */
  lemma {:induction false} EveryNthLength(urls: seq<string>, step: nat, j: nat)
    requires step >= 1
    ensures (j + |EveryNth(urls, step, j * step)|) * step >= |urls|
    decreases |urls| - j * step
  {
    var n := |urls|;
    var from := j * step;
    var r := EveryNth(urls, step, from);
    var next := (j + 1) * step;
    assert next == from + step;
    if from < n {
      DivModUnique(from, step, j, 0);
      var rest := EveryNth(urls, step, from + 1);
      assert |r| == 1 + |rest|;
      SkipGap(urls, step, j, 1);
      assert j * step + 1 == from + 1;
      if next <= n {
        assert rest == EveryNth(urls, step, (j + 1) * step);
        EveryNthLength(urls, step, j + 1);
        assert j + 1 + |rest| == j + |r|;
      } else {
        assert rest == EveryNth(urls, step, n);
        assert j + |r| == j + 1;
      }
    } else {
      assert j + |r| == j;
    }
  }

  /** The filter from the start keeps exactly the multiples of `step`; when
      `MaxUrls` multiples fit, it keeps at least that many. */
  lemma {:induction false} EveryNthFromStart(urls: seq<string>, step: nat)
    requires step >= 1
    ensures var r := EveryNth(urls, step, 0);
            (MaxUrls * step <= |urls| ==> |r| >= MaxUrls)
            && forall t :: 0 <= t < |r| ==> t * step < |urls| && r[t] == urls[t * step]
  {
    var r := EveryNth(urls, step, 0);
    assert 0 * step == 0;
    forall t | 0 <= t < |r|
      ensures t * step < |urls| && r[t] == urls[t * step]
    {
      EveryNthAt(urls, step, 0, t);
      assert 0 + t == t;
    }
    EveryNthLength(urls, step, 0);
    assert 0 + |r| == |r|;
    if MaxUrls * step <= |urls| && |r| < MaxUrls {
      MulMonotone(|r|, MaxUrls - 1, step);
    }
  }

  /** The sample `findUrlTypes` analyses. */
  function SampleUrls(urls: seq<string>): (r: seq<string>)
    ensures |urls| <= MaxUrls ==> r == urls
    ensures |urls| > MaxUrls ==>
              |r| == MaxUrls
              && forall t :: 0 <= t < |r| ==> r[t] == urls[t * (|urls| / MaxUrls)]
    ensures |r| <= MaxUrls
    ensures |urls| > 0 ==> |r| > 0 && r[0] == urls[0]
  {
    if |urls| > MaxUrls then
      var step := |urls| / MaxUrls;
      assert MaxUrls * step <= |urls|;
      EveryNthFromStart(urls, step);
      var kept := EveryNth(urls, step, 0);
      var r := kept[..MaxUrls];
      assert forall t :: 0 <= t < |r| ==> r[t] == kept[t];
      assert 0 * step == 0;
      r
    else urls
  }

  // ---------------------------------------------------------------------------
  // Batches

  /** `bs` cuts `urls`, in order, into slices of `BatchSize` (the last one
      possibly shorter), batch `i` starting at `i * BatchSize`. */
  predicate IsBatching(urls: seq<string>, bs: seq<seq<string>>) {
    && Flatten(bs) == urls
    && (forall i :: 0 <= i < |bs| ==> 0 < |bs[i]| <= BatchSize)
    && (forall i :: 0 <= i < |bs| - 1 ==> |bs[i]| == BatchSize)
    && |urls| <= |bs| * BatchSize < |urls| + BatchSize
    && forall i :: 0 <= i < |bs| ==> bs[i] == urls[i * BatchSize..Min((i + 1) * BatchSize, |urls|)]
  }

  /** `urls.slice(i, i + BATCH_SIZE)` for `i = 0, 500, 1000, …`. */
  function Batches(urls: seq<string>): (bs: seq<seq<string>>)
    ensures Flatten(bs) == urls
    ensures forall i :: 0 <= i < |bs| ==> 0 < |bs[i]| <= BatchSize
    ensures forall i :: 0 <= i < |bs| - 1 ==> |bs[i]| == BatchSize
    ensures |urls| <= |bs| * BatchSize < |urls| + BatchSize
    ensures forall i :: 0 <= i < |bs| ==> bs[i] == urls[i * BatchSize..Min((i + 1) * BatchSize, |urls|)]
    decreases |urls|
  {
    if |urls| == 0 then []
    else
      var rest := Batches(urls[Min(BatchSize, |urls|)..]);
      BatchesCons(urls, rest);
      [urls[..Min(BatchSize, |urls|)]] + rest
  }

  /** Cutting off the first batch and batching the remainder batches the whole. */
  lemma {:induction false} BatchesCons(urls: seq<string>, rest: seq<seq<string>>)
    requires |urls| > 0
    requires IsBatching(urls[Min(BatchSize, |urls|)..], rest)
    ensures IsBatching(urls, [urls[..Min(BatchSize, |urls|)]] + rest)
  {
    var n := Min(BatchSize, |urls|);
    var tail := urls[n..];
    var bs := [urls[..n]] + rest;
    assert Flatten(bs) == urls by {
      assert bs[0] == urls[..n] && bs[1..] == rest;
      assert urls == urls[..n] + tail;
    }
    assert forall i :: 1 <= i < |bs| ==> bs[i] == rest[i - 1];
    forall i | 1 <= i < |bs|
      ensures bs[i] == urls[i * BatchSize..Min((i + 1) * BatchSize, |urls|)]
    {
      assert n == BatchSize;
      BatchSlice(urls, i);
    }
  }

  /** Batch `i` of the text after the first batch is batch `i + 1` of the whole. */
  lemma {:induction false} BatchSlice(urls: seq<string>, i: nat)
    requires 1 <= i && BatchSize < |urls|
    requires (i - 1) * BatchSize <= Min(i * BatchSize, |urls| - BatchSize)
    ensures urls[BatchSize..][(i - 1) * BatchSize..Min(i * BatchSize, |urls| - BatchSize)]
         == urls[i * BatchSize..Min((i + 1) * BatchSize, |urls|)]
  {
    var lo := (i - 1) * BatchSize;
    var hi := Min(i * BatchSize, |urls| - BatchSize);
    assert lo + BatchSize == i * BatchSize && (i + 1) * BatchSize == i * BatchSize + BatchSize;
    assert urls[BatchSize..][lo..hi] == urls[BatchSize + lo..BatchSize + hi];
  }

  // ---------------------------------------------------------------------------
  // Merging batch answers

  /** A batch's answer: the call threw, or it returned an object whose
      `url_categories` may be missing. */
  datatype BatchOutcome =
    | BatchFailed
    | BatchOk(categories: Option<Record<UrlCategory>>)

  /** The language model, as a function of the batch text `batch.join('\n')`. */
  type BatchAnswerer = string -> BatchOutcome

  /** Examples of `incoming` not in `existing`, in order; repetitions inside
      `incoming` are all kept, since the lookup set is built before the loop. */
  function NewExamples(existing: seq<string>, incoming: seq<string>): (r: seq<string>)
    ensures forall e :: e in r <==> e in incoming && e !in existing
    ensures IsSubsequence(r, incoming)
    ensures forall e :: multiset(r)[e] == if e in existing then 0 else multiset(incoming)[e]
  {
    var r := Filter(incoming, e => e !in existing);
    assert forall e :: multiset(r)[e] == if e in existing then 0 else multiset(incoming)[e] by {
      forall e ensures multiset(r)[e] == if e in existing then 0 else multiset(incoming)[e] {
        FilterMultiset(incoming, e => e !in existing, e);
      }
    }
    r
  }

  /** The examples of a known category after a merge: the old ones followed by
      the new ones, cut to the first five. */
  function MergedExamples(existing: seq<string>, incoming: seq<string>): (r: seq<string>)
    ensures |r| == Min(MaxExamples, |existing| + |NewExamples(existing, incoming)|)
    ensures existing[..Min(MaxExamples, |existing|)] <= r
    ensures |existing| <= |r| ==> r[|existing|..] <= NewExamples(existing, incoming)
    ensures forall k :: |existing| <= k < |r| ==> r[k] in incoming && r[k] !in existing
    ensures forall e :: e in r ==> e in existing || e in incoming
  {
    var added := NewExamples(existing, incoming);
    var merged := existing + added;
    assert merged[..|existing|] == existing && merged[|existing|..] == added;
    if |merged| > MaxExamples then merged[..MaxExamples] else merged
  }

  /** Merge one reported category into the running result. */
  function MergeCategory(all: Record<UrlCategory>, name: string, info: UrlCategory): (r: Record<UrlCategory>)
    ensures Get(r, name).Some?
    ensures Get(all, name).None? ==> Get(r, name) == Some(info)
    ensures Get(all, name).Some? ==>
              var before := Get(all, name).value;
              var after := Get(r, name).value;
              after.kind == before.kind
              && |after.examples| == Min(MaxExamples, |before.examples| + |NewExamples(before.examples, info.examples)|)
              && before.examples[..Min(MaxExamples, |before.examples|)] <= after.examples
              && (|before.examples| <= |after.examples| ==>
                    after.examples[|before.examples|..] <= NewExamples(before.examples, info.examples))
              && (forall k :: |before.examples| <= k < |after.examples| ==>
                    after.examples[k] in info.examples && after.examples[k] !in before.examples)
              && (forall e :: e in after.examples ==> e in before.examples || e in info.examples)
    ensures forall other :: other != name ==> Get(r, other) == Get(all, other)
    ensures name in Keys(all) ==> Keys(r) == Keys(all)
    ensures name !in Keys(all) ==> Keys(r) == Keys(all) + [name]
  {
    match Get(all, name)
    case None =>
      Put(all, name, info)
    case Some(before) =>
      var after := before.(examples := MergedExamples(before.examples, info.examples));
      var r := Put(all, name, after);
      assert Get(r, name).value == after;
      r
  }

  /** Merging examples that are all already present only applies the cut. */
  lemma {:induction false} MergeKnownExamples(all: Record<UrlCategory>, name: string, info: UrlCategory)
    requires Get(all, name).Some?
    requires forall e :: e in info.examples ==> e in Get(all, name).value.examples
    ensures Get(MergeCategory(all, name, info), name).value.examples
         == var ex := Get(all, name).value.examples; ex[..Min(MaxExamples, |ex|)]
  {
    var before := Get(all, name).value;
    var added := NewExamples(before.examples, info.examples);
    assert |added| == 0;
    assert before.examples + added == before.examples;
  }

  /** The entries of one answer, merged in `Object.entries` order. */
  function MergeEntries(all: Record<UrlCategory>, entries: Record<UrlCategory>): (r: Record<UrlCategory>)
    ensures Keys(r) == AddAll(Keys(all), Keys(entries))
    decreases |entries|
  {
    if |entries| == 0 then all
    else
      var next := MergeCategory(all, entries[0].0, entries[0].1);
      MergeEntries(next, Rest(entries))
  }

  /** What one batch adds: nothing when the call failed or reported no categories. */
  function MergeOutcome(all: Record<UrlCategory>, outcome: BatchOutcome): (r: Record<UrlCategory>)
    ensures Keys(r) == AddAll(Keys(all), ReportedNames(outcome))
  {
    match outcome
    case BatchFailed => all
    case BatchOk(None) => all
    case BatchOk(Some(categories)) => MergeEntries(all, categories)
  }

  /** Category names an outcome reports, in entry order. */
  function ReportedNames(outcome: BatchOutcome): seq<string> {
    match outcome
    case BatchOk(Some(categories)) => Keys(categories)
    case _ => []
  }

  /** The outcome for one batch: the answer to its URLs joined by newlines. */
  function Ask(answer: BatchAnswerer, batch: seq<string>): BatchOutcome {
    answer(Join("\n", batch))
  }

  /** The batch loop, over the first batches. */
  function AnalyzeBatches(batches: seq<seq<string>>, answer: BatchAnswerer): Record<UrlCategory>
    decreases |batches|
  {
    if |batches| == 0 then Empty()
    else MergeOutcome(AnalyzeBatches(batches[..|batches| - 1], answer), Ask(answer, batches[|batches| - 1]))
  }

  /** Every name the answers to `batches` report, in order, repetitions included. */
  function AllReported(batches: seq<seq<string>>, answer: BatchAnswerer): seq<string>
    decreases |batches|
  {
    if |batches| == 0 then []
    else AllReported(batches[..|batches| - 1], answer) + ReportedNames(Ask(answer, batches[|batches| - 1]))
  }

  lemma {:induction false} AnalyzeSnoc(batches: seq<seq<string>>, batch: seq<string>, answer: BatchAnswerer)
    ensures AnalyzeBatches(batches + [batch], answer) == MergeOutcome(AnalyzeBatches(batches, answer), Ask(answer, batch))
    ensures AllReported(batches + [batch], answer) == AllReported(batches, answer) + ReportedNames(Ask(answer, batch))
  {
    assert (batches + [batch])[..|batches|] == batches;
  }

  /** A batch whose call fails, or whose answer has no categories, leaves the
      result unchanged, and the batches after it still run. */
  lemma {:induction false} FailedBatchContributesNothing(batches: seq<seq<string>>, failed: seq<string>,
                                                         later: seq<seq<string>>, answer: BatchAnswerer)
    requires Ask(answer, failed).BatchFailed? || Ask(answer, failed) == BatchOk(None)
    ensures AnalyzeBatches(batches + [failed] + later, answer) == AnalyzeBatches(batches + later, answer)
    decreases |later|
  {
    if |later| == 0 {
      assert AnalyzeBatches(batches + [failed] + later, answer) == AnalyzeBatches(batches + [failed], answer) by {
        assert batches + [failed] + later == batches + [failed];
      }
      assert batches + later == batches;
      AnalyzeSnoc(batches, failed, answer);
    } else {
      FailedBatchContributesNothing(batches, failed, later[..|later| - 1], answer);
      AnalyzeLater(batches + [failed], later, answer);
      AnalyzeLater(batches, later, answer);
    }
  }

  /** The last of the later batches is merged last. */
  lemma {:induction false} AnalyzeLater(front: seq<seq<string>>, later: seq<seq<string>>, answer: BatchAnswerer)
    requires |later| > 0
    ensures AnalyzeBatches(front + later, answer)
         == MergeOutcome(AnalyzeBatches(front + later[..|later| - 1], answer), Ask(answer, later[|later| - 1]))
  {
    AppendSnoc(front, later);
    AnalyzeSnoc(front + later[..|later| - 1], later[|later| - 1], answer);
  }

  /** The categories found are every category some answer reported, once each,
      in order of first report. */
  lemma {:induction false} AnalysisKeys(batches: seq<seq<string>>, answer: BatchAnswerer)
    ensures Keys(AnalyzeBatches(batches, answer)) == Dedup(AllReported(batches, answer))
    decreases |batches|
  {
    if |batches| > 0 {
      var prefix := batches[..|batches| - 1];
      var last := batches[|batches| - 1];
      var before := AnalyzeBatches(prefix, answer);
      var names := ReportedNames(Ask(answer, last));
      AnalysisKeys(prefix, answer);
      assert AnalyzeBatches(batches, answer) == MergeOutcome(before, Ask(answer, last));
      assert AllReported(batches, answer) == AllReported(prefix, answer) + names;
      AddAllAppend([], AllReported(prefix, answer), names);
    }
  }

  /** Once a category is found, later batches never change its `type`. */
  lemma {:induction false} KindIsStable(batches: seq<seq<string>>, later: seq<seq<string>>,
                                        answer: BatchAnswerer, name: string)
    requires Get(AnalyzeBatches(batches, answer), name).Some?
    ensures Get(AnalyzeBatches(batches + later, answer), name).Some?
    ensures Get(AnalyzeBatches(batches + later, answer), name).value.kind
         == Get(AnalyzeBatches(batches, answer), name).value.kind
    decreases |later|
  {
    if |later| == 0 {
      assert batches + later == batches;
    } else {
      var init := later[..|later| - 1];
      KindIsStable(batches, init, answer, name);
      AnalyzeLater(batches, later, answer);
      OutcomeKeepsKind(AnalyzeBatches(batches + init, answer), Ask(answer, later[|later| - 1]), name);
    }
  }

  lemma {:induction false} OutcomeKeepsKind(all: Record<UrlCategory>, outcome: BatchOutcome, name: string)
    requires Get(all, name).Some?
    ensures Get(MergeOutcome(all, outcome), name).Some?
    ensures Get(MergeOutcome(all, outcome), name).value.kind == Get(all, name).value.kind
  {
    if outcome.BatchOk? && outcome.categories.Some? {
      EntriesKeepKind(all, outcome.categories.value, name);
    }
  }

  /** Merging entries keeps a present category and its `type`. */
  lemma {:induction false} EntriesKeepKind(all: Record<UrlCategory>, entries: Record<UrlCategory>, name: string)
    requires Get(all, name).Some?
    ensures Get(MergeEntries(all, entries), name).Some?
    ensures Get(MergeEntries(all, entries), name).value.kind == Get(all, name).value.kind
    decreases |entries|
  {
    if |entries| > 0 {
      MergeKeepsKind(all, entries[0].0, entries[0].1, name);
      EntriesKeepKind(MergeCategory(all, entries[0].0, entries[0].1), Rest(entries), name);
    }
  }

  /** Merging one category keeps a present category and its `type`. */
  lemma {:induction false} MergeKeepsKind(all: Record<UrlCategory>, reported: string, info: UrlCategory, name: string)
    requires Get(all, name).Some?
    ensures Get(MergeCategory(all, reported, info), name).Some?
    ensures Get(MergeCategory(all, reported, info), name).value.kind == Get(all, name).value.kind
  {
    if reported != name {
      assert Get(MergeCategory(all, reported, info), name) == Get(all, name);
    }
  }

  /** `findUrlTypes` after the prompt set-up: sample, slice, ask, merge. */
  function FindUrlTypes(urls: seq<string>, answer: BatchAnswerer): (r: Record<UrlCategory>)
    ensures Keys(r) == Dedup(AllReported(Batches(SampleUrls(urls)), answer))
  {
    var batches := Batches(SampleUrls(urls));
    AnalysisKeys(batches, answer);
    AnalyzeBatches(batches, answer)
  }

  /** At most four batches are ever sent, each of at most 500 URLs. */
  lemma {:induction false} AtMostFourBatches(urls: seq<string>)
    ensures |Batches(SampleUrls(urls))| <= MaxUrls / BatchSize
  {
  }
}
