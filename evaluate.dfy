/** The evaluation entry point: read a predictions file, keep the rows that have both a
    reference caption and a prediction and no error, count them into the metrics, and render
    the first few as a Markdown report. */
module Evaluate {
  import opened Results
  import opened Seqs
  import opened Text
  import opened Json
  import opened JsonLines

  datatype EvalError =
    | PredsNotFound   // the --preds file does not exist
    | UnreadableRow   // a content line is not a JSON object

  /** One `(img, ref, pred)` triple of `samples`; the image path is kept as the JSON value found. */
  datatype ReportSample = ReportSample(image: JsonValue, reference: string, prediction: string)

  /** A row contributes iff its "error" is absent or null and both captions are truthy. */
  predicate Usable(row: Row)
    ensures Usable(row) ==> "text" in row && "pred_text" in row && ("error" in row ==> row["error"] == JNull)
  {
    Get(row, "error") == JNull && Truthy(Get(row, "text")) && Truthy(Get(row, "pred_text"))
  }

  /** The triple a row contributes: `row.get("image_path", "")`, `str(ref)`, `str(pred)`. */
  function SampleOf(row: Row): (s: ReportSample)
    ensures s.image == GetOr(row, "image_path", JString(""))
    ensures Get(row, "text").JString? ==> s.reference == Get(row, "text").s
    ensures Get(row, "pred_text").JString? ==> s.prediction == Get(row, "pred_text").s
    ensures Usable(row) ==> s.reference != "" && s.prediction != ""
  {
    StrSpec(Get(row, "text"));
    StrSpec(Get(row, "pred_text"));
    ReportSample(GetOr(row, "image_path", JString("")), Str(Get(row, "text")), Str(Get(row, "pred_text")))
  }

  /** The samples the loop collects from the decoded rows. */
  function Collected(rows: seq<Row>): seq<ReportSample> {
    FilterMap(rows, Usable, SampleOf)
  }

  /** The three parallel lists `preds`, `refs` and `samples`. */
  datatype Collection = Collection(preds: seq<string>, refs: seq<string>, samples: seq<ReportSample>)

  predicate Aligned(c: Collection) {
    |c.preds| == |c.refs| == |c.samples| &&
    forall i :: 0 <= i < |c.samples| ==>
      c.refs[i] == c.samples[i].reference && c.preds[i] == c.samples[i].prediction
  }

  /**
   * The reading loop of `main`: `file` is the predictions file (None when it
   * does not exist). Any undecodable content line aborts the run.
   */
  method CollectPairs(file: Option<seq<string>>, decode: string -> Option<Row>)
    returns (r: Result<Collection, EvalError>)
    ensures file.None? ==> r == Err(PredsNotFound)
    ensures file.Some? ==> (r.Ok? <==> DecodeAll(NonBlank(file.value), decode).Some?)
    ensures file.Some? && r.Err? ==> r.error == UnreadableRow
    ensures r.Ok? ==> Aligned(r.value)
    ensures r.Ok? ==> r.value.samples == Collected(DecodeAll(NonBlank(file.value), decode).value)
  {
    if file.None? {
      return Err(PredsNotFound);
    }
    var lines := file.value;
    var preds: seq<string> := [];
    var refs: seq<string> := [];
    var samples: seq<ReportSample> := [];
    ghost var rows: seq<Row> := [];
    var i := 0;
    while i < |lines|
      invariant 0 <= i <= |lines|
      invariant DecodeAll(NonBlank(lines[..i]), decode) == Some(rows)
      invariant samples == Collected(rows)
      invariant Aligned(Collection(preds, refs, samples))
    {
      NonBlankSnoc(lines, i);
      var line := Strip(lines[i]);
      if line == "" {
        assert NonBlank(lines[..i + 1]) == NonBlank(lines[..i]);
        i := i + 1;
        continue;
      }
      DecodeAllSnoc(NonBlank(lines[..i]), line, decode);
      var parsed := decode(line);
      if parsed.None? {
        NonBlankPrefixFails(lines, i + 1, decode);
        return Err(UnreadableRow);
      }
      var row := parsed.value;
      assert NonBlank(lines[..i + 1]) == NonBlank(lines[..i]) + [line];
      CollectStep(rows, row, Collection(preds, refs, samples));
      rows := rows + [row];
      i := i + 1;
      if Get(row, "error") != JNull {
        continue;
      }
      var ref := Get(row, "text");
      var pred := Get(row, "pred_text");
      var img := GetOr(row, "image_path", JString(""));
      if !Truthy(ref) || !Truthy(pred) {
        continue;
      }
      refs := refs + [Str(ref)];
      preds := preds + [Str(pred)];
      samples := samples + [ReportSample(img, Str(ref), Str(pred))];
    }
    assert lines[..i] == lines;
    return Ok(Collection(preds, refs, samples));
  }

  /** The loop body on one decoded row keeps the lists aligned and equal to `Collected`. */
  lemma CollectStep(rows: seq<Row>, row: Row, c: Collection)
    requires c.samples == Collected(rows) && Aligned(c)
    ensures !Usable(row) ==> c.samples == Collected(rows + [row])
    ensures Usable(row) ==>
      var s := SampleOf(row);
      c.samples + [s] == Collected(rows + [row]) &&
      Aligned(Collection(c.preds + [s.prediction], c.refs + [s.reference], c.samples + [s]))
  {
    FilterMapSnoc(rows, row, Usable, SampleOf);
  }

  /**
   * Which rows are collected, and how: the j-th sample is built from a usable
   * row, at strictly increasing row positions, and every usable row is used.
   */
  lemma CollectedSpec(rows: seq<Row>)
    ensures |Collected(rows)| == |KeptPositions(rows, Usable)| == Count(rows, Usable) <= |rows|
    ensures forall j :: 0 <= j < |Collected(rows)| ==>
      var k := KeptPositions(rows, Usable)[j];
      k < |rows| && Usable(rows[k]) && Collected(rows)[j] == SampleOf(rows[k])
    ensures forall j, k :: 0 <= j < k < |KeptPositions(rows, Usable)| ==>
      KeptPositions(rows, Usable)[j] < KeptPositions(rows, Usable)[k]
    ensures forall k :: 0 <= k < |rows| && Usable(rows[k]) ==> k in KeptPositions(rows, Usable)
  {
    FilterMapCharacterization(rows, Usable, SampleOf);
  }

  /** A row whose "error" is set never reaches the metrics or the report. */
  lemma ErrorRowsContributeNothing(rows: seq<Row>, k: nat)
    requires k < |rows| && Get(rows[k], "error") != JNull
    ensures k !in KeptPositions(rows, Usable)
  {
    FilterMapCharacterization(rows, Usable, SampleOf);
  }

  /** Every collected reference and prediction is a non-empty string. */
  lemma {:induction false} CollectedNonEmpty(rows: seq<Row>)
    ensures forall j :: 0 <= j < |Collected(rows)| ==>
      Collected(rows)[j].reference != "" && Collected(rows)[j].prediction != ""
  {
    FilterMapCharacterization(rows, Usable, SampleOf);
    forall j | 0 <= j < |Collected(rows)|
      ensures Collected(rows)[j].reference != "" && Collected(rows)[j].prediction != ""
    {
      var k := KeptPositions(rows, Usable)[j];
      assert Collected(rows)[j] == SampleOf(rows[k]);
    }
  }

  // ---------------------------------------------------------------------------
  // compute_metrics

  /** The metrics dictionary: the scores from the metric library and the count "n". */
  datatype Metrics<S> = Metrics(scores: S, n: nat)

  /** `compute_metrics`: the library scores both lists; "n" is the number of predictions. */
  function ComputeMetrics<S>(preds: seq<string>, refs: seq<string>, score: (seq<string>, seq<string>) -> S)
    : (m: Metrics<S>)
    ensures m.n == |preds|
    ensures m.scores == score(preds, refs)
  {
    Metrics(score(preds, refs), |preds|)
  }

  // ---------------------------------------------------------------------------
  // save_samples_md

  /** Python's `xs[:limit]`: a negative limit counts from the end. */
  function SliceTo<T>(xs: seq<T>, limit: int): (r: seq<T>)
    ensures limit >= 0 ==> |r| == (if limit < |xs| then limit else |xs|)
    ensures limit < 0 ==> |r| == (if |xs| + limit > 0 then |xs| + limit else 0)
    ensures r == xs[..|r|]
  {
    if limit >= 0 then (if limit < |xs| then xs[..limit] else xs)
    else if |xs| + limit > 0 then xs[..|xs| + limit]
    else []
  }

  const ReportHeader: string := "# Samples (reference vs prediction)\n"

  /** The five lines of the `i`-th entry. */
  function EntryLines(i: nat, s: ReportSample): (ls: seq<string>)
    ensures |ls| == 5
  {
    ["## " + NatToString(i) + "\n",
     "- image_path: `" + Str(s.image) + "`\n",
     "- reference: " + s.reference + "\n",
     "- prediction: " + s.prediction + "\n",
     "\n"]
  }

  /** The entries for `shown`, numbered from 1. */
  function Entries(shown: seq<ReportSample>): seq<string> {
    if shown == [] then []
    else Entries(shown[..|shown| - 1]) + EntryLines(|shown|, shown[|shown| - 1])
  }

  /** All lines of the report for `rows` with the given limit. */
  function ReportLines(rows: seq<ReportSample>, limit: int): seq<string> {
    [ReportHeader] + Entries(SliceTo(rows, limit))
  }

  /** `save_samples_md`: the text written to the report file. */
  method SaveSamplesMd(rows: seq<ReportSample>, limit: int) returns (text: string)
    ensures text == Concat(ReportLines(rows, limit))
  {
    var shown := SliceTo(rows, limit);
    var lines := [ReportHeader];
    var i := 0;
    while i < |shown|
      invariant 0 <= i <= |shown|
      invariant lines == [ReportHeader] + Entries(shown[..i])
    {
      var s := shown[i];
      assert shown[..i + 1][..i] == shown[..i] && shown[..i + 1][i] == s;
      lines := lines + ["## " + NatToString(i + 1) + "\n"];
      lines := lines + ["- image_path: `" + Str(s.image) + "`\n"];
      lines := lines + ["- reference: " + s.reference + "\n"];
      lines := lines + ["- prediction: " + s.prediction + "\n"];
      lines := lines + ["\n"];
      i := i + 1;
    }
    assert shown[..i] == shown;
    text := Concat(lines);
  }

  /** A slice of a concatenation that lies within one of its two parts. */
  lemma SliceOfConcat<T>(a: seq<T>, b: seq<T>, lo: nat, hi: nat)
    requires lo <= hi <= |a| + |b|
    ensures hi <= |a| ==> (a + b)[lo..hi] == a[lo..hi]
    ensures lo == |a| && hi == |a| + |b| ==> (a + b)[lo..hi] == b
  {
  }

  /** Entries are laid out five lines apiece, the j-th one numbered j + 1. */
  lemma {:induction false} EntriesLayout(shown: seq<ReportSample>)
    ensures |Entries(shown)| == 5 * |shown|
    ensures forall j :: 0 <= j < |shown| ==> Entries(shown)[5 * j..5 * j + 5] == EntryLines(j + 1, shown[j])
  {
    if shown != [] {
      var init := shown[..|shown| - 1];
      EntriesLayout(init);
      var e := Entries(shown);
      assert e == Entries(init) + EntryLines(|shown|, shown[|shown| - 1]);
      forall j | 0 <= j < |shown|
        ensures e[5 * j..5 * j + 5] == EntryLines(j + 1, shown[j])
      {
        SliceOfConcat(Entries(init), EntryLines(|shown|, shown[|shown| - 1]), 5 * j, 5 * j + 5);
        if j < |init| {
          assert init[j] == shown[j];
        }
      }
    }
  }

  /**
   * The report is the header followed by exactly min(limit, |rows|) entries
   * for a non-negative limit (all but the last -limit rows for a negative
   * one), each five lines long and numbered consecutively from 1, showing the
   * rows in order.
   */
  lemma ReportLayout(rows: seq<ReportSample>, limit: int)
    ensures var k := |SliceTo(rows, limit)|;
      (limit >= 0 ==> k == (if limit < |rows| then limit else |rows|)) &&
      |ReportLines(rows, limit)| == 1 + 5 * k &&
      ReportLines(rows, limit)[0] == ReportHeader &&
      forall j :: 0 <= j < k ==>
        ReportLines(rows, limit)[1 + 5 * j..6 + 5 * j] == EntryLines(j + 1, rows[j])
  {
    var shown := SliceTo(rows, limit);
    EntriesLayout(shown);
    forall j | 0 <= j < |shown|
      ensures ReportLines(rows, limit)[1 + 5 * j..6 + 5 * j] == EntryLines(j + 1, rows[j])
    {
      assert ReportLines(rows, limit)[1 + 5 * j..6 + 5 * j] == Entries(shown)[5 * j..5 * j + 5];
      assert shown[j] == rows[j];
    }
  }

  /** Entry headings are pairwise distinct. */
  lemma HeadingsDistinct(rows: seq<ReportSample>, limit: int, j: nat, k: nat)
    requires j < k < |SliceTo(rows, limit)|
    ensures |ReportLines(rows, limit)| == 1 + 5 * |SliceTo(rows, limit)|
    ensures ReportLines(rows, limit)[1 + 5 * j] != ReportLines(rows, limit)[1 + 5 * k]
  {
    HeadingAt(rows, limit, j);
    HeadingAt(rows, limit, k);
    HeadingNumber(j + 1, rows[j]);
    HeadingNumber(k + 1, rows[k]);
  }

  /** The heading line of entry `j + 1` sits at line `1 + 5 * j`. */
  lemma HeadingAt(rows: seq<ReportSample>, limit: int, j: nat)
    requires j < |SliceTo(rows, limit)|
    ensures |ReportLines(rows, limit)| == 1 + 5 * |SliceTo(rows, limit)|
    ensures ReportLines(rows, limit)[1 + 5 * j] == EntryLines(j + 1, rows[j])[0]
  {
    var shown := SliceTo(rows, limit);
    EntriesLayout(shown);
    assert Entries(shown)[5 * j] == Entries(shown)[5 * j..5 * j + 5][0];
    assert shown[j] == rows[j];
  }

  /** The number a heading line `## i` displays. */
  function HeadingValue(h: string): nat {
    if |h| >= 4 then ParseNat(h[3..|h| - 1]) else 0
  }

  /** The entry number can be read back from an entry's heading line. */
  lemma HeadingNumber(i: nat, s: ReportSample)
    ensures HeadingValue(EntryLines(i, s)[0]) == i
  {
    var h := "## " + NatToString(i) + "\n";
    assert h[3..|h| - 1] == NatToString(i);
    NatToStringRoundTrip(i);
  }

  // ---------------------------------------------------------------------------
  // main

  /** What `main` writes: the metrics dictionary and the Markdown report text. */
  datatype EvalOutput<S> = EvalOutput(metrics: Metrics<S>, report: string)

  method EvaluateMain<S>(
    file: Option<seq<string>>, decode: string -> Option<Row>,
    score: (seq<string>, seq<string>) -> S, maxSamples: int)
    returns (r: Result<EvalOutput<S>, EvalError>)
    ensures file.None? ==> r == Err(PredsNotFound)
    ensures file.Some? ==> (r.Ok? <==> DecodeAll(NonBlank(file.value), decode).Some?)
    ensures r.Ok? ==>
      var rows := DecodeAll(NonBlank(file.value), decode).value;
      r.value.metrics.n == Count(rows, Usable) &&
      r.value.report == Concat(ReportLines(Collected(rows), maxSamples))
  {
    var collected := CollectPairs(file, decode);
    if collected.Err? {
      return Err(collected.error);
    }
    var c := collected.value;
    FilterMapCharacterization(DecodeAll(NonBlank(file.value), decode).value, Usable, SampleOf);
    var metrics := ComputeMetrics(c.preds, c.refs, score);
    var report := SaveSamplesMd(c.samples, maxSamples);
    return Ok(EvalOutput(metrics, report));
  }
}
