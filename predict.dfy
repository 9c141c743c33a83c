/** The inference entry point: caption a single image, or caption every row of a JSON Lines
    file and collect one prediction record per row that names an image. */
module Predict {
  import opened Results
  import opened Seqs
  import opened Json
  import opened JsonLines

  /** The generation settings handed to the captioner unchanged. */
  datatype GenerationParams = GenerationParams(maxNewTokens: int, numBeams: int)

  /** Why a run stops with an exception instead of a list of predictions. */
  datatype PredictError =
    | InputNotFound        // the --jsonl file does not exist
    | ImageNotFound        // the --image file does not exist
    | MalformedRow         // a content line is not a JSON object
    | ImagePathNotString   // a truthy "image_path" that Path() rejects
    | CaptionFailed        // the captioner raised (an unreadable image, a model error)

  /**
   * What the run observes of the outside world: the JSON decoder (None when a
   * line is not valid JSON or not an object), the file-existence test, and the
   * captioning model (None when it raises instead of returning a caption).
   */
  datatype Env = Env(
    decode: string -> Option<Row>,
    imageExists: string -> bool,
    caption: (string, GenerationParams) -> Option<string>)

  const ImageNotFoundMarker: string := "image_not_found"

  /** The record kept for a row whose image file is missing. */
  function MissingRecord(row: Row): (rec: Row)
    ensures rec.Keys == row.Keys + {"pred_text", "error"}
    ensures rec["pred_text"] == JNull && rec["error"] == JString(ImageNotFoundMarker)
    ensures forall k :: k in row && k != "pred_text" && k != "error" ==> rec[k] == row[k]
  {
    row["pred_text" := JNull]["error" := JString(ImageNotFoundMarker)]
  }

  /** The record kept for a row that was captioned. */
  function CaptionRecord(row: Row, text: string): (rec: Row)
    ensures rec.Keys == row.Keys + {"pred_text", "error"}
    ensures rec["pred_text"] == JString(text) && rec["error"] == JNull
    ensures forall k :: k in row && k != "pred_text" && k != "error" ==> rec[k] == row[k]
  {
    row["pred_text" := JString(text)]["error" := JNull]
  }

  /** A row takes part in the batch iff its "image_path" is truthy. */
  predicate HasImagePath(row: Row)
    ensures HasImagePath(row) ==> "image_path" in row && row["image_path"] != JNull
  {
    Truthy(Get(row, "image_path"))
  }

  /** A record produced by a successful caption (its "error" is null). */
  predicate IsSuccess(rec: Row) {
    Get(rec, "error") == JNull
  }

  // ---------------------------------------------------------------------------
  // Single-image mode

  function PredictImage(image: string, env: Env, params: GenerationParams): (r: Result<string, PredictError>)
    ensures r.Err? <==> !env.imageExists(image) || env.caption(image, params).None?
    ensures r.Err? ==> r.error == if env.imageExists(image) then CaptionFailed else ImageNotFound
    ensures r.Ok? ==> env.caption(image, params) == Some(r.value)
  {
    if !env.imageExists(image) then Err(ImageNotFound)
    else match env.caption(image, params)
      case None => Err(CaptionFailed)
      case Some(text) => Ok(text)
  }

  // ---------------------------------------------------------------------------
  // Batch mode, specified one content line at a time

  /** The loop's state between rows: still reading, stopped by the limit, or raised. */
  datatype BatchState =
    | Running(preds: seq<Row>, n: int)
    | Stopped(preds: seq<Row>)
    | Failed(error: PredictError)

  /** One iteration of the batch loop on one stripped, non-blank line. */
  function Step(st: BatchState, line: string, env: Env, params: GenerationParams, limit: int): (r: BatchState)
    requires st.Running?
    ensures r.Failed? <==> (env.decode(line).None? ||
      (HasImagePath(env.decode(line).value) && !RowProcessable(env.decode(line).value, env, params)))
    ensures !r.Failed? ==> st.preds <= r.preds && |r.preds| <= |st.preds| + 1
    ensures r.Running? ==> st.n <= r.n <= st.n + 1 && r.n - st.n == Count(r.preds[|st.preds|..], IsSuccess)
    ensures r.Stopped? ==> limit != 0 && st.n + 1 >= limit && |r.preds| == |st.preds| + 1 && IsSuccess(r.preds[|st.preds|])
  {
    match env.decode(line)
    case None => Failed(MalformedRow)
    case Some(row) =>
      var imagePath := Get(row, "image_path");
      if !Truthy(imagePath) then st
      else if !imagePath.JString? then Failed(ImagePathNotString)
      else if !env.imageExists(imagePath.s) then Running(st.preds + [MissingRecord(row)], st.n)
      else match env.caption(imagePath.s, params)
        case None => Failed(CaptionFailed)
        case Some(text) =>
          var preds := st.preds + [CaptionRecord(row, text)];
          if limit != 0 && st.n + 1 >= limit then Stopped(preds) else Running(preds, st.n + 1)
  }

  /** The loop run from state `st` over the remaining content lines. */
  function RunFrom(st: BatchState, ls: seq<string>, env: Env, params: GenerationParams, limit: int): BatchState
    decreases |ls|
  {
    if ls == [] || !st.Running? then st
    else RunFrom(Step(st, ls[0], env, params, limit), ls[1..], env, params, limit)
  }

  function Outcome(st: BatchState): Result<seq<Row>, PredictError> {
    match st
    case Running(preds, _) => Ok(preds)
    case Stopped(preds) => Ok(preds)
    case Failed(e) => Err(e)
  }

  /** The whole batch run over a file's lines, as a value. */
  function Batch(lines: seq<string>, env: Env, params: GenerationParams, limit: int): Result<seq<Row>, PredictError> {
    Outcome(RunFrom(Running([], 0), NonBlank(lines), env, params, limit))
  }

  /**
   * Batch mode of `main`: `input` is the --jsonl file (None when it does not
   * exist); the result is the list handed to write_jsonl, or the exception.
   */
  method PredictBatch(input: Option<seq<string>>, env: Env, params: GenerationParams, limit: int)
    returns (r: Result<seq<Row>, PredictError>)
    ensures input.None? ==> r == Err(InputNotFound)
    ensures input.Some? ==> r == Batch(input.value, env, params, limit)
  {
    if input.None? {
      return Err(InputNotFound);
    }
    var ls := NonBlank(input.value);
    var preds: seq<Row> := [];
    var n := 0;
    var i := 0;
    while i < |ls|
      invariant 0 <= i <= |ls|
      invariant RunFrom(Running(preds, n), ls[i..], env, params, limit) == RunFrom(Running([], 0), ls, env, params, limit)
    {
      assert ls[i..][0] == ls[i] && ls[i..][1..] == ls[i + 1..];
      var parsed := env.decode(ls[i]);
      if parsed.None? {
        return Err(MalformedRow);
      }
      var row := parsed.value;
      var imagePath := Get(row, "image_path");
      if !Truthy(imagePath) {
        i := i + 1;
        continue;
      }
      if !imagePath.JString? {
        return Err(ImagePathNotString);
      }
      if !env.imageExists(imagePath.s) {
        preds := preds + [MissingRecord(row)];
        i := i + 1;
        continue;
      }
      var pred := env.caption(imagePath.s, params);
      if pred.None? {
        return Err(CaptionFailed);
      }
      preds := preds + [CaptionRecord(row, pred.value)];
      n := n + 1;
      if limit != 0 && n >= limit {
        return Ok(preds);
      }
      i := i + 1;
    }
    return Ok(preds);
  }

  // ---------------------------------------------------------------------------
  // What every batch output satisfies

  /**
   * A record of the output: it carries the row's own string image path, and
   * either the caption the captioner returned for an existing image with a
   * null error, or a null caption with the "image_not_found" marker for a
   * missing image.
   */
  predicate WellFormed(rec: Row, env: Env, params: GenerationParams) {
    var p := Get(rec, "image_path");
    p.JString? && p.s != "" &&
    "pred_text" in rec && "error" in rec &&
    if env.imageExists(p.s) then
      env.caption(p.s, params).Some? &&
      rec["error"] == JNull && rec["pred_text"] == JString(env.caption(p.s, params).value)
    else
      rec["error"] == JString(ImageNotFoundMarker) && rec["pred_text"] == JNull
  }

  predicate Inv(st: BatchState, env: Env, params: GenerationParams, limit: int) {
    match st
    case Running(preds, n) =>
      (forall k :: 0 <= k < |preds| ==> WellFormed(preds[k], env, params)) &&
      Count(preds, IsSuccess) == n && (limit > 0 ==> n < limit)
    case Stopped(preds) =>
      (forall k :: 0 <= k < |preds| ==> WellFormed(preds[k], env, params)) &&
      (limit > 0 ==> Count(preds, IsSuccess) <= limit)
    case Failed(_) => true
  }

  lemma StepKeepsInv(st: BatchState, line: string, env: Env, params: GenerationParams, limit: int)
    requires st.Running? && Inv(st, env, params, limit)
    ensures Inv(Step(st, line, env, params, limit), env, params, limit)
  {
    match env.decode(line)
    case None =>
    case Some(row) =>
      var imagePath := Get(row, "image_path");
      if Truthy(imagePath) && imagePath.JString? {
        var found := env.imageExists(imagePath.s);
        var text := env.caption(imagePath.s, params);
        if !found {
          SnocKeepsInv(st.preds, MissingRecord(row), env, params);
        } else if text.Some? {
          SnocKeepsInv(st.preds, CaptionRecord(row, text.value), env, params);
        }
      }
  }

  /** Appending a well-formed record keeps every record well formed and counts its success. */
  lemma SnocKeepsInv(preds: seq<Row>, rec: Row, env: Env, params: GenerationParams)
    requires forall k :: 0 <= k < |preds| ==> WellFormed(preds[k], env, params)
    requires WellFormed(rec, env, params)
    ensures forall k :: 0 <= k < |preds + [rec]| ==> WellFormed((preds + [rec])[k], env, params)
    ensures Count(preds + [rec], IsSuccess) == Count(preds, IsSuccess) + (if IsSuccess(rec) then 1 else 0)
  {
    CountAppend(preds, [rec], IsSuccess);
    assert [rec][..0] == [];
  }

  lemma {:induction false} RunKeepsInv(st: BatchState, ls: seq<string>, env: Env, params: GenerationParams, limit: int)
    requires Inv(st, env, params, limit)
    ensures Inv(RunFrom(st, ls, env, params, limit), env, params, limit)
    decreases |ls|
  {
    if ls != [] && st.Running? {
      StepKeepsInv(st, ls[0], env, params, limit);
      RunKeepsInv(Step(st, ls[0], env, params, limit), ls[1..], env, params, limit);
    }
  }

  /**
   * Every record of a batch output is well formed, and with a positive limit
   * at most `limit` of them are successful captions.
   */
  lemma BatchOutputShape(lines: seq<string>, env: Env, params: GenerationParams, limit: int)
    requires Batch(lines, env, params, limit).Ok?
    ensures forall k :: 0 <= k < |Batch(lines, env, params, limit).value| ==>
      WellFormed(Batch(lines, env, params, limit).value[k], env, params)
    ensures limit > 0 ==> Count(Batch(lines, env, params, limit).value, IsSuccess) <= limit
  {
    assert Inv(Running([], 0), env, params, limit);
    RunKeepsInv(Running([], 0), NonBlank(lines), env, params, limit);
  }

  // ---------------------------------------------------------------------------
  // A reference definition: map every row, then cut at the limit

  /** A row the loop gets through: its image path is a string that Path() accepts, and the
      captioner returns a caption whenever that image exists. */
  predicate RowProcessable(row: Row, env: Env, params: GenerationParams) {
    var p := Get(row, "image_path");
    p.JString? && (env.imageExists(p.s) ==> env.caption(p.s, params).Some?)
  }

  /** The record a processable row turns into. */
  function RecordFor(row: Row, env: Env, params: GenerationParams): (rec: Row)
    requires RowProcessable(row, env, params)
    ensures rec.Keys == row.Keys + {"pred_text", "error"}
    ensures forall k :: k in row && k != "pred_text" && k != "error" ==> rec[k] == row[k]
    ensures IsSuccess(rec) <==> env.imageExists(Get(row, "image_path").s)
  {
    var p := Get(row, "image_path").s;
    if env.imageExists(p) then CaptionRecord(row, env.caption(p, params).value) else MissingRecord(row)
  }

  /** Rows whose every row naming an image is processable. */
  predicate Processable(rows: seq<Row>, env: Env, params: GenerationParams) {
    forall row :: row in rows && HasImagePath(row) ==> RowProcessable(row, env, params)
  }

  /** One record per row that names an image, in row order. */
  function Records(rows: seq<Row>, env: Env, params: GenerationParams): (recs: seq<Row>)
    requires Processable(rows, env, params)
    ensures |recs| == Count(rows, HasImagePath)
  {
    if rows == [] then []
    else
      var init, last := rows[..|rows| - 1], rows[|rows| - 1];
      assert forall row :: row in init ==> row in rows;
      Records(init, env, params) + (if HasImagePath(last) then [RecordFor(last, env, params)] else [])
  }

  lemma {:induction false} RecordsCons(row: Row, rows: seq<Row>, env: Env, params: GenerationParams)
    requires Processable([row] + rows, env, params)
    ensures Processable(rows, env, params)
    ensures HasImagePath(row) ==> RowProcessable(row, env, params)
    ensures Records([row] + rows, env, params) ==
      (if HasImagePath(row) then [RecordFor(row, env, params)] else []) + Records(rows, env, params)
    decreases |rows|
  {
    assert row in [row] + rows;
    assert forall r :: r in rows ==> r in [row] + rows;
    if rows != [] {
      var init := rows[..|rows| - 1];
      assert ([row] + rows)[..|[row] + rows| - 1] == [row] + init;
      assert forall r :: r in [row] + init ==> r in [row] + rows;
      RecordsCons(row, init, env, params);
    }
  }

  /** The records kept when counting successes from `n` and stopping once the limit is hit. */
  function CapFrom(recs: seq<Row>, n: int, limit: int): (r: seq<Row>)
    ensures |r| <= |recs|
  {
    if recs == [] then []
    else if IsSuccess(recs[0]) then
      if limit != 0 && n + 1 >= limit then [recs[0]]
      else [recs[0]] + CapFrom(recs[1..], n + 1, limit)
    else [recs[0]] + CapFrom(recs[1..], n, limit)
  }

  /** One step of the batch loop on a line that decodes, stated in terms of the reference record. */
  lemma StepOnRow(acc: seq<Row>, n: int, l: string, row: Row, env: Env, params: GenerationParams, limit: int)
    requires env.decode(l) == Some(row)
    requires HasImagePath(row) ==> RowProcessable(row, env, params)
    ensures !HasImagePath(row) ==> Step(Running(acc, n), l, env, params, limit) == Running(acc, n)
    ensures HasImagePath(row) ==>
      var rec := RecordFor(row, env, params);
      Step(Running(acc, n), l, env, params, limit) ==
        if !IsSuccess(rec) then Running(acc + [rec], n)
        else if limit != 0 && n + 1 >= limit then Stopped(acc + [rec])
        else Running(acc + [rec], n + 1)
  {
  }

  lemma CapCons(rec: Row, recs: seq<Row>, n: int, limit: int)
    ensures CapFrom([rec] + recs, n, limit) ==
      if !IsSuccess(rec) then [rec] + CapFrom(recs, n, limit)
      else if limit != 0 && n + 1 >= limit then [rec]
      else [rec] + CapFrom(recs, n + 1, limit)
  {
    assert ([rec] + recs)[0] == rec && ([rec] + recs)[1..] == recs;
  }

  /** Peels the first content line off a run whose lines all decode. */
  lemma UnfoldFirstRow(acc: seq<Row>, n: int, ls: seq<string>, rows: seq<Row>, env: Env, params: GenerationParams, limit: int)
    returns (row: Row, rows': seq<Row>)
    requires ls != [] && DecodeAll(ls, env.decode) == Some(rows)
    requires Processable(rows, env, params)
    ensures env.decode(ls[0]) == Some(row) && rows == [row] + rows'
    ensures DecodeAll(ls[1..], env.decode) == Some(rows') && Processable(rows', env, params)
    ensures HasImagePath(row) ==> RowProcessable(row, env, params)
    ensures Records(rows, env, params) ==
      (if HasImagePath(row) then [RecordFor(row, env, params)] else []) + Records(rows', env, params)
    ensures RunFrom(Running(acc, n), ls, env, params, limit) ==
      RunFrom(Step(Running(acc, n), ls[0], env, params, limit), ls[1..], env, params, limit)
  {
    var l, rest := ls[0], ls[1..];
    assert ls == [l] + rest;
    DecodeAllCons(l, rest, env.decode);
    row := env.decode(l).value;
    rows' := DecodeAll(rest, env.decode).value;
    RecordsCons(row, rows', env, params);
  }

  lemma {:induction false} RunMatchesReference(
    acc: seq<Row>, n: int, ls: seq<string>, rows: seq<Row>, env: Env, params: GenerationParams, limit: int)
    requires DecodeAll(ls, env.decode) == Some(rows)
    requires Processable(rows, env, params)
    ensures Outcome(RunFrom(Running(acc, n), ls, env, params, limit)) ==
      Ok(acc + CapFrom(Records(rows, env, params), n, limit))
    decreases |ls|, 2
  {
    if ls == [] {
      assert rows == [];
      assert acc + [] == acc;
    } else {
      var row, rows' := UnfoldFirstRow(acc, n, ls, rows, env, params, limit);
      if !HasImagePath(row) {
        StepOnRow(acc, n, ls[0], row, env, params, limit);
        assert Records(rows, env, params) == Records(rows', env, params);
        RunMatchesReference(acc, n, ls[1..], rows', env, params, limit);
      } else {
        RunMatchesReferenceNamed(acc, n, ls, row, rows', env, params, limit);
      }
    }
  }

  /** The case of RunMatchesReference where the first row names an image. */
  lemma {:induction false} RunMatchesReferenceNamed(
    acc: seq<Row>, n: int, ls: seq<string>, row: Row, rows': seq<Row>, env: Env, params: GenerationParams, limit: int)
    requires ls != [] && env.decode(ls[0]) == Some(row)
    requires DecodeAll(ls[1..], env.decode) == Some(rows') && Processable(rows', env, params)
    requires HasImagePath(row) && RowProcessable(row, env, params)
    ensures Outcome(RunFrom(Running(acc, n), ls, env, params, limit)) ==
      Ok(acc + CapFrom([RecordFor(row, env, params)] + Records(rows', env, params), n, limit))
    decreases |ls|, 1
  {
    assert RunFrom(Running(acc, n), ls, env, params, limit) ==
      RunFrom(Step(Running(acc, n), ls[0], env, params, limit), ls[1..], env, params, limit);
    StepOnRow(acc, n, ls[0], row, env, params, limit);
    var rec := RecordFor(row, env, params);
    CapCons(rec, Records(rows', env, params), n, limit);
    if !IsSuccess(rec) {
      RunMatchesReferenceAfter(acc, rec, n, ls[1..], rows', env, params, limit);
    } else if !(limit != 0 && n + 1 >= limit) {
      RunMatchesReferenceAfter(acc, rec, n + 1, ls[1..], rows', env, params, limit);
    }
  }

  /** The rest of the run once `rec` has been appended to the predictions. */
  lemma {:induction false} RunMatchesReferenceAfter(
    acc: seq<Row>, rec: Row, n: int, rest: seq<string>, rows': seq<Row>, env: Env, params: GenerationParams, limit: int)
    requires DecodeAll(rest, env.decode) == Some(rows') && Processable(rows', env, params)
    ensures Outcome(RunFrom(Running(acc + [rec], n), rest, env, params, limit)) ==
      Ok(acc + ([rec] + CapFrom(Records(rows', env, params), n, limit)))
    decreases |rest| + 1, 0
  {
    RunMatchesReference(acc + [rec], n, rest, rows', env, params, limit);
    assert acc + ([rec] + CapFrom(Records(rows', env, params), n, limit)) ==
      (acc + [rec]) + CapFrom(Records(rows', env, params), n, limit);
  }

  /**
   * When every content line decodes and every row naming an image is
   * processable, the batch output is the reference: one record per row naming an image, in
   * order, cut right after the limit-th successful caption.
   */
  lemma BatchMatchesReference(lines: seq<string>, env: Env, params: GenerationParams, limit: int)
    requires DecodeAll(NonBlank(lines), env.decode).Some?
    requires Processable(DecodeAll(NonBlank(lines), env.decode).value, env, params)
    ensures Batch(lines, env, params, limit) ==
      Ok(CapFrom(Records(DecodeAll(NonBlank(lines), env.decode).value, env, params), 0, limit))
  {
    var rows := DecodeAll(NonBlank(lines), env.decode).value;
    RunMatchesReference([], 0, NonBlank(lines), rows, env, params, limit);
    assert [] + CapFrom(Records(rows, env, params), 0, limit) == CapFrom(Records(rows, env, params), 0, limit);
  }

  /** A line that does not decode makes the whole batch fail, even after the limit would stop it. */
  lemma {:induction false} RunFailsOnBadLine(
    acc: seq<Row>, n: int, ls: seq<string>, env: Env, params: GenerationParams, limit: int)
    requires limit == 0 || (limit > 0 && n + |ls| < limit)
    requires DecodeAll(ls, env.decode).None?
    ensures RunFrom(Running(acc, n), ls, env, params, limit).Failed?
    decreases |ls|
  {
    var l, rest := ls[0], ls[1..];
    assert ls == [l] + rest;
    DecodeAllCons(l, rest, env.decode);
    var st := Step(Running(acc, n), l, env, params, limit);
    if st.Running? {
      RunFailsOnBadLine(st.preds, st.n, rest, env, params, limit);
    }
  }

  /**
   * A row that names an image but is not processable (its path is not a
   * string, or its image exists and the captioner raises) makes the whole
   * batch fail when the limit cannot stop the run before it.
   */
  lemma {:induction false} RunFailsOnUnprocessableRow(
    acc: seq<Row>, n: int, ls: seq<string>, rows: seq<Row>, env: Env, params: GenerationParams, limit: int)
    requires limit == 0 || (limit > 0 && n + |ls| < limit)
    requires DecodeAll(ls, env.decode) == Some(rows) && !Processable(rows, env, params)
    ensures RunFrom(Running(acc, n), ls, env, params, limit).Failed?
    decreases |ls|
  {
    if ls == [] {
      assert false;
    } else {
      var l, rest := ls[0], ls[1..];
      assert ls == [l] + rest;
      DecodeAllCons(l, rest, env.decode);
      var row, rows' := env.decode(l).value, DecodeAll(rest, env.decode).value;
      assert rows == [row] + rows';
      var st := Step(Running(acc, n), l, env, params, limit);
      if st.Running? {
        assert !HasImagePath(row) || RowProcessable(row, env, params);
        assert !Processable(rows', env, params);
        RunFailsOnUnprocessableRow(st.preds, st.n, rest, rows', env, params, limit);
      }
    }
  }

  /** The limit caps the output: it is a prefix of the reference records. */
  lemma {:induction false} CapIsPrefix(recs: seq<Row>, n: int, limit: int)
    ensures CapFrom(recs, n, limit) == recs[..|CapFrom(recs, n, limit)|]
    decreases |recs|
  {
    if recs != [] {
      CapIsPrefix(recs[1..], n + 1, limit);
      CapIsPrefix(recs[1..], n, limit);
    }
  }

  /** A limit of 0 means no limit: every record is kept. */
  lemma {:induction false} CapNoLimit(recs: seq<Row>, n: int)
    ensures CapFrom(recs, n, 0) == recs
    decreases |recs|
  {
    if recs != [] {
      CapNoLimit(recs[1..], n + 1);
      CapNoLimit(recs[1..], n);
      assert recs == [recs[0]] + recs[1..];
    }
  }

  /**
   * The cut happens only at the limit: if records were dropped, the last one
   * kept is a success and exactly `limit - n` successes were kept (or the
   * first success already reached a limit at or below `n`).
   */
  lemma {:induction false} CapStopsAtLimit(recs: seq<Row>, n: int, limit: int)
    requires limit > 0 && n < limit
    ensures Count(CapFrom(recs, n, limit), IsSuccess) <= limit - n
    ensures |CapFrom(recs, n, limit)| < |recs| ==>
      IsSuccess(CapFrom(recs, n, limit)[|CapFrom(recs, n, limit)| - 1]) &&
      Count(CapFrom(recs, n, limit), IsSuccess) == limit - n
    decreases |recs|
  {
    if recs != [] {
      var x, rest := recs[0], recs[1..];
      assert recs == [x] + rest;
      CapCons(x, rest, n, limit);
      var m := if IsSuccess(x) then n + 1 else n;
      if IsSuccess(x) && n + 1 >= limit {
        CountCons(x, [], IsSuccess);
        assert [x][..0] == [];
      } else {
        var tail := CapFrom(rest, m, limit);
        CapStopsAtLimit(rest, m, limit);
        CountCons(x, tail, IsSuccess);
        assert CapFrom(recs, n, limit) == [x] + tail;
        if |tail| > 0 {
          assert ([x] + tail)[|[x] + tail| - 1] == tail[|tail| - 1];
        }
      }
    }
  }

  /**
   * `if args.limit and n >= args.limit` is already true after the first
   * caption when the limit is negative: at most one image is captioned.
   */
  lemma {:induction false} CapNegativeLimit(recs: seq<Row>, n: int, limit: int)
    requires limit < 0 && n >= 0
    ensures Count(CapFrom(recs, n, limit), IsSuccess) <= 1
    decreases |recs|
  {
    if recs != [] {
      var x, rest := recs[0], recs[1..];
      assert recs == [x] + rest;
      CapCons(x, rest, n, limit);
      if IsSuccess(x) {
        CountCons(x, [], IsSuccess);
        assert [x][..0] == [];
      } else {
        CapNegativeLimit(rest, n, limit);
        CountCons(x, CapFrom(rest, n, limit), IsSuccess);
      }
    }
  }
}
