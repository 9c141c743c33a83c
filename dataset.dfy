/** The sample store: a JSON-lines file of `{image_path, text}` rows, filtered down to the rows
    whose two fields are both present and truthy, held as an indexable list of samples. */
module Dataset {
  import opened Results
  import opened Seqs
  import opened Json
  import opened JsonLines

  /** One training example; both fields are non-empty once it has passed the filter. */
  datatype Sample = Sample(imagePath: string, text: string)

  datatype IndexError = IndexError

  /** `if not ip or not txt: continue` lets exactly these rows through. */
  predicate IsValidRow(row: Row)
    ensures IsValidRow(row) ==> "image_path" in row && "text" in row
  {
    Truthy(Get(row, "image_path")) && Truthy(Get(row, "text"))
  }

  /** `Sample(image_path=str(ip), text=str(txt))`. */
  function ToSample(row: Row): (s: Sample)
    ensures IsValidRow(row) ==> s.imagePath != "" && s.text != ""
    ensures Get(row, "image_path").JString? ==> s.imagePath == Get(row, "image_path").s
    ensures Get(row, "text").JString? ==> s.text == Get(row, "text").s
  {
    var ip := Get(row, "image_path");
    var txt := Get(row, "text");
    StrSpec(ip);
    StrSpec(txt);
    Sample(Str(ip), Str(txt))
  }

  /** The samples that `__init__` keeps from the loaded rows. */
  function Clean(raw: seq<Row>): seq<Sample>
  {
    FilterMap(raw, IsValidRow, ToSample)
  }

  /** A row yields a sample exactly when both fields are truthy; the samples keep the rows'
      order, one per valid row, and there are never more samples than rows. */
  lemma CleanSpec(raw: seq<Row>)
    ensures |Clean(raw)| == Count(raw, IsValidRow) <= |raw|
    ensures |KeptPositions(raw, IsValidRow)| == |Clean(raw)|
    ensures forall i :: 0 <= i < |raw| ==> (i in KeptPositions(raw, IsValidRow) <==> IsValidRow(raw[i]))
    ensures forall j :: 0 <= j < |Clean(raw)| ==>
              KeptPositions(raw, IsValidRow)[j] < |raw|
              && Clean(raw)[j] == ToSample(raw[KeptPositions(raw, IsValidRow)[j]])
    ensures forall j, k :: 0 <= j < k < |Clean(raw)| ==>
              KeptPositions(raw, IsValidRow)[j] < KeptPositions(raw, IsValidRow)[k]
  {
    FilterMapCharacterization(raw, IsValidRow, ToSample);
  }

  /** Every kept sample has a non-empty image path and a non-empty text. */
  lemma {:induction false} CleanSamplesNonEmpty(raw: seq<Row>)
    ensures forall s :: s in Clean(raw) ==> s.imagePath != "" && s.text != ""
  {
    if raw != [] {
      CleanSamplesNonEmpty(raw[..|raw| - 1]);
    }
  }

  /** `ProductCaptionDataset`: `rows` is the list that `__init__` leaves in `self.rows`;
      `source` records the rows `load_jsonl` returned, which `__init__` first stored there. */
  class ProductCaptionDataset {
    var rows: seq<Sample>
    ghost var source: seq<Row>

    ghost predicate Valid()
      reads this
    {
      rows == Clean(source)
    }

    /** The filtering part of `__init__`, over the rows `load_jsonl` returned. */
    constructor (raw: seq<Row>)
      ensures Valid() && source == raw
    {
      var clean: seq<Sample> := [];
      var i := 0;
      while i < |raw|
        invariant 0 <= i <= |raw|
        invariant clean == Clean(raw[..i])
      {
        var r := raw[i];
        assert raw[..i + 1] == raw[..i] + [r];
        FilterMapSnoc(raw[..i], r, IsValidRow, ToSample);
        var ip := Get(r, "image_path");
        var txt := Get(r, "text");
        if !Truthy(ip) || !Truthy(txt) {
          i := i + 1;
          continue;
        }
        clean := clean + [ToSample(r)];
        i := i + 1;
      }
      assert raw[..i] == raw;
      rows := clean;
      source := raw;
    }

    /** `__len__`: the number of valid rows of the file, never more than its rows. */
    method Len() returns (n: nat)
      requires Valid()
      ensures n == |rows|
      ensures n == Count(source, IsValidRow) && n <= |source|
    {
      CleanSpec(source);
      n := |rows|;
    }

    /** `__getitem__`: Python list indexing, including negative indices counted from the end;
        any other index raises `IndexError`. A sample handed out always has both fields. */
    method GetItem(idx: int) returns (r: Result<Sample, IndexError>)
      requires Valid()
      ensures 0 <= idx < |rows| ==> r == Ok(rows[idx])
      ensures -|rows| <= idx < 0 ==> r == Ok(rows[|rows| + idx])
      ensures (idx < -|rows| || |rows| <= idx) ==> r == Err(IndexError)
      ensures r.Ok? ==> r.value.imagePath != "" && r.value.text != ""
    {
      CleanSamplesNonEmpty(source);
      if 0 <= idx < |rows| {
        r := Ok(rows[idx]);
      } else if -|rows| <= idx < 0 {
        r := Ok(rows[|rows| + idx]);
      } else {
        r := Err(IndexError);
      }
    }
  }

  /** `ProductCaptionDataset(jsonl_path)`: loading fails as `load_jsonl` does; otherwise the
      dataset holds the valid rows of the file, in file order. */
  method OpenDataset(file: Option<seq<string>>, decode: string -> Option<Row>)
    returns (r: Result<ProductCaptionDataset, LoadError>)
    ensures file.None? ==> r == Err(FileNotFound)
    ensures file.Some? ==> (r.Ok? <==> DecodeAll(NonBlank(file.value), decode).Some?)
    ensures r.Err? && file.Some? ==> r.error == MalformedLine
    ensures r.Ok? ==> fresh(r.value) && r.value.Valid()
    ensures r.Ok? ==> file.Some? && DecodeAll(NonBlank(file.value), decode) == Some(r.value.source)
  {
    var loaded := LoadJsonl(file, decode);
    if loaded.Err? {
      return Err(loaded.error);
    }
    var ds := new ProductCaptionDataset(loaded.value);
    return Ok(ds);
  }
}
