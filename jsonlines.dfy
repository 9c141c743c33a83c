/** Reading a JSON-lines file: every line is stripped, blank lines are skipped and each
    remaining line is decoded by `json.loads`, which is a parameter here (`decode`).
    `decode` answers `None` when `json.loads` raises, and also when the line holds a JSON
    value other than an object, on which the next `row.get` raises. */
module JsonLines {
  import opened Results
  import opened Seqs
  import opened Text
  import opened Json

  datatype LoadError = FileNotFound | MalformedLine

  /** A line that survives `line.strip()` as non-empty text. */
  predicate IsContentLine(line: string)
  {
    Strip(line) != ""
  }

  /** The stripped non-blank lines of a file, in file order. */
  function NonBlank(lines: seq<string>): seq<string>
  {
    FilterMap(lines, IsContentLine, Strip)
  }

  /** Decoding every line, failing as soon as one line does not decode. */
  function DecodeAll(ls: seq<string>, decode: string -> Option<Row>): (r: Option<seq<Row>>)
    ensures r.Some? ==> |r.value| == |ls| && forall i :: 0 <= i < |ls| ==> decode(ls[i]) == Some(r.value[i])
    ensures r.None? <==> exists i :: 0 <= i < |ls| && decode(ls[i]).None?
  {
    if ls == [] then Some([])
    else
      var init := ls[..|ls| - 1];
      match DecodeAll(init, decode)
      case None =>
        assert exists i :: 0 <= i < |init| && decode(init[i]).None?;
        None
      case Some(rows) =>
        match decode(ls[|ls| - 1])
        case None => None
        case Some(row) => Some(rows + [row])
  }

  /** A line that does not decode makes the whole file fail, whatever follows it. */
  lemma DecodeAllPrefixFails(xs: seq<string>, ys: seq<string>, decode: string -> Option<Row>)
    requires DecodeAll(xs, decode).None?
    ensures DecodeAll(xs + ys, decode).None?
  {
    var i :| 0 <= i < |xs| && decode(xs[i]).None?;
    assert (xs + ys)[i] == xs[i];
  }

  /** Decoding the first line and then the rest gives the same rows as decoding all lines. */
  lemma {:induction false} DecodeAllCons(l: string, ls: seq<string>, decode: string -> Option<Row>)
    ensures decode(l).None? ==> DecodeAll([l] + ls, decode).None?
    ensures decode(l).Some? && DecodeAll(ls, decode).None? ==> DecodeAll([l] + ls, decode).None?
    ensures decode(l).Some? && DecodeAll(ls, decode).Some? ==>
              DecodeAll([l] + ls, decode) == Some([decode(l).value] + DecodeAll(ls, decode).value)
    decreases |ls|
  {
    if ls == [] {
      assert [l] + ls == [] + [l];
      DecodeAllSnoc([], l, decode);
      assert DecodeAll(ls, decode) == Some([]);
      if decode(l).Some? {
        assert DecodeAll([] + [l], decode) == Some([] + [decode(l).value]);
        assert [] + [decode(l).value] == [decode(l).value] + [];
      }
    } else {
      var init := ls[..|ls| - 1];
      var x := ls[|ls| - 1];
      assert [l] + ls == ([l] + init) + [x];
      assert ls == init + [x];
      DecodeAllCons(l, init, decode);
      DecodeAllSnoc([l] + init, x, decode);
      DecodeAllSnoc(init, x, decode);
      if decode(l).Some? && DecodeAll(init, decode).Some? && decode(x).Some? {
        var a, b, c := [decode(l).value], DecodeAll(init, decode).value, [decode(x).value];
        assert (a + b) + c == a + (b + c);
      }
    }
  }

  /** Decoding one more line: the form a left-to-right loop consumes. */
  lemma DecodeAllSnoc(ls: seq<string>, l: string, decode: string -> Option<Row>)
    ensures DecodeAll(ls + [l], decode) ==
              match DecodeAll(ls, decode)
              case None => None
              case Some(rows) =>
                match decode(l)
                case None => None
                case Some(row) => Some(rows + [row])
  {
    assert (ls + [l])[..|ls|] == ls;
  }

  /** Reading one more line of the file. */
  lemma NonBlankSnoc(lines: seq<string>, i: nat)
    requires i < |lines|
    ensures NonBlank(lines[..i + 1]) == NonBlank(lines[..i]) + (if Strip(lines[i]) != "" then [Strip(lines[i])] else [])
  {
    assert lines[..i + 1] == lines[..i] + [lines[i]];
    FilterMapSnoc(lines[..i], lines[i], IsContentLine, Strip);
  }

  /** Lines that do not decode make the whole file fail, whatever follows them. */
  lemma NonBlankPrefixFails(lines: seq<string>, i: nat, decode: string -> Option<Row>)
    requires i <= |lines|
    requires DecodeAll(NonBlank(lines[..i]), decode).None?
    ensures DecodeAll(NonBlank(lines), decode).None?
  {
    assert lines == lines[..i] + lines[i..];
    FilterMapAppend(lines[..i], lines[i..], IsContentLine, Strip);
    DecodeAllPrefixFails(NonBlank(lines[..i]), NonBlank(lines[i..]), decode);
  }

  /** `load_jsonl`: one decoded row per non-blank line, in file order; a missing file raises
      `FileNotFoundError` and an undecodable line aborts the whole load. */
  method LoadJsonl(file: Option<seq<string>>, decode: string -> Option<Row>)
    returns (r: Result<seq<Row>, LoadError>)
    ensures file.None? ==> r == Err(FileNotFound)
    ensures file.Some? ==> (r.Ok? <==> DecodeAll(NonBlank(file.value), decode).Some?)
    ensures file.Some? && r.Ok? ==> DecodeAll(NonBlank(file.value), decode) == Some(r.value)
    ensures file.Some? && r.Err? ==> r.error == MalformedLine
  {
    if file.None? {
      return Err(FileNotFound);
    }
    var lines := file.value;
    var rows: seq<Row> := [];
    var i := 0;
    while i < |lines|
      invariant 0 <= i <= |lines|
      invariant DecodeAll(NonBlank(lines[..i]), decode) == Some(rows)
    {
      NonBlankSnoc(lines, i);
      var line := Strip(lines[i]);
      if line == "" {
        assert NonBlank(lines[..i + 1]) == NonBlank(lines[..i]);
        i := i + 1;
        continue;
      }
      DecodeAllSnoc(NonBlank(lines[..i]), line, decode);
      var parsed := decode(line);
      if parsed.None? {
        NonBlankPrefixFails(lines, i + 1, decode);
        return Err(MalformedLine);
      }
      assert NonBlank(lines[..i + 1]) == NonBlank(lines[..i]) + [line];
      rows := rows + [parsed.value];
      i := i + 1;
    }
    assert lines[..i] == lines;
    return Ok(rows);
  }

  /** One line per non-blank input line, each of them stripped and non-empty, in file order:
      the i-th result is the stripped form of an input line at a strictly increasing position,
      and every line with content is among those positions. */
  lemma NonBlankSpec(lines: seq<string>)
    ensures |NonBlank(lines)| <= |lines|
    ensures |KeptPositions(lines, IsContentLine)| == |NonBlank(lines)|
    ensures forall j :: 0 <= j < |KeptPositions(lines, IsContentLine)| ==> KeptPositions(lines, IsContentLine)[j] < |lines|
    ensures forall j :: 0 <= j < |NonBlank(lines)| ==>
              NonBlank(lines)[j] != "" && NonBlank(lines)[j] == Strip(NonBlank(lines)[j])
    ensures forall j :: 0 <= j < |KeptPositions(lines, IsContentLine)| ==>
              NonBlank(lines)[j] == Strip(lines[KeptPositions(lines, IsContentLine)[j]])
    ensures forall j, k :: 0 <= j < k < |KeptPositions(lines, IsContentLine)| ==>
              KeptPositions(lines, IsContentLine)[j] < KeptPositions(lines, IsContentLine)[k]
    ensures forall i :: 0 <= i < |lines| && IsContentLine(lines[i]) ==> i in KeptPositions(lines, IsContentLine)
  {
    FilterMapCharacterization(lines, IsContentLine, Strip);
    forall j | 0 <= j < |NonBlank(lines)|
      ensures NonBlank(lines)[j] == Strip(NonBlank(lines)[j])
    {
      StripIdempotent(lines[KeptPositions(lines, IsContentLine)[j]]);
    }
  }

  /** A blank or whitespace-only line produces nothing, and every other line produces its
      stripped text exactly once, in order. */
  lemma NonBlankSkipsOnlyWhitespace(lines: seq<string>)
    ensures forall i :: 0 <= i < |lines| ==>
              ((forall k :: 0 <= k < |lines[i]| ==> IsSpace(lines[i][k])) <==> i !in KeptPositions(lines, IsContentLine))
    ensures forall j, k :: 0 <= j < k < |KeptPositions(lines, IsContentLine)| ==>
              KeptPositions(lines, IsContentLine)[j] < KeptPositions(lines, IsContentLine)[k]
  {
    FilterMapCharacterization(lines, IsContentLine, Strip);
    forall i | 0 <= i < |lines|
      ensures (forall k :: 0 <= k < |lines[i]| ==> IsSpace(lines[i][k])) <==> i !in KeptPositions(lines, IsContentLine)
    {
      StripEmptyIff(lines[i]);
    }
  }

  /** Stripping twice is stripping once. */
  lemma StripIdempotent(s: string)
    ensures Strip(Strip(s)) == Strip(s)
  {
    StripSpec(s);
    var t := Strip(s);
    if t != [] {
      assert TrimStart(t) == t;
      assert TrimEnd(t) == t;
    }
  }
}
