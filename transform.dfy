/** `_transform_csv`: copies a delimited record set to an output stream,
    normalising every field whose column name ends in `_date`, and diverts
    each record that cannot be normalised to an error stream as a message.

    Records arrive already split into fields (the `csv.reader` of the
    source); a record is written back as its fields joined by the delimiter
    followed by the line terminator (the `csv.writer`). */
module RowTransform {
  import opened Base
  import opened Dates

  const DATE_SUFFIX := "_date"

  /** `str(e)` of the `IndexError` raised by `row[i]` past the end of a list. */
  const INDEX_ERROR := "list index out of range"

  type Record = seq<string>

  /** What the handling of one data record produced: the record to write, or
      the reason it failed together with the record as it stood then. */
  datatype RowOutcome = Written(fields: Record) | Diverted(reason: string, fields: Record)

  /** The positions of the header whose name ends in `_date`, in increasing order. */
  function DateIndexes(header: Record): seq<nat>
  {
    if header == [] then []
    else
      var n := |header| - 1;
      DateIndexes(header[..n]) + (if EndsWith(header[n], DATE_SUFFIX) then [n] else [])
  }

  predicate Increasing(xs: seq<nat>)
  {
    forall j, k :: 0 <= j < k < |xs| ==> xs[j] < xs[k]
  }

  /** The date columns are exactly the header positions named `..._date`,
      listed in increasing order. */
  lemma {:induction false} DateIndexesExact(header: Record)
    ensures forall i :: i in DateIndexes(header) <==> 0 <= i < |header| && EndsWith(header[i], DATE_SUFFIX)
    ensures Increasing(DateIndexes(header))
  {
    if header != [] {
      var n := |header| - 1;
      DateIndexesExact(header[..n]);
      var prefix, last := DateIndexes(header[..n]), if EndsWith(header[n], DATE_SUFFIX) then [n] else [];
      assert DateIndexes(header) == prefix + last;
      assert forall i :: 0 <= i < n ==> header[..n][i] == header[i];
      assert forall i :: i in prefix ==> i < n;
      forall j, k | 0 <= j < k < |prefix + last|
        ensures (prefix + last)[j] < (prefix + last)[k]
      {
        if k >= |prefix| {
          assert (prefix + last)[j] in prefix;
        }
      }
    }
  }

  /** `row[i] = format_date_str(row[i])` for each date index in turn, the row
      being updated in place: the first failure stops the loop and leaves the
      earlier fields already normalised. */
  function ApplyDates(row: Record, idxs: seq<nat>): (r: RowOutcome)
    ensures |r.fields| == |row|
    ensures forall i :: 0 <= i < |row| && i !in idxs ==> r.fields[i] == row[i]
    decreases |idxs|
  {
    if idxs == [] then Written(row)
    else if idxs[0] >= |row| then Diverted(INDEX_ERROR, row)
    else match FormatDateStr(row[idxs[0]])
      case Err(e) => Diverted(e.Message(), row)
      case Ok(v) => ApplyDates(row[idxs[0] := v], idxs[1..])
  }

  /** Field `i` of `row` exists and normalises. */
  predicate Parses(row: Record, i: nat)
  {
    i < |row| && FormatDateStr(row[i]).Ok?
  }

  predicate AllParse(row: Record, idxs: seq<nat>)
  {
    forall k :: 0 <= k < |idxs| ==> Parses(row, idxs[k])
  }

  /** The normalised value of a field, or the field itself when it does not normalise. */
  function Normalized(v: string): string
  {
    match FormatDateStr(v)
    case Ok(d) => d
    case Err(_) => v
  }

  /** `row` with the fields at `idxs` normalised and every other field as it was. */
  function NormalizeAt(row: Record, idxs: seq<nat>): (r: Record)
    ensures |r| == |row|
  {
    seq(|row|, i requires 0 <= i < |row| => if i in idxs then Normalized(row[i]) else row[i])
  }

  /** Why the date field at `i` fails: the index is past the record's end, or its value does not parse. */
  function FailureReason(row: Record, i: nat): string
  {
    if i >= |row| then INDEX_ERROR
    else match FormatDateStr(row[i])
      case Err(e) => e.Message()
      case Ok(_) => ""
  }

  /** Normalising field `i0` first and then the fields at `rest` is
      normalising the fields at `[i0] + rest`. */
  lemma NormalizeStep(row: Record, i0: nat, rest: seq<nat>)
    requires i0 < |row| && i0 !in rest
    ensures NormalizeAt(row[i0 := Normalized(row[i0])], rest) == NormalizeAt(row, [i0] + rest)
  {
    var row' := row[i0 := Normalized(row[i0])];
    forall i | 0 <= i < |row|
      ensures NormalizeAt(row', rest)[i] == NormalizeAt(row, [i0] + rest)[i]
    {
    }
  }

  /** One step of `ApplyDates`: when the first date field normalises, the
      rest is processed on the row updated at that field. */
  lemma ApplyDatesStep(row: Record, idxs: seq<nat>)
    requires idxs != [] && Parses(row, idxs[0])
    ensures ApplyDates(row, idxs) == ApplyDates(row[idxs[0] := Normalized(row[idxs[0]])], idxs[1..])
  {
  }

  lemma IncreasingTail(idxs: seq<nat>)
    requires Increasing(idxs) && idxs != []
    ensures Increasing(idxs[1..])
    ensures idxs[0] !in idxs[1..]
  {
  }

  /** Updating field `i0` leaves the other fields' parsing as it was, so the
      fields at `rest` all parse before the update iff they do after it. */
  lemma AllParseStep(row: Record, i0: nat, rest: seq<nat>)
    requires Parses(row, i0) && i0 !in rest
    ensures AllParse(row, [i0] + rest) <==> AllParse(row[i0 := Normalized(row[i0])], rest)
  {
    var row' := row[i0 := Normalized(row[i0])];
    forall k | 0 <= k < |rest|
      ensures Parses(row', rest[k]) <==> Parses(row, rest[k])
    {
      assert rest[k] != i0;
    }
    if AllParse(row, [i0] + rest) {
      forall k | 0 <= k < |rest|
        ensures Parses(row', rest[k])
      {
        assert ([i0] + rest)[k + 1] == rest[k];
      }
    }
    if AllParse(row', rest) {
      forall k | 0 <= k < |[i0] + rest|
        ensures Parses(row, ([i0] + rest)[k])
      {
        if k > 0 {
          assert ([i0] + rest)[k] == rest[k - 1];
        }
      }
    }
  }

  /** A record is written iff every date field exists and normalises; it is
      then written with exactly its date fields normalised. */
  lemma {:induction false} ApplyDatesWritten(row: Record, idxs: seq<nat>)
    requires Increasing(idxs)
    ensures ApplyDates(row, idxs).Written? <==> AllParse(row, idxs)
    ensures ApplyDates(row, idxs).Written? ==> ApplyDates(row, idxs).fields == NormalizeAt(row, idxs)
    decreases |idxs|
  {
    if idxs == [] {
      assert NormalizeAt(row, idxs) == row;
    } else if !Parses(row, idxs[0]) {
    } else {
      var i0, rest := idxs[0], idxs[1..];
      assert idxs == [i0] + rest;
      var row' := row[i0 := Normalized(row[i0])];
      IncreasingTail(idxs);
      ApplyDatesStep(row, idxs);
      ApplyDatesWritten(row', rest);
      AllParseStep(row, i0, rest);
      NormalizeStep(row, i0, rest);
    }
  }

  /** The first failing date index at position `k` of `idxs` explains a diverted record. */
  ghost predicate DivertedAt(row: Record, idxs: seq<nat>, k: nat, outcome: RowOutcome)
  {
    k < |idxs| && AllParse(row, idxs[..k]) && !Parses(row, idxs[k])
    && outcome == Diverted(FailureReason(row, idxs[k]), NormalizeAt(row, idxs[..k]))
  }

  /** A diverted record stops at the first failing date index, carries the
      reason of that failure, and shows the date fields before that index
      already normalised. */
  lemma {:induction false} ApplyDatesDiverted(row: Record, idxs: seq<nat>)
    requires Increasing(idxs)
    requires ApplyDates(row, idxs).Diverted?
    ensures exists k :: DivertedAt(row, idxs, k, ApplyDates(row, idxs))
    decreases |idxs|
  {
    if !Parses(row, idxs[0]) {
      assert NormalizeAt(row, idxs[..0]) == row;
      assert DivertedAt(row, idxs, 0, ApplyDates(row, idxs));
    } else {
      var i0, rest := idxs[0], idxs[1..];
      var row' := row[i0 := Normalized(row[i0])];
      IncreasingTail(idxs);
      ApplyDatesStep(row, idxs);
      ApplyDatesDiverted(row', rest);
      var k: nat :| DivertedAt(row', rest, k, ApplyDates(row', rest));
      assert idxs[..k + 1] == [i0] + rest[..k];
      assert rest[k] == idxs[k + 1];
      assert i0 !in rest[..k];
      NormalizeStep(row, i0, rest[..k]);
      AllParseStep(row, i0, rest[..k]);
      assert !Parses(row, idxs[k + 1]) by {
        assert rest[k] != i0;
      }
      assert FailureReason(row', rest[k]) == FailureReason(row, rest[k]) by {
        assert rest[k] != i0;
      }
      assert DivertedAt(row, idxs, k + 1, ApplyDates(row, idxs));
    }
  }

  /** Python's `repr` of a list of strings, as `%s` formats it. */
  function ListRepr(fields: Record): string
  {
    "[" + Join(Quoted(fields), ", ") + "]"
  }

  function Quoted(fields: Record): (q: seq<string>)
    ensures |q| == |fields|
  {
    if fields == [] then [] else ["'" + fields[0] + "'"] + Quoted(fields[1..])
  }

  /** The message written to the error stream: it starts with "Error " and
      the reason, and ends with the record's closing bracket, so it carries
      no terminator. */
  function ErrorMessage(reason: string, fields: Record): (m: string)
    ensures "Error " + reason <= m
    ensures m[|m| - 1] == ']'
  {
    "Error " + reason + " transforming row:\n" + ListRepr(fields)
  }

  /** `csv_writer.writerow(fields)`: the row starts with its first field
      and ends with the line terminator. */
  function RenderRow(fields: Record, delimiter: string, terminator: string): (line: string)
    ensures EndsWith(line, terminator)
    ensures fields != [] ==> fields[0] <= line
  {
    Join(fields, delimiter) + terminator
  }

  function RenderAll(rows: seq<Record>, delimiter: string, terminator: string): (lines: seq<string>)
    ensures |lines| == |rows|
  {
    if rows == [] then []
    else RenderAll(rows[..|rows| - 1], delimiter, terminator) + [RenderRow(rows[|rows| - 1], delimiter, terminator)]
  }

  lemma {:induction false} RenderAllAt(rows: seq<Record>, delimiter: string, terminator: string, k: nat)
    requires k < |rows|
    ensures RenderAll(rows, delimiter, terminator)[k] == RenderRow(rows[k], delimiter, terminator)
  {
    if k < |rows| - 1 {
      RenderAllAt(rows[..|rows| - 1], delimiter, terminator, k);
    }
  }

  /** What each data record comes to, in input order. */
  function Outcomes(rows: seq<Record>, idxs: seq<nat>): (os: seq<RowOutcome>)
    ensures |os| == |rows|
  {
    seq(|rows|, i requires 0 <= i < |rows| => ApplyDates(rows[i], idxs))
  }

  /** What one record contributes to the output: its fields when written. */
  function WrittenPart(outcome: RowOutcome): seq<Record>
  {
    if outcome.Written? then [outcome.fields] else []
  }

  /** What one record contributes to the error stream: its message when diverted. */
  function MessagePart(outcome: RowOutcome): seq<string>
  {
    if outcome.Diverted? then [ErrorMessage(outcome.reason, outcome.fields)] else []
  }

  /** The written records among `os`, in order. */
  function WrittenRows(os: seq<RowOutcome>): seq<Record>
  {
    if os == [] then [] else WrittenRows(os[..|os| - 1]) + WrittenPart(os[|os| - 1])
  }

  /** The error messages among `os`, in order. */
  function Messages(os: seq<RowOutcome>): seq<string>
  {
    if os == [] then [] else Messages(os[..|os| - 1]) + MessagePart(os[|os| - 1])
  }

  /** The data records that reach the output, in their normalised form and in input order. */
  function Survivors(rows: seq<Record>, idxs: seq<nat>): seq<Record>
  {
    WrittenRows(Outcomes(rows, idxs))
  }

  /** The messages written to the error stream, in input order. */
  function ErrorMessages(rows: seq<Record>, idxs: seq<nat>): seq<string>
  {
    Messages(Outcomes(rows, idxs))
  }

  lemma OutcomesPrefix(rows: seq<Record>, idxs: seq<nat>, n: nat)
    requires n <= |rows|
    ensures Outcomes(rows[..n], idxs) == Outcomes(rows, idxs)[..n]
  {
  }

  lemma OutcomesSnoc(rows: seq<Record>, idxs: seq<nat>, n: nat)
    requires n < |rows|
    ensures Outcomes(rows[..n + 1], idxs) == Outcomes(rows[..n], idxs) + [ApplyDates(rows[n], idxs)]
  {
  }

  lemma RenderAllSnoc(rows: seq<Record>, row: Record, delimiter: string, terminator: string)
    ensures RenderAll(rows + [row], delimiter, terminator)
            == RenderAll(rows, delimiter, terminator) + [RenderRow(row, delimiter, terminator)]
  {
    assert (rows + [row])[..|rows|] == rows;
  }

  /** The record loop's invariant on the output is kept by handling one more record. */
  lemma OutputStep(os: seq<RowOutcome>, o: RowOutcome, delimiter: string, terminator: string,
                   start: seq<string>, now: seq<string>)
    requires now == start + RenderAll(WrittenRows(os), delimiter, terminator) + RenderAll(WrittenPart(o), delimiter, terminator)
    ensures now == start + RenderAll(WrittenRows(os + [o]), delimiter, terminator)
  {
    var w := WrittenRows(os);
    assert WrittenRows(os + [o]) == w + WrittenPart(o) by {
      assert (os + [o])[..|os|] == os;
      assert (os + [o])[|os|] == o;
    }
    var before := RenderAll(w, delimiter, terminator);
    var part := RenderAll(WrittenPart(o), delimiter, terminator);
    RenderAllPart(w, o, delimiter, terminator);
    assert start + before + part == start + (before + part);
  }

  /** Rendering the written rows and one more outcome's part renders each in turn. */
  lemma RenderAllPart(w: seq<Record>, o: RowOutcome, delimiter: string, terminator: string)
    ensures RenderAll(w + WrittenPart(o), delimiter, terminator)
            == RenderAll(w, delimiter, terminator) + RenderAll(WrittenPart(o), delimiter, terminator)
  {
    if o.Written? {
      RenderAllSnoc(w, o.fields, delimiter, terminator);
      assert [o.fields][..0] == [];
    } else {
      assert w + [] == w;
    }
  }

  /** The record loop's invariant on the error stream is kept by handling one more record. */
  lemma ErrorStep(os: seq<RowOutcome>, o: RowOutcome, start: seq<string>, now: seq<string>)
    requires now == start + Messages(os) + MessagePart(o)
    ensures now == start + Messages(os + [o])
  {
    assert (os + [o])[..|os|] == os;
  }

  lemma {:induction false} Conserved(os: seq<RowOutcome>)
    ensures |WrittenRows(os)| + |Messages(os)| == |os|
  {
    if os != [] {
      Conserved(os[..|os| - 1]);
    }
  }

  /** Rows written plus error messages written equals data rows read. */
  lemma RowsConserved(rows: seq<Record>, idxs: seq<nat>)
    ensures |Survivors(rows, idxs)| + |ErrorMessages(rows, idxs)| == |rows|
  {
    Conserved(Outcomes(rows, idxs));
  }

  lemma {:induction false} WrittenRowsPrefix(os: seq<RowOutcome>, j: nat)
    requires j <= |os|
    ensures WrittenRows(os[..j]) <= WrittenRows(os)
    decreases |os|
  {
    if j < |os| {
      var n := |os| - 1;
      assert os[..n][..j] == os[..j];
      WrittenRowsPrefix(os[..n], j);
    } else {
      assert os[..j] == os;
    }
  }

  /** A written outcome `j` sits among the written rows at the position given
      by the number of written outcomes before it. */
  lemma WrittenRowAt(os: seq<RowOutcome>, j: nat)
    requires j < |os| && os[j].Written?
    ensures |WrittenRows(os[..j])| < |WrittenRows(os)|
    ensures WrittenRows(os)[|WrittenRows(os[..j])|] == os[j].fields
  {
    assert os[..j + 1][..j] == os[..j];
    WrittenRowsPrefix(os, j + 1);
  }

  /** A written record `j` sits in the output at the position given by the
      number of written records before it. */
  lemma SurvivorAt(rows: seq<Record>, idxs: seq<nat>, j: nat)
    requires j < |rows| && ApplyDates(rows[j], idxs).Written?
    ensures |Survivors(rows[..j], idxs)| < |Survivors(rows, idxs)|
    ensures Survivors(rows, idxs)[|Survivors(rows[..j], idxs)|] == ApplyDates(rows[j], idxs).fields
  {
    OutcomesPrefix(rows, idxs, j);
    WrittenRowAt(Outcomes(rows, idxs), j);
  }

  /** Written records keep their relative order: of two written records, the
      earlier one in the input is the earlier one in the output. */
  lemma SurvivorsKeepOrder(rows: seq<Record>, idxs: seq<nat>, j: nat, k: nat)
    requires j < k < |rows|
    requires ApplyDates(rows[j], idxs).Written? && ApplyDates(rows[k], idxs).Written?
    ensures |Survivors(rows[..j], idxs)| < |Survivors(rows[..k], idxs)|
  {
    SurvivorAt(rows[..k], idxs, j);
    assert rows[..k][..j] == rows[..j];
  }

  lemma {:induction false} AllWritten(os: seq<RowOutcome>, rows: seq<Record>)
    requires |os| == |rows| && forall i :: 0 <= i < |os| ==> os[i] == Written(rows[i])
    ensures WrittenRows(os) == rows && Messages(os) == []
  {
    if os != [] {
      var n := |os| - 1;
      AllWritten(os[..n], rows[..n]);
      assert rows == rows[..n] + [rows[n]];
    }
  }

  /** Without date columns every record is written as it was read, and nothing is diverted. */
  lemma NoDateColumnsPassThrough(rows: seq<Record>)
    ensures Survivors(rows, []) == rows
    ensures ErrorMessages(rows, []) == []
  {
    AllWritten(Outcomes(rows, []), rows);
  }

  /** The `try` block of `_transform_csv` for one record: normalises the
      date fields of `row` in place, in index order, until one fails. */
  method NormalizeRecord(record: Record, dateIndexes: seq<nat>) returns (outcome: RowOutcome)
    ensures outcome == ApplyDates(record, dateIndexes)
  {
    var row := record;
    var k := 0;
    while k < |dateIndexes|
      invariant 0 <= k <= |dateIndexes|
      invariant ApplyDates(record, dateIndexes) == ApplyDates(row, dateIndexes[k..])
    {
      var i := dateIndexes[k];
      assert dateIndexes[k..][0] == i && dateIndexes[k..][1..] == dateIndexes[k + 1..];
      if i >= |row| {
        return Diverted(INDEX_ERROR, row);
      }
      var formatted := FormatDateStr(row[i]);
      if formatted.Err? {
        return Diverted(formatted.error.Message(), row);
      }
      row := row[i := formatted.value];
      k := k + 1;
    }
    outcome := Written(row);
  }

  /** One pass of the record loop of `_transform_csv`: the record goes to
      the output normalised, or its message goes to the error stream. */
  method TransformRecord(record: Record, dateIndexes: seq<nat>, delimiter: string, terminator: string, out: Stream, err: Stream)
    returns (outcome: RowOutcome)
    requires out != err
    modifies out, err
    ensures outcome == ApplyDates(record, dateIndexes)
    ensures out.written == old(out.written) + RenderAll(WrittenPart(ApplyDates(record, dateIndexes)), delimiter, terminator)
    ensures err.written == old(err.written) + MessagePart(ApplyDates(record, dateIndexes))
  {
    outcome := NormalizeRecord(record, dateIndexes);
    if outcome.Written? {
      assert RenderAll(WrittenPart(outcome), delimiter, terminator) == [RenderRow(outcome.fields, delimiter, terminator)];
      out.Write(RenderRow(outcome.fields, delimiter, terminator));
    } else {
      err.Write(ErrorMessage(outcome.reason, outcome.fields));
    }
  }

  /** The header scan of `_transform_csv`: collects, in order, the positions
      whose name ends in `_date`. */
  method FindDateIndexes(header: Record) returns (dateIndexes: seq<nat>)
    ensures dateIndexes == DateIndexes(header)
  {
    dateIndexes := [];
    var index := 0;
    while index < |header|
      invariant 0 <= index <= |header|
      invariant dateIndexes == DateIndexes(header[..index])
    {
      assert header[..index + 1][..index] == header[..index];
      if EndsWith(header[index], DATE_SUFFIX) {
        dateIndexes := dateIndexes + [index];
      }
      index := index + 1;
    }
    assert header[..index] == header;
  }

  /** `_transform_csv(in_fp, out_fp, err_fp)` over the records the reader
      yields. With no record at all, `next(csv_reader)` raises and nothing is
      written (`ok` is false). Otherwise the header is written first and
      unchanged, then each data record is either written normalised or
      reported on the error stream. */
  method TransformCsv(records: seq<Record>, delimiter: string, terminator: string, out: Stream, err: Stream)
    returns (ok: bool)
    requires out != err
    modifies out, err
    ensures ok <==> records != []
    ensures !ok ==> out.written == old(out.written) && err.written == old(err.written)
    ensures ok ==>
              out.written == old(out.written) + [RenderRow(records[0], delimiter, terminator)]
                             + RenderAll(Survivors(records[1..], DateIndexes(records[0])), delimiter, terminator)
    ensures ok ==> err.written == old(err.written) + ErrorMessages(records[1..], DateIndexes(records[0]))
  {
    if records == [] {
      return false;
    }
    var header := records[0];
    var dateIndexes := FindDateIndexes(header);
    out.Write(RenderRow(header, delimiter, terminator));
    ghost var outStart := out.written;
    ghost var errStart := err.written;
    var rows := records[1..];
    var n := 0;
    while n < |rows|
      invariant 0 <= n <= |rows|
      invariant out.written == outStart + RenderAll(WrittenRows(Outcomes(rows[..n], dateIndexes)), delimiter, terminator)
      invariant err.written == errStart + Messages(Outcomes(rows[..n], dateIndexes))
    {
      var outcome := TransformRecord(rows[n], dateIndexes, delimiter, terminator, out, err);
      OutcomesSnoc(rows, dateIndexes, n);
      OutputStep(Outcomes(rows[..n], dateIndexes), outcome, delimiter, terminator, outStart, out.written);
      ErrorStep(Outcomes(rows[..n], dateIndexes), outcome, errStart, err.written);
      n := n + 1;
    }
    assert rows[..n] == rows;
    ok := true;
  }
}
