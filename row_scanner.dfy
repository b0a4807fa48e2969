/**
 * The row scanner: `process_data`, which walks the column-A cells of the script
 * sheet in row order and collects `[heading, row]` pairs, `[uri, row]` pairs and
 * the title from row 0.
 *
 * Each cell's nested formatting record is decoded once into `Cell`, whose fields
 * are `None` exactly where the source's dictionary or list lookup raises
 * `KeyError`/`IndexError`. A lookup that raises outside the inner `try` ends
 * the scan; the outer `finally: return` then hands back what was gathered.
 */
module RowScanner {
  import opened Wrappers

  /** The values of `hyperlinkDisplayType` in the spreadsheet service's cell format. */
  datatype DisplayType = DisplayTypeUnspecified | Linked | PlainText

  /** The values of `horizontalAlignment`. */
  datatype Alignment = AlignUnspecified | Left | Center | Right

  /** One entry of `textFormatRuns`; `uri` is `format.link.uri` when every level is present. */
  datatype Run = Run(uri: Option<string>)

  /** `values[0]` of one row; a row with no `values[0]` decodes to every field `None`. */
  datatype Cell = Cell(
    strikethrough: Option<bool>,       // effectiveFormat.textFormat.strikethrough
    bold: Option<bool>,                // effectiveFormat.textFormat.bold
    displayType: Option<DisplayType>,  // effectiveFormat.hyperlinkDisplayType
    alignment: Option<Alignment>,      // effectiveFormat.horizontalAlignment
    text: Option<string>,              // userEnteredValue.stringValue
    runs: Option<seq<Run>>)            // textFormatRuns

  /**
   * A `[heading, row]` pair. `end` is the end row that `add_data_to_doc` appends
   * to the pair later; the scanner always leaves it `None`.
   */
  datatype Heading = Heading(text: string, row: nat, end: Option<int>)

  /** A `[uri, row]` pair. */
  datatype Link = Link(uri: string, row: nat)

  /** What a scan (or one row of it) adds, and whether it raised and so stopped. */
  datatype Scanned = Scanned(headings: seq<Heading>, links: seq<Link>, stopped: bool)

  /** What `process_data` returns: `headings, links, title`. */
  datatype Extracted = Extracted(headings: seq<Heading>, links: seq<Link>, title: string)

  /** The title cell of row 0 is missing: the lookup sits outside every `try`. */
  datatype ScanError = MissingTitle

  // ---------------------------------------------------------------------------
  // Row classification

  /** Both `strikethrough` and `bold` are present, so the row gets past its first two lookups. */
  predicate FormatRead(c: Cell)
  {
    c.strikethrough.Some? && c.bold.Some?
  }

  /**
   * The row reaches the `else:` branch of the inner `try`: it has a display type,
   * is not struck through, and, when LINKED, has `textFormatRuns`.
   */
  predicate HeadingChecked(c: Cell)
  {
    && FormatRead(c)
    && c.displayType.Some?
    && !c.strikethrough.value
    && (c.displayType.value == Linked ==> c.runs.Some?)
  }

  /** A heading row: heading-checked, bold and centred. */
  predicate HeadingRow(c: Cell)
  {
    HeadingChecked(c) && c.bold == Some(true) && c.alignment == Some(Center)
  }

  /** A row whose text runs are searched for links. */
  predicate LinkRow(c: Cell)
  {
    FormatRead(c) && c.displayType == Some(Linked) && c.strikethrough == Some(false) && c.runs.Some?
  }

  /** Scanning this row raises a lookup error that no inner `except` catches. */
  predicate Stops(c: Cell)
  {
    || !FormatRead(c)
    || (HeadingChecked(c) && (c.alignment.None? || (HeadingRow(c) && c.text.None?)))
  }

  /**
   * `horizontalAlignment` is only looked up in the `else:` of the inner `try`:
   * a row missing it stops the scan exactly when it gets that far.
   */
  lemma MissingAlignmentStopsIff(c: Cell)
    requires FormatRead(c) && c.alignment.None?
    ensures Stops(c) <==> HeadingChecked(c)
  {
  }

  /** The links of one LINKED row: one per run that carries a uri, in run order. */
  function RunLinks(runs: seq<Run>, row: nat): (r: seq<Link>)
    ensures |r| <= |runs|
    ensures forall l :: l in r ==> l.row == row
    ensures forall u :: Link(u, row) in r <==> Run(Some(u)) in runs
  {
    if runs == [] then []
    else
      var last := runs[|runs| - 1];
      RunLinks(runs[..|runs| - 1], row) + if last.uri.Some? then [Link(last.uri.value, row)] else []
  }

  /** What the scan of row `row` adds, and whether it stops the scan. */
  function ScanRow(c: Cell, row: nat): (s: Scanned)
    ensures s.stopped <==> Stops(c)
    ensures s.headings == if HeadingRow(c) && c.text.Some? then [Heading(c.text.value, row, None)] else []
    ensures s.links == if LinkRow(c) then RunLinks(c.runs.value, row) else []
  {
    if !FormatRead(c) then Scanned([], [], true)
    else if c.displayType.None? || c.strikethrough.value then Scanned([], [], false)
    else if c.displayType.value == Linked && c.runs.None? then Scanned([], [], false)
    else
      var found := if c.displayType.value == Linked then RunLinks(c.runs.value, row) else [];
      if c.alignment.None? then Scanned([], found, true)
      else if c.bold.value && c.alignment.value == Center then
        if c.text.None? then Scanned([], found, true)
        else Scanned([Heading(c.text.value, row, None)], found, false)
      else Scanned([], found, false)
  }

  /** The scan of a prefix of the rows, row index = position; a stopped scan takes nothing more. */
  function Scan(rows: seq<Cell>): Scanned
  {
    if rows == [] then Scanned([], [], false)
    else
      var before := Scan(rows[..|rows| - 1]);
      if before.stopped then before
      else
        var step := ScanRow(rows[|rows| - 1], |rows| - 1);
        Scanned(before.headings + step.headings, before.links + step.links, step.stopped)
  }

  /** One more row: the scan of `i + 1` rows in terms of the scan of `i` rows. */
  lemma ScanStep(rows: seq<Cell>, i: nat)
    requires i < |rows|
    ensures Scan(rows[..i + 1]) ==
      if Scan(rows[..i]).stopped then Scan(rows[..i])
      else Scanned(Scan(rows[..i]).headings + ScanRow(rows[i], i).headings,
                   Scan(rows[..i]).links + ScanRow(rows[i], i).links,
                   ScanRow(rows[i], i).stopped)
  {
    assert rows[..i + 1][..i] == rows[..i];
  }

  // ---------------------------------------------------------------------------
  // The scanner as the source runs it

  /**
   * The body of the row loop of `process_data`: appends what row `rowNum`
   * yields to `headings` and `links`, and reports whether a lookup raised.
   */
  method ScanCell(cell: Cell, rowNum: nat, headings: seq<Heading>, links: seq<Link>)
    returns (headings': seq<Heading>, links': seq<Link>, raised: bool)
    ensures headings' == headings + ScanRow(cell, rowNum).headings
    ensures links' == links + ScanRow(cell, rowNum).links
    ensures raised == ScanRow(cell, rowNum).stopped
  {
    headings', links' := headings, links;
    if cell.strikethrough.None? || cell.bold.None? {
      return headings', links', true;
    }
    raised := false;
    if cell.displayType.Some? && !cell.strikethrough.value {
      var checkHeading := true;
      if cell.displayType.value == Linked {
        if cell.runs.None? {
          checkHeading := false;
        } else {
          var runs := cell.runs.value;
          var k := 0;
          while k < |runs|
            invariant k <= |runs|
            invariant links' == links + RunLinks(runs[..k], rowNum)
          {
            assert runs[..k + 1][..k] == runs[..k];
            if runs[k].uri.Some? {
              links' := links' + [Link(runs[k].uri.value, rowNum)];
            }
            k := k + 1;
          }
          assert runs[..k] == runs;
        }
      }
      if checkHeading {
        if cell.alignment.None? {
          raised := true;
        } else if cell.bold.value && cell.alignment.value == Center {
          if cell.text.None? {
            raised := true;
          } else {
            headings' := headings' + [Heading(cell.text.value, rowNum, None)];
          }
        }
      }
    }
  }

  /**
   * `process_data`: the title from row 0, then every row in order, appending to
   * `headings` and `links`; a lookup that raises ends the loop and the partial
   * lists are returned with the title.
   */
  method ProcessData(rows: seq<Cell>) returns (r: Result<Extracted, ScanError>)
    ensures r.Failure? <==> rows == [] || rows[0].text.None?
    ensures r.Success? ==> r.value == Extracted(Scan(rows).headings, Scan(rows).links, rows[0].text.value)
  {
    if rows == [] || rows[0].text.None? {
      return Failure(MissingTitle);
    }
    var title := rows[0].text.value;
    var headings: seq<Heading> := [];
    var links: seq<Link> := [];
    var rowNum := 0;
    while rowNum < |rows|
      invariant rowNum <= |rows|
      invariant Scan(rows[..rowNum]) == Scanned(headings, links, false)
    {
      var cell := rows[rowNum];
      var raised;
      headings, links, raised := ScanCell(cell, rowNum, headings, links);
      ScanStep(rows, rowNum);
      if raised {
        ScanPrefix(rows, rowNum + 1);
        return Success(Extracted(headings, links, title));
      }
      rowNum := rowNum + 1;
    }
    assert rows[..rowNum] == rows;
    return Success(Extracted(headings, links, title));
  }

  // ---------------------------------------------------------------------------
  // Properties of the scan

  /** A longer scan extends a shorter one, and once a scan has stopped, later rows change nothing. */
  lemma {:induction false} ScanPrefix(rows: seq<Cell>, k: nat)
    requires k <= |rows|
    ensures Scan(rows[..k]).headings <= Scan(rows).headings
    ensures Scan(rows[..k]).links <= Scan(rows).links
    ensures Scan(rows[..k]).stopped ==> Scan(rows) == Scan(rows[..k])
    decreases |rows| - k
  {
    if k < |rows| {
      var init := rows[..|rows| - 1];
      assert init[..k] == rows[..k];
      ScanPrefix(init, k);
    } else {
      assert rows[..k] == rows;
    }
  }

  /**
   * Every heading comes from a heading row and carries that row's text; every
   * link comes from a LINKED, not struck-through row and is the uri of one of its runs.
   */
  lemma {:induction false} ScanSound(rows: seq<Cell>)
    ensures forall h :: h in Scan(rows).headings ==>
      && h.row < |rows| && HeadingRow(rows[h.row])
      && rows[h.row].text == Some(h.text) && h.end.None?
    ensures forall l :: l in Scan(rows).links ==>
      l.row < |rows| && LinkRow(rows[l.row]) && Run(Some(l.uri)) in rows[l.row].runs.value
  {
    if rows != [] {
      var init := rows[..|rows| - 1];
      ScanSound(init);
      assert forall i :: 0 <= i < |init| ==> init[i] == rows[i];
    }
  }

  /**
   * A row without a display type, a struck-through row, and a LINKED row
   * without `textFormatRuns` contribute no heading and no link.
   */
  lemma SkippedRowContributesNothing(rows: seq<Cell>, i: nat)
    requires i < |rows|
    requires || rows[i].displayType.None?
             || rows[i].strikethrough == Some(true)
             || (rows[i].displayType == Some(Linked) && rows[i].runs.None?)
    ensures forall h :: h in Scan(rows).headings ==> h.row != i
    ensures forall l :: l in Scan(rows).links ==> l.row != i
  {
    ScanSound(rows);
  }

  /** Headings come out in strictly increasing row order, links in non-decreasing row order. */
  lemma {:induction false} ScanOrdered(rows: seq<Cell>)
    ensures forall i, j :: 0 <= i < j < |Scan(rows).headings| ==>
      Scan(rows).headings[i].row < Scan(rows).headings[j].row
    ensures forall i, j :: 0 <= i < j < |Scan(rows).links| ==>
      Scan(rows).links[i].row <= Scan(rows).links[j].row
  {
    if rows != [] {
      var init := rows[..|rows| - 1];
      ScanOrdered(init);
      ScanSound(init);
      var before := Scan(init);
      if !before.stopped {
        var step := ScanRow(rows[|rows| - 1], |rows| - 1);
        assert forall h :: h in step.headings ==> h.row == |rows| - 1;
        assert forall l :: l in step.links ==> l.row == |rows| - 1;
        var hs := Scan(rows).headings;
        var ls := Scan(rows).links;
        assert hs == before.headings + step.headings;
        assert ls == before.links + step.links;
        forall i, j | 0 <= i < j < |hs| ensures hs[i].row < hs[j].row {
          if j >= |before.headings| {
            assert hs[j] in step.headings;
            assert hs[i] in before.headings || i >= |before.headings|;
          }
        }
        forall i, j | 0 <= i < j < |ls| ensures ls[i].row <= ls[j].row {
          if j >= |before.links| {
            assert ls[j] in step.links;
            if i < |before.links| {
              assert ls[i] in before.links;
            } else {
              assert ls[i] in step.links;
            }
          }
        }
      }
    }
  }

  /** The scan of the first `i` rows is still running exactly when none of them stops it. */
  lemma {:induction false} RunningIff(rows: seq<Cell>, i: nat)
    requires i <= |rows|
    ensures !Scan(rows[..i]).stopped <==> forall j :: 0 <= j < i ==> !Stops(rows[j])
  {
    if i > 0 {
      assert rows[..i][..i - 1] == rows[..i - 1];
      RunningIff(rows, i - 1);
    }
  }

  /**
   * A row that stops the scan ends it: nothing after it is collected, and what
   * the rows before it produced is still returned.
   */
  lemma StopEndsScan(rows: seq<Cell>, i: nat)
    requires i < |rows| && Stops(rows[i])
    ensures Scan(rows).stopped
    ensures Scan(rows[..i]).headings <= Scan(rows).headings
    ensures Scan(rows[..i]).links <= Scan(rows).links
    ensures forall h :: h in Scan(rows).headings ==> h.row < i
    ensures forall l :: l in Scan(rows).links ==> l.row <= i
    ensures !FormatRead(rows[i]) ==> forall l :: l in Scan(rows).links ==> l.row < i
  {
    var pre := Scan(rows[..i]);
    var post := Scan(rows[..i + 1]);
    ScanPrefix(rows, i);
    ScanStep(rows, i);
    ScanSound(rows[..i]);
    if pre.stopped {
      assert post == pre;
    } else {
      var step := ScanRow(rows[i], i);
      assert step.headings == [];
      assert post.headings == pre.headings;
      assert post.links == pre.links + step.links;
      assert !FormatRead(rows[i]) ==> post.links == pre.links;
    }
    ScanPrefix(rows, i + 1);
    assert Scan(rows) == post;
  }

  /** A heading row reached by a running scan is recorded with its text and row. */
  lemma HeadingComplete(rows: seq<Cell>, i: nat)
    requires i < |rows|
    requires !Scan(rows[..i]).stopped
    requires HeadingRow(rows[i]) && rows[i].text.Some?
    ensures Heading(rows[i].text.value, i, None) in Scan(rows).headings
  {
    var h := Heading(rows[i].text.value, i, None);
    var before := Scan(rows[..i]).headings;
    var step := ScanRow(rows[i], i);
    assert step.headings == [h];
    ScanStep(rows, i);
    var after := Scan(rows[..i + 1]).headings;
    assert after == before + [h];
    ScanPrefix(rows, i + 1);
    assert Scan(rows).headings[|before|] == after[|before|] == h;
  }

  /** Every run with a uri in a LINKED row reached by a running scan yields its link. */
  lemma LinkComplete(rows: seq<Cell>, i: nat, j: nat)
    requires i < |rows|
    requires !Scan(rows[..i]).stopped
    requires LinkRow(rows[i]) && j < |rows[i].runs.value| && rows[i].runs.value[j].uri.Some?
    ensures Link(rows[i].runs.value[j].uri.value, i) in Scan(rows).links
  {
    ScanStep(rows, i);
    ScanPrefix(rows, i + 1);
    var runs := rows[i].runs.value;
    assert Run(Some(runs[j].uri.value)) == runs[j];
  }

  /** Links of consecutive runs come out in run order. */
  lemma {:induction false} RunLinksAppend(a: seq<Run>, b: seq<Run>, row: nat)
    ensures RunLinks(a + b, row) == RunLinks(a, row) + RunLinks(b, row)
    decreases |b|
  {
    if b != [] {
      var b' := b[..|b| - 1];
      assert (a + b)[..|a + b| - 1] == a + b';
      RunLinksAppend(a, b', row);
    } else {
      assert a + b == a;
    }
  }
}
