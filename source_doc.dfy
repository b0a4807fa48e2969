/**
 * `add_data_to_doc` without its service calls: attach end rows to the
 * headings, group the links into sections, then plan the title batch and the
 * sections batch that the two `batchUpdate` calls send.
 */
module SourceDoc {
  import opened Wrappers
  import opened RowScanner
  import opened SectionGrouper
  import opened RequestPlanner
  import opened DocumentText

  /** The two request batches, in the order they are sent. */
  datatype Plan = Plan(titleBatch: seq<Request>, sectionsBatch: seq<Request>)

  /**
   * Runs `add_data_to_doc` up to the requests it sends. With no headings the
   * source raises before any request is built; otherwise every heading gains
   * its end row in place, and the two batches are those of the grouped
   * sections, which together write the rendered outline into the new document.
   */
  method AddDataToDoc(headings: array<Heading>, links: seq<Link>, title: string) returns (r: Result<Plan, GroupError>)
    modifies headings
    ensures r.Failure? <==> headings.Length == 0
    ensures r.Failure? ==> r.error == NoHeadings && headings[..] == old(headings[..])
    ensures r.Success? ==> EndsSet(headings[..])
    ensures forall i :: 0 <= i < headings.Length ==>
      headings[i].text == old(headings[i].text) && headings[i].row == old(headings[i].row)
    ensures r.Success? ==>
      var d := SectionsOf(headings[..], links);
      && KeysPresent(d)
      && r.value == Plan(TitleRequests(title), SectionsRequests(Items(d), FirstCursor(title)))
      && ApplyAll(EmptyBody, r.value.titleBatch + r.value.sectionsBatch) == Some(Rendered(title, Items(d)))
  {
    ghost var before := headings[..];
    var ok := AddEndRows(headings);
    if !ok {
      assert headings[..] == before;
      return Failure(NoHeadings);
    }
    AddedEndsSet(before, headings[..]);
    var d := CollectSections(headings, links);
    SectionsValid(headings[..], links);
    assert KeysPresent(d) by {
      forall i | 0 <= i < |d.keys| ensures d.keys[i] in d.entries {
        assert d.keys[i] in d.keys;
      }
    }
    var titleBatch := TitleRequests(title);
    var sectionsBatch, _ := PlanSections(title, d);
    PlanRenders(title, Items(d));
    r := Success(Plan(titleBatch, sectionsBatch));
  }

  /**
   * The scanner hands the grouper its headings in strictly increasing row
   * order, so the section ranges it builds are disjoint: a link row lies in
   * at most one section.
   */
  lemma ScannedSectionsDisjoint(rows: seq<Cell>, ended: seq<Heading>, r: int, i: nat)
    requires |ended| == |Scan(rows).headings|
    requires forall k :: 0 <= k < |ended| ==> ended[k].row == Scan(rows).headings[k].row
    requires i < |ended| && InSection(ended, i, r)
    ensures forall j :: 0 <= j < |ended| && j != i ==> !InSection(ended, j, r)
  {
    ScanOrdered(rows);
    assert RowsIncreasing(ended);
    AtMostOneSection(ended, r, i);
  }
}
