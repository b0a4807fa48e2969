/**
 * The request planner: the second half of `add_data_to_doc`. From the title and
 * the ordered `links_under_headings` dictionary it builds the two batches of
 * document edit requests, threading the insertion cursor `current_index`
 * through the headings and their links.
 *
 * Indices are counted in characters of the strings as given (`|s|`); what they
 * address inside the remote document is not modelled.
 */
module RequestPlanner {
  import opened SectionGrouper

  /** The text styles the planner sets. */
  datatype TextStyle = Bold | LinkTo(url: string)

  /** One entry of a `batchUpdate` request list. */
  datatype Request =
    | InsertText(index: int, text: string)                        // insertText at location.index
    | TitleParagraphStyle(start: int, end: int)                   // updateParagraphStyle, namedStyleType TITLE
    | UpdateTextStyle(start: int, end: int, style: TextStyle)     // updateTextStyle
    | CreateBullets(start: int, end: int)                         // createParagraphBullets

  /** Where the first section is inserted: `len(title) + 3`. */
  function FirstCursor(title: string): int
  {
    |title| + 3
  }

  // ---------------------------------------------------------------------------
  // Measures

  /** The number of characters the insertText requests of `reqs` insert. */
  function InsertedChars(reqs: seq<Request>): nat
  {
    if reqs == [] then 0 else Chars(reqs[0]) + InsertedChars(reqs[1..])
  }

  /** The number of characters one request inserts. */
  function Chars(r: Request): nat
  {
    if r.InsertText? then |r.text| else 0
  }

  /** How far the links of one section move the cursor: each link and its newline. */
  function LinksWidth(links: seq<string>): nat
  {
    if links == [] then 0 else LinksWidth(links[..|links| - 1]) + |links[|links| - 1]| + 1
  }

  /** How far one section moves the cursor: heading, newline, links, blank line. */
  function SectionWidth(heading: string, links: seq<string>): nat
  {
    |heading| + 1 + LinksWidth(links) + 1
  }

  /** One `(heading, links)` pair of `links_under_headings.items()`. */
  datatype Section = Section(heading: string, links: seq<string>)

  /** Every key in the iteration order has an entry. */
  predicate KeysPresent(d: Dict)
  {
    forall i :: 0 <= i < |d.keys| ==> d.keys[i] in d.entries
  }

  /** `links_under_headings.items()`: the pairs in key order. */
  function Items(d: Dict): (r: seq<Section>)
    requires KeysPresent(d)
    ensures |r| == |d.keys|
  {
    seq(|d.keys|, i requires 0 <= i < |d.keys| => Section(d.keys[i], d.entries[d.keys[i]]))
  }

  /** How far the sections `secs`, in order, move the cursor. */
  function SectionsWidth(secs: seq<Section>): nat
  {
    if secs == [] then 0
    else
      var last := secs[|secs| - 1];
      SectionsWidth(secs[..|secs| - 1]) + SectionWidth(last.heading, last.links)
  }

  // ---------------------------------------------------------------------------
  // The requests

  /** The title batch: insert the title and two blank lines at index 1, then style it as TITLE. */
  function TitleRequests(title: string): (r: seq<Request>)
    ensures |r| == 2 && r[0].InsertText? && r[0].index == 1
    ensures |r[0].text| == |title| + 3 && r[0].text[..|title|] == title
  {
    [InsertText(1, title + "\n\n\n"), TitleParagraphStyle(1, |title|)]
  }

  /** The requests for the links of one section, the first inserted at `cursor`. */
  function LinkRequests(links: seq<string>, cursor: int): (r: seq<Request>)
    ensures |r| == 2 * |links|
  {
    if links == [] then []
    else
      var init := links[..|links| - 1];
      var link := links[|links| - 1];
      var at := cursor + LinksWidth(init);
      LinkRequests(init, cursor) + [InsertText(at, link + "\n"), UpdateTextStyle(at, at + |link|, LinkTo(link))]
  }

  /** The requests for one section, inserted at `cursor`. */
  function SectionRequests(heading: string, links: seq<string>, cursor: int): seq<Request>
  {
    var bulletStart := cursor + |heading| + 1;
    [InsertText(cursor, heading + "\n\n"), UpdateTextStyle(cursor, cursor + |heading|, Bold)]
      + LinkRequests(links, bulletStart)
      + [CreateBullets(bulletStart, bulletStart + LinksWidth(links))]
  }

  /** The second batch: the sections `secs` in order, the first inserted at `cursor`. */
  function SectionsRequests(secs: seq<Section>, cursor: int): seq<Request>
  {
    if secs == [] then []
    else
      var init := secs[..|secs| - 1];
      var last := secs[|secs| - 1];
      SectionsRequests(init, cursor) + SectionRequests(last.heading, last.links, cursor + SectionsWidth(init))
  }

  /**
   * One pass of the heading loop of `add_data_to_doc`: the heading's insert
   * and bold style, the link loop, then bullets over the links; returns the
   * requests and the advanced `current_index`.
   */
  method PlanSection(heading: string, links: seq<string>, cursor: int) returns (requests: seq<Request>, next: int)
    ensures requests == SectionRequests(heading, links, cursor)
    ensures next == cursor + SectionWidth(heading, links)
  {
    requests := [InsertText(cursor, heading + "\n\n"), UpdateTextStyle(cursor, cursor + |heading|, Bold)];
    next := cursor + |heading| + 1;
    var bulletStart := next;
    for j := 0 to |links|
      invariant requests == [InsertText(cursor, heading + "\n\n"), UpdateTextStyle(cursor, cursor + |heading|, Bold)]
        + LinkRequests(links[..j], bulletStart)
      invariant next == bulletStart + LinksWidth(links[..j])
    {
      var link := links[j];
      assert links[..j + 1][..j] == links[..j];
      requests := requests + [InsertText(next, link + "\n")];
      requests := requests + [UpdateTextStyle(next, next + |link|, LinkTo(link))];
      next := next + |link| + 1;
    }
    assert links[..|links|] == links;
    requests := requests + [CreateBullets(bulletStart, next)];
    next := next + 1;
  }

  /**
   * The heading loop of `add_data_to_doc`: appends the requests of every
   * section in dictionary order, advancing `current_index`, which it also
   * returns.
   */
  method PlanSections(title: string, d: Dict) returns (requests: seq<Request>, cursor: int)
    requires KeysPresent(d)
    ensures requests == SectionsRequests(Items(d), FirstCursor(title))
    ensures cursor == FirstCursor(title) + SectionsWidth(Items(d))
  {
    var items := Items(d);
    requests := [];
    cursor := |title| + 3;
    for i := 0 to |items|
      invariant requests == SectionsRequests(items[..i], FirstCursor(title))
      invariant cursor == FirstCursor(title) + SectionsWidth(items[..i])
    {
      var heading, links := items[i].heading, items[i].links;
      assert items[..i + 1][..i] == items[..i];
      var section;
      section, cursor := PlanSection(heading, links, cursor);
      requests := requests + section;
    }
    assert items[..|items|] == items;
  }

  // ---------------------------------------------------------------------------
  // Properties of the plan

  /** Characters inserted by consecutive request lists add up. */
  lemma {:induction false} InsertedCharsAppend(a: seq<Request>, b: seq<Request>)
    ensures InsertedChars(a + b) == InsertedChars(a) + InsertedChars(b)
  {
    if a == [] {
      assert a + b == b;
    } else {
      assert (a + b)[1..] == a[1..] + b;
      InsertedCharsAppend(a[1..], b);
    }
  }

  lemma InsertedPair(x: Request, y: Request)
    ensures InsertedChars([x, y]) == Chars(x) + Chars(y)
  {
    assert [x, y][1..] == [y];
    assert [y][1..] == [];
    assert InsertedChars([y]) == Chars(y) + InsertedChars([]);
  }

  /** The link requests insert exactly the characters they move the cursor by. */
  lemma {:induction false} LinkRequestsInsert(links: seq<string>, cursor: int)
    ensures InsertedChars(LinkRequests(links, cursor)) == LinksWidth(links)
  {
    if links != [] {
      var init := links[..|links| - 1];
      var link := links[|links| - 1];
      var at := cursor + LinksWidth(init);
      LinkRequestsInsert(init, cursor);
      var tail := [InsertText(at, link + "\n"), UpdateTextStyle(at, at + |link|, LinkTo(link))];
      InsertedCharsAppend(LinkRequests(init, cursor), tail);
      InsertedPair(tail[0], tail[1]);
    }
  }

  /**
   * One section emits 3 + 2 * |links| requests and inserts exactly the
   * characters it moves the cursor by.
   */
  lemma SectionInserts(heading: string, links: seq<string>, cursor: int)
    ensures |SectionRequests(heading, links, cursor)| == 3 + 2 * |links|
    ensures InsertedChars(SectionRequests(heading, links, cursor)) == SectionWidth(heading, links)
  {
    var bulletStart := cursor + |heading| + 1;
    var head := [InsertText(cursor, heading + "\n\n"), UpdateTextStyle(cursor, cursor + |heading|, Bold)];
    var body := LinkRequests(links, bulletStart);
    var tail := [CreateBullets(bulletStart, bulletStart + LinksWidth(links))];
    InsertedPair(head[0], head[1]);
    assert InsertedChars(tail) == 0 by {
      assert tail[1..] == [];
    }
    InsertedCharsAppend(head, body);
    InsertedCharsAppend(head + body, tail);
    LinkRequestsInsert(links, bulletStart);
  }

  /** The sections batch inserts exactly the characters the cursor moves by. */
  lemma {:induction false} SectionsInsert(secs: seq<Section>, cursor: int)
    ensures InsertedChars(SectionsRequests(secs, cursor)) == SectionsWidth(secs)
  {
    if secs != [] {
      var init := secs[..|secs| - 1];
      var last := secs[|secs| - 1];
      SectionsInsert(init, cursor);
      var at := cursor + SectionsWidth(init);
      InsertedCharsAppend(SectionsRequests(init, cursor), SectionRequests(last.heading, last.links, at));
      SectionInserts(last.heading, last.links, at);
    }
  }

  /**
   * The cursor ends where the text of both batches ends: the final
   * `current_index` equals the number of characters all requests insert.
   */
  lemma FinalCursorIsInsertedChars(title: string, secs: seq<Section>)
    ensures InsertedChars(TitleRequests(title) + SectionsRequests(secs, FirstCursor(title)))
      == FirstCursor(title) + SectionsWidth(secs)
  {
    var t := TitleRequests(title);
    InsertedPair(t[0], t[1]);
    assert t == [t[0], t[1]];
    InsertedCharsAppend(t, SectionsRequests(secs, FirstCursor(title)));
    SectionsInsert(secs, FirstCursor(title));
  }

  /** Each section moves the cursor forward, so it strictly increases from one section to the next. */
  lemma {:induction false} CursorIncreases(secs: seq<Section>, i: nat, j: nat)
    requires i < j <= |secs|
    ensures SectionsWidth(secs[..i]) < SectionsWidth(secs[..j])
  {
    var p := secs[..j];
    assert p[..j - 1] == secs[..j - 1];
    if i < j - 1 {
      CursorIncreases(secs, i, j - 1);
    }
  }

  // ---------------------------------------------------------------------------
  // Request order and ranges

  /** The link requests of one section, pair by pair, in link order. */
  lemma {:induction false} LinkRequestsAt(links: seq<string>, cursor: int, j: nat)
    requires j < |links|
    ensures LinkRequests(links, cursor)[2 * j] == InsertText(cursor + LinksWidth(links[..j]), links[j] + "\n")
    ensures LinkRequests(links, cursor)[2 * j + 1] ==
      UpdateTextStyle(cursor + LinksWidth(links[..j]), cursor + LinksWidth(links[..j]) + |links[j]|, LinkTo(links[j]))
  {
    var init := links[..|links| - 1];
    if j < |init| {
      LinkRequestsAt(init, cursor, j);
      assert init[..j] == links[..j];
    }
  }

  /**
   * The frame of a section: 3 + 2 * |links| requests, starting with the
   * heading insert and its bold style and ending with bullets over exactly the
   * characters the link inserts add.
   */
  lemma SectionShape(heading: string, links: seq<string>, cursor: int)
    ensures var r := SectionRequests(heading, links, cursor);
      var bulletStart := cursor + |heading| + 1;
      && |r| == 3 + 2 * |links|
      && r[0] == InsertText(cursor, heading + "\n\n")
      && r[1] == UpdateTextStyle(cursor, cursor + |heading|, Bold)
      && r[|r| - 1] == CreateBullets(bulletStart, bulletStart + InsertedChars(LinkRequests(links, bulletStart)))
  {
    LinkRequestsInsert(links, cursor + |heading| + 1);
  }

  /** Between the frame, link j's insert and its link style, in link order. */
  lemma SectionLinkAt(heading: string, links: seq<string>, cursor: int, j: nat)
    requires j < |links|
    ensures var r := SectionRequests(heading, links, cursor);
      var at := cursor + |heading| + 1 + LinksWidth(links[..j]);
      && r[2 + 2 * j] == InsertText(at, links[j] + "\n")
      && r[3 + 2 * j] == UpdateTextStyle(at, at + |links[j]|, LinkTo(links[j]))
  {
    var bulletStart := cursor + |heading| + 1;
    var head := [InsertText(cursor, heading + "\n\n"), UpdateTextStyle(cursor, cursor + |heading|, Bold)];
    var body := LinkRequests(links, bulletStart);
    var tail := [CreateBullets(bulletStart, bulletStart + LinksWidth(links))];
    var r := SectionRequests(heading, links, cursor);
    assert r == head + body + tail;
    LinkRequestsAt(links, bulletStart, j);
    assert r[2 + 2 * j] == body[2 * j];
    assert r[3 + 2 * j] == body[2 * j + 1];
  }

  /** A style request is ranged: it has a start and an end. */
  predicate IsStyle(r: Request)
  {
    r.TitleParagraphStyle? || r.UpdateTextStyle?
  }

  /**
   * If the request at `k` is a style, it directly follows the insert it
   * styles, starts where that insert starts and ends inside the inserted text;
   * a text style ends exactly at the newline that closes the inserted line,
   * and a link's target is the very text it styles.
   */
  predicate StyleFollowsInsert(reqs: seq<Request>, k: nat)
    requires k < |reqs|
  {
    IsStyle(reqs[k]) ==>
      && 0 < k && reqs[k - 1].InsertText?
      && reqs[k].start == reqs[k - 1].index
      && reqs[k].start <= reqs[k].end < reqs[k - 1].index + |reqs[k - 1].text|
      && (reqs[k].UpdateTextStyle? ==>
            var n := reqs[k].end - reqs[k].start;
            && 0 <= n && reqs[k - 1].text[n] == '\n'
            && (reqs[k].style.LinkTo? ==> reqs[k - 1].text[..n] == reqs[k].style.url))
  }

  /** Every style request directly follows the insert it styles. */
  predicate StylesFollowInserts(reqs: seq<Request>)
  {
    forall k: nat :: k < |reqs| ==> StyleFollowsInsert(reqs, k)
  }

  /** The insert positions of `reqs` strictly increase and lie in [lo, hi). */
  predicate InsertsIncreasing(reqs: seq<Request>, lo: int, hi: int)
  {
    && (forall k :: 0 <= k < |reqs| && reqs[k].InsertText? ==> lo <= reqs[k].index < hi)
    && (forall i, j :: 0 <= i < j < |reqs| && reqs[i].InsertText? && reqs[j].InsertText? ==>
          reqs[i].index < reqs[j].index)
  }

  lemma StylesAppend(a: seq<Request>, b: seq<Request>)
    requires StylesFollowInserts(a) && StylesFollowInserts(b)
    requires b != [] ==> !IsStyle(b[0])
    ensures StylesFollowInserts(a + b)
  {
    var ab := a + b;
    forall k: nat | k < |ab| ensures StyleFollowsInsert(ab, k) {
      if k < |a| {
        assert StyleFollowsInsert(a, k);
        if 0 < k {
          assert ab[k - 1] == a[k - 1];
        }
      } else {
        assert StyleFollowsInsert(b, k - |a|);
        if k > |a| {
          assert ab[k - 1] == b[k - |a| - 1];
        }
      }
    }
  }

  lemma IncreasingAppend(a: seq<Request>, b: seq<Request>, lo: int, mid: int, hi: int)
    requires InsertsIncreasing(a, lo, mid) && InsertsIncreasing(b, mid, hi)
    requires lo <= mid <= hi
    ensures InsertsIncreasing(a + b, lo, hi)
  {
    var ab := a + b;
    forall i, j | 0 <= i < j < |ab| && ab[i].InsertText? && ab[j].InsertText?
      ensures ab[i].index < ab[j].index
    {
      if j < |a| {
        assert ab[i] == a[i] && ab[j] == a[j];
      } else if i < |a| {
        assert ab[i] == a[i] && ab[j] == b[j - |a|];
      } else {
        assert ab[i] == b[i - |a|] && ab[j] == b[j - |a|];
      }
    }
    forall k | 0 <= k < |ab| && ab[k].InsertText? ensures lo <= ab[k].index < hi {
      if k >= |a| {
        assert ab[k] == b[k - |a|];
      }
    }
  }

  /** The link requests: inserts in increasing order inside the links' width, each style after its insert. */
  lemma {:induction false} LinkRequestsWellFormed(links: seq<string>, cursor: int)
    ensures StylesFollowInserts(LinkRequests(links, cursor))
    ensures InsertsIncreasing(LinkRequests(links, cursor), cursor, cursor + LinksWidth(links))
  {
    if links != [] {
      var init := links[..|links| - 1];
      var link := links[|links| - 1];
      var at := cursor + LinksWidth(init);
      var tail := [InsertText(at, link + "\n"), UpdateTextStyle(at, at + |link|, LinkTo(link))];
      LinkRequestsWellFormed(init, cursor);
      assert StylesFollowInserts(tail);
      assert InsertsIncreasing(tail, at, cursor + LinksWidth(links));
      StylesAppend(LinkRequests(init, cursor), tail);
      IncreasingAppend(LinkRequests(init, cursor), tail, cursor, at, cursor + LinksWidth(links));
    }
  }

  /** One section: inserts in increasing order inside the section's width, each style after its insert. */
  lemma SectionWellFormed(heading: string, links: seq<string>, cursor: int)
    ensures StylesFollowInserts(SectionRequests(heading, links, cursor))
    ensures InsertsIncreasing(SectionRequests(heading, links, cursor), cursor, cursor + SectionWidth(heading, links))
  {
    var bulletStart := cursor + |heading| + 1;
    var head := [InsertText(cursor, heading + "\n\n"), UpdateTextStyle(cursor, cursor + |heading|, Bold)];
    var body := LinkRequests(links, bulletStart);
    var tail := [CreateBullets(bulletStart, bulletStart + LinksWidth(links))];
    var hi := cursor + SectionWidth(heading, links);
    LinkRequestsWellFormed(links, bulletStart);
    assert StylesFollowInserts(head) && InsertsIncreasing(head, cursor, bulletStart);
    assert StylesFollowInserts(tail) && InsertsIncreasing(tail, hi, hi);
    assert body != [] ==> !IsStyle(body[0]) by {
      if body != [] {
        LinkRequestsAt(links, bulletStart, 0);
      }
    }
    StylesAppend(head, body);
    IncreasingAppend(head, body, cursor, bulletStart, bulletStart + LinksWidth(links));
    StylesAppend(head + body, tail);
    IncreasingAppend(head + body, tail, cursor, hi, hi);
  }

  /** The sections batch: inserts in increasing order inside its width, each style after its insert. */
  lemma {:induction false} SectionsWellFormed(secs: seq<Section>, cursor: int)
    ensures StylesFollowInserts(SectionsRequests(secs, cursor))
    ensures InsertsIncreasing(SectionsRequests(secs, cursor), cursor, cursor + SectionsWidth(secs))
  {
    if secs != [] {
      var init := secs[..|secs| - 1];
      var last := secs[|secs| - 1];
      var at := cursor + SectionsWidth(init);
      var section := SectionRequests(last.heading, last.links, at);
      SectionsWellFormed(init, cursor);
      SectionWellFormed(last.heading, last.links, at);
      StylesAppend(SectionsRequests(init, cursor), section);
      IncreasingAppend(SectionsRequests(init, cursor), section, cursor, at, cursor + SectionsWidth(secs));
    }
  }

  /**
   * Both batches together: every insert lies after the one before it, and
   * every style range (the title's and each bold or link style) starts at the
   * insert just before it and ends inside the text that insert adds. The
   * title's range is only a range (start <= end) for a non-empty title.
   */
  lemma PlanWellFormed(title: string, secs: seq<Section>)
    requires title != []
    ensures StylesFollowInserts(TitleRequests(title) + SectionsRequests(secs, FirstCursor(title)))
    ensures InsertsIncreasing(TitleRequests(title) + SectionsRequests(secs, FirstCursor(title)),
      1, FirstCursor(title) + SectionsWidth(secs))
  {
    var s := SectionsRequests(secs, FirstCursor(title));
    SectionsWellFormed(secs, FirstCursor(title));
    if secs != [] {
      SectionsFirst(secs, FirstCursor(title));
    }
    TitleThen(title, s, FirstCursor(title) + SectionsWidth(secs));
  }

  /** The title batch followed by any well-formed batch placed after the title's text is well formed. */
  lemma TitleThen(title: string, s: seq<Request>, hi: int)
    requires StylesFollowInserts(s) && InsertsIncreasing(s, FirstCursor(title), hi)
    requires s != [] ==> !IsStyle(s[0])
    requires FirstCursor(title) <= hi
    requires title != []
    ensures StylesFollowInserts(TitleRequests(title) + s)
    ensures InsertsIncreasing(TitleRequests(title) + s, 1, hi)
  {
    var t := TitleRequests(title);
    assert StyleFollowsInsert(t, 0) && StyleFollowsInsert(t, 1);
    assert InsertsIncreasing(t, 1, FirstCursor(title));
    StylesAppend(t, s);
    IncreasingAppend(t, s, 1, FirstCursor(title), hi);
  }

  /**
   * The title style ranges from 1 to `len(title)`: inside the inserted text
   * and not inverted exactly when the title is not empty.
   */
  lemma TitleStyleIff(title: string)
    ensures StylesFollowInserts(TitleRequests(title)) <==> title != []
  {
    var t := TitleRequests(title);
    assert StyleFollowsInsert(t, 0);
    if title == [] {
      assert !StyleFollowsInsert(t, 1);
    } else {
      assert StyleFollowsInsert(t, 1);
    }
  }

  /** A non-empty sections batch starts with the first heading's insert. */
  lemma {:induction false} SectionsFirst(secs: seq<Section>, cursor: int)
    requires secs != []
    ensures SectionsRequests(secs, cursor) != []
    ensures SectionsRequests(secs, cursor)[0] == InsertText(cursor, secs[0].heading + "\n\n")
  {
    var init := secs[..|secs| - 1];
    if init != [] {
      SectionsFirst(init, cursor);
      assert init[0] == secs[0];
    }
  }
}
