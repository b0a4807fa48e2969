/**
 * The section grouper: the first half of `add_data_to_doc`. It appends to each
 * `[heading, row]` pair the row where its section ends, then builds the
 * insertion-ordered dictionary `links_under_headings` from heading text to the
 * de-duplicated uris of the links that lie strictly inside that section.
 */
module SectionGrouper {
  import opened Wrappers
  import opened RowScanner

  /** The end row appended to the last heading. */
  const LastEnd: int := 1000

  /** `headings[-1]` on an empty heading list raises `IndexError`. */
  datatype GroupError = NoHeadings

  /**
   * `links_under_headings`: a Python dict, whose iteration order is the order in
   * which keys were first inserted; storing under an existing key replaces the
   * value and keeps the key's place.
   */
  datatype Dict = Dict(keys: seq<string>, entries: map<string, seq<string>>)

  ghost predicate Valid(d: Dict)
  {
    NoDups(d.keys) && forall k :: k in d.entries <==> k in d.keys
  }

  /** `d[k] = v`. */
  function Put(d: Dict, k: string, v: seq<string>): (r: Dict)
    ensures Valid(d) ==> Valid(r)
    ensures r.entries == d.entries[k := v]
    ensures r.keys == if k in d.entries then d.keys else d.keys + [k]
  {
    if k in d.entries then Dict(d.keys, d.entries[k := v])
    else Dict(d.keys + [k], d.entries[k := v])
  }

  /** `list(set(s))`; the order of a Python set is unspecified, so only its elements are promised. */
  function Dedup(s: seq<string>): (r: seq<string>)
    ensures NoDups(r)
    ensures forall x :: x in r <==> x in s
  {
    if s == [] then []
    else
      var r0 := Dedup(s[..|s| - 1]);
      if s[|s| - 1] in r0 then r0 else r0 + [s[|s| - 1]]
  }

  // ---------------------------------------------------------------------------
  // End rows

  /** The end row of heading `i`: the next heading's start row, or 1000 for the last one. */
  function EndRow(hs: seq<Heading>, i: nat): int
    requires i < |hs|
  {
    if i + 1 < |hs| then hs[i + 1].row else LastEnd
  }

  /** Every heading carries its end row. */
  predicate EndsSet(hs: seq<Heading>)
  {
    forall i :: 0 <= i < |hs| ==> hs[i].end == Some(EndRow(hs, i))
  }

  /**
   * Appends the end row to every heading in place; with no headings the source
   * raises after its (empty) loop and nothing has changed.
   */
  method AddEndRows(hs: array<Heading>) returns (ok: bool)
    modifies hs
    ensures ok <==> hs.Length > 0
    ensures forall i :: 0 <= i < hs.Length ==>
      hs[i] == old(hs[i]).(end := Some(EndRow(old(hs[..]), i)))
  {
    ghost var before := hs[..];
    var i := 0;
    while i + 1 < hs.Length
      invariant i <= hs.Length
      invariant hs.Length > 0 ==> i < hs.Length
      invariant forall j :: 0 <= j < i ==> hs[j] == before[j].(end := Some(before[j + 1].row))
      invariant forall j :: i <= j < hs.Length ==> hs[j] == before[j]
    {
      hs[i] := hs[i].(end := Some(hs[i + 1].row));
      i := i + 1;
    }
    if hs.Length == 0 {
      return false;
    }
    hs[hs.Length - 1] := hs[hs.Length - 1].(end := Some(LastEnd));
    return true;
  }

  /** Filling in the end rows changes no start row, so the result carries its own end rows. */
  lemma AddedEndsSet(before: seq<Heading>, after: seq<Heading>)
    requires |after| == |before|
    requires forall i :: 0 <= i < |after| ==> after[i] == before[i].(end := Some(EndRow(before, i)))
    ensures EndsSet(after)
    ensures forall i :: 0 <= i < |after| ==> after[i].text == before[i].text && after[i].row == before[i].row
  {
    forall i | 0 <= i < |after| ensures after[i].end == Some(EndRow(after, i)) {
      if i + 1 < |after| {
        assert after[i + 1].row == before[i + 1].row;
      }
    }
  }

  // ---------------------------------------------------------------------------
  // Link assignment

  /** The uris of the links strictly between a heading's start and end rows, in link order. */
  function Assigned(h: Heading, links: seq<Link>): (r: seq<string>)
    requires h.end.Some?
    ensures |r| <= |links|
  {
    if links == [] then []
    else
      var l := links[|links| - 1];
      Assigned(h, links[..|links| - 1]) + if h.row < l.row < h.end.value then [l.uri] else []
  }

  /** A uri is assigned to a heading exactly when some link with that uri lies strictly inside its section. */
  lemma {:induction false} AssignedIff(h: Heading, links: seq<Link>, u: string)
    requires h.end.Some?
    ensures u in Assigned(h, links) <==> exists l :: l in links && l.uri == u && h.row < l.row < h.end.value
  {
    if links != [] {
      var init := links[..|links| - 1];
      AssignedIff(h, init, u);
      assert forall l :: l in links <==> l in init || l == links[|links| - 1];
    }
  }

  /** Heading `i` gets an entry: it is not on row 0 and some link falls in its section. */
  predicate Kept(hs: seq<Heading>, links: seq<Link>, i: nat)
    requires i < |hs| && hs[i].end.Some?
  {
    hs[i].row != 0 && Assigned(hs[i], links) != []
  }

  predicate AllEnded(hs: seq<Heading>)
  {
    forall i :: 0 <= i < |hs| ==> hs[i].end.Some?
  }

  /** `links_under_headings` after the headings `hs` have been processed in order. */
  function SectionsOf(hs: seq<Heading>, links: seq<Link>): Dict
    requires AllEnded(hs)
  {
    if hs == [] then Dict([], map[])
    else
      var d := SectionsOf(hs[..|hs| - 1], links);
      var h := hs[|hs| - 1];
      if h.row == 0 then d
      else
        var sub := Assigned(h, links);
        if sub == [] then d else Put(d, h.text, Dedup(sub))
  }

  /** The grouping loop of `add_data_to_doc`, reading the end rows appended earlier. */
  method CollectSections(hs: array<Heading>, links: seq<Link>) returns (d: Dict)
    requires AllEnded(hs[..])
    ensures d == SectionsOf(hs[..], links)
  {
    d := Dict([], map[]);
    var subLinks: seq<string> := [];
    for i := 0 to hs.Length
      invariant d == SectionsOf(hs[..i], links)
      invariant subLinks == []
    {
      var heading := hs[i];
      assert hs[..i + 1][..i] == hs[..i];
      if heading.row != 0 {
        for j := 0 to |links|
          invariant subLinks == Assigned(heading, links[..j])
        {
          assert links[..j + 1][..j] == links[..j];
          if heading.row < links[j].row < heading.end.value {
            subLinks := subLinks + [links[j].uri];
          }
        }
        assert links[..|links|] == links;
        if subLinks != [] {
          d := Put(d, heading.text, Dedup(subLinks));
          subLinks := [];
        }
      }
    }
    assert hs[..hs.Length] == hs[..];
  }

  // ---------------------------------------------------------------------------
  // Properties of the grouping

  /** The dictionary's key order and its entries agree, with no key twice. */
  lemma {:induction false} SectionsValid(hs: seq<Heading>, links: seq<Link>)
    requires AllEnded(hs)
    ensures Valid(SectionsOf(hs, links))
  {
    if hs != [] {
      SectionsValid(hs[..|hs| - 1], links);
    }
  }

  /** Heading `i` of a prefix is kept exactly when it is kept in the whole list. */
  lemma KeptPrefix(hs: seq<Heading>, links: seq<Link>, n: nat)
    requires AllEnded(hs) && n <= |hs|
    ensures AllEnded(hs[..n])
    ensures forall i :: 0 <= i < n ==> hs[..n][i] == hs[i] && (Kept(hs[..n], links, i) <==> Kept(hs, links, i))
  {
  }

  /** The last heading either adds (or overwrites) its entry or leaves the dictionary alone. */
  lemma SectionsOfLast(hs: seq<Heading>, links: seq<Link>)
    requires AllEnded(hs) && hs != []
    ensures AllEnded(hs[..|hs| - 1])
    ensures SectionsOf(hs, links) ==
      if Kept(hs, links, |hs| - 1)
      then Put(SectionsOf(hs[..|hs| - 1], links), hs[|hs| - 1].text, Dedup(Assigned(hs[|hs| - 1], links)))
      else SectionsOf(hs[..|hs| - 1], links)
  {
  }

  /** The last heading that is kept and carries text `k`, or -1 when there is none. */
  function LastKept(hs: seq<Heading>, links: seq<Link>, k: string): (i: int)
    requires AllEnded(hs)
    ensures -1 <= i < |hs|
    ensures i >= 0 ==> Kept(hs, links, i) && hs[i].text == k
    ensures forall j :: i < j < |hs| ==> !(Kept(hs, links, j) && hs[j].text == k)
  {
    if hs == [] then -1
    else if Kept(hs, links, |hs| - 1) && hs[|hs| - 1].text == k then |hs| - 1
    else
      KeptPrefix(hs, links, |hs| - 1);
      LastKept(hs[..|hs| - 1], links, k)
  }

  /** The first heading that is kept and carries text `k`, or -1 when there is none. */
  function FirstKept(hs: seq<Heading>, links: seq<Link>, k: string): (i: int)
    requires AllEnded(hs)
    ensures -1 <= i < |hs|
    ensures i >= 0 ==> Kept(hs, links, i) && hs[i].text == k
    ensures forall j :: 0 <= j < |hs| && (i < 0 || j < i) ==> !(Kept(hs, links, j) && hs[j].text == k)
  {
    if hs == [] then -1
    else
      KeptPrefix(hs, links, |hs| - 1);
      var f := FirstKept(hs[..|hs| - 1], links, k);
      if f >= 0 then f
      else if Kept(hs, links, |hs| - 1) && hs[|hs| - 1].text == k then |hs| - 1
      else -1
  }

  /** A heading text is a key exactly when it has a first kept heading. */
  lemma {:induction false} KeyIffFirstKept(hs: seq<Heading>, links: seq<Link>, k: string)
    requires AllEnded(hs)
    ensures k in SectionsOf(hs, links).entries <==> FirstKept(hs, links, k) >= 0
  {
    if hs != [] {
      var n := |hs| - 1;
      SectionsOfLast(hs, links);
      KeptPrefix(hs, links, n);
      KeyIffFirstKept(hs[..n], links, k);
    }
  }

  /** A heading text is a key exactly when some kept heading carries it. */
  lemma SectionKeys(hs: seq<Heading>, links: seq<Link>, k: string)
    requires AllEnded(hs)
    ensures k in SectionsOf(hs, links).entries <==>
      exists i :: 0 <= i < |hs| && Kept(hs, links, i) && hs[i].text == k
  {
    KeyIffFirstKept(hs, links, k);
    var f := FirstKept(hs, links, k);
    if f >= 0 {
      assert Kept(hs, links, f) && hs[f].text == k;
    }
  }

  /**
   * The dictionary lists its keys in the order their first kept heading
   * appears: a repeated heading text keeps the place of its first occurrence,
   * although its entry is that of the last one.
   */
  lemma {:induction false} KeyOrder(hs: seq<Heading>, links: seq<Link>)
    requires AllEnded(hs)
    ensures var keys := SectionsOf(hs, links).keys;
      forall i, j :: 0 <= i < j < |keys| ==>
        0 <= FirstKept(hs, links, keys[i]) < FirstKept(hs, links, keys[j])
  {
    if hs != [] {
      var n := |hs| - 1;
      var init := hs[..n];
      SectionsOfLast(hs, links);
      KeptPrefix(hs, links, n);
      KeyOrder(init, links);
      var before := SectionsOf(init, links);
      var keys := SectionsOf(hs, links).keys;
      forall i | 0 <= i < |before.keys| ensures FirstKept(hs, links, before.keys[i]) == FirstKept(init, links, before.keys[i]) >= 0 {
        SectionsValid(init, links);
        KeyIffFirstKept(init, links, before.keys[i]);
      }
      if keys != before.keys {
        var k := hs[n].text;
        assert keys == before.keys + [k] && k !in before.entries;
        KeyIffFirstKept(init, links, k);
        assert FirstKept(hs, links, k) == n;
      }
    }
  }

  /**
   * The entry of a key holds the distinct uris assigned to the LAST kept heading
   * with that text: a repeated heading text overwrites the earlier entry.
   */
  lemma {:induction false} SectionEntry(hs: seq<Heading>, links: seq<Link>, k: string)
    requires AllEnded(hs)
    requires k in SectionsOf(hs, links).entries
    ensures LastKept(hs, links, k) >= 0
    ensures SectionsOf(hs, links).entries[k] == Dedup(Assigned(hs[LastKept(hs, links, k)], links))
  {
    var n := |hs| - 1;
    SectionsOfLast(hs, links);
    KeptPrefix(hs, links, n);
    if !(Kept(hs, links, n) && hs[n].text == k) {
      SectionEntry(hs[..n], links, k);
    }
  }

  /** Every entry is a non-empty, duplicate-free list of exactly the uris assigned to its heading. */
  lemma SectionEntryContents(hs: seq<Heading>, links: seq<Link>, k: string)
    requires AllEnded(hs)
    requires k in SectionsOf(hs, links).entries
    ensures SectionsOf(hs, links).entries[k] != []
    ensures NoDups(SectionsOf(hs, links).entries[k])
    ensures exists i :: (
      && 0 <= i < |hs| && hs[i].text == k && hs[i].row != 0
      && forall u :: u in SectionsOf(hs, links).entries[k] <==>
           exists l :: l in links && l.uri == u && hs[i].row < l.row < hs[i].end.value)
  {
    SectionEntry(hs, links, k);
    var i := LastKept(hs, links, k);
    var a := Assigned(hs[i], links);
    assert a[0] in Dedup(a);
    forall u ensures u in a <==> exists l :: l in links && l.uri == u && hs[i].row < l.row < hs[i].end.value {
      AssignedIff(hs[i], links, u);
    }
  }

  // ---------------------------------------------------------------------------
  // Section ranges

  /** Row `r` lies strictly inside heading `i`'s section. */
  predicate InSection(hs: seq<Heading>, i: nat, r: int)
    requires i < |hs|
  {
    hs[i].row < r < EndRow(hs, i)
  }

  /**
   * Once every heading carries its end row, the range test of the grouping
   * loop is exactly `InSection`: the links `SectionsOf` assigns to a heading
   * are those whose rows lie in its section.
   */
  lemma EndedInSection(hs: seq<Heading>, i: nat, r: int)
    requires EndsSet(hs) && i < |hs|
    ensures hs[i].end.Some?
    ensures hs[i].row < r < hs[i].end.value <==> InSection(hs, i, r)
  {
    assert hs[i].end == Some(EndRow(hs, i));
  }

  /** With end rows filled in, a heading is assigned exactly the uris of links in its section. */
  lemma AssignedInSection(hs: seq<Heading>, links: seq<Link>, i: nat, u: string)
    requires EndsSet(hs) && i < |hs|
    ensures hs[i].end.Some?
    ensures u in Assigned(hs[i], links) <==> exists l :: l in links && l.uri == u && InSection(hs, i, l.row)
  {
    EndedInSection(hs, i, 0);
    AssignedIff(hs[i], links, u);
    forall l | l in links ensures hs[i].row < l.row < hs[i].end.value <==> InSection(hs, i, l.row) {
      EndedInSection(hs, i, l.row);
    }
  }

  predicate RowsIncreasing(hs: seq<Heading>)
  {
    forall i, j :: 0 <= i < j < |hs| ==> hs[i].row < hs[j].row
  }

  /** With headings in row order, a row inside one section lies inside no other. */
  lemma AtMostOneSection(hs: seq<Heading>, r: int, i: nat)
    requires RowsIncreasing(hs)
    requires i < |hs| && InSection(hs, i, r)
    ensures forall j :: 0 <= j < |hs| && j != i ==> !InSection(hs, j, r)
  {
    forall j | 0 <= j < |hs| && j != i ensures !InSection(hs, j, r) {
      if j < i {
        assert EndRow(hs, j) <= hs[i].row;
      } else {
        assert hs[i + 1].row <= hs[j].row;
      }
    }
  }

  /**
   * Links that no section takes: before or on the first heading's row, on any
   * heading's own row, or at row 1000 or later past the last heading.
   */
  lemma DroppedRows(hs: seq<Heading>, r: int)
    requires RowsIncreasing(hs) && hs != []
    requires || r <= hs[0].row
             || (exists k :: 0 <= k < |hs| && hs[k].row == r)
             || (r >= LastEnd && r >= hs[|hs| - 1].row)
    ensures forall i :: 0 <= i < |hs| ==> !InSection(hs, i, r)
  {
    var last := |hs| - 1;
    forall i | 0 <= i < |hs| ensures !InSection(hs, i, r) {
      if r <= hs[0].row {
        assert 0 < i ==> hs[0].row < hs[i].row;
      } else if exists k :: 0 <= k < |hs| && hs[k].row == r {
        var k :| 0 <= k < |hs| && hs[k].row == r;
        assert i < k ==> hs[i + 1].row <= hs[k].row;
        assert k < i ==> hs[k].row < hs[i].row;
      } else {
        assert i < last ==> hs[i + 1].row <= hs[last].row;
      }
    }
  }

  /**
   * The half-open ranges [start, end) of headings in row order cover every row
   * from the first heading up to 1000.
   */
  lemma {:induction false} RangesCover(hs: seq<Heading>, r: int)
    requires RowsIncreasing(hs) && hs != []
    requires hs[0].row <= r < LastEnd
    ensures exists i :: 0 <= i < |hs| && hs[i].row <= r < EndRow(hs, i)
  {
    var n := |hs|;
    if hs[n - 1].row <= r {
      assert hs[n - 1].row <= r < EndRow(hs, n - 1);
    } else {
      var init := hs[..n - 1];
      assert init[0] == hs[0];
      RangesCover(init, r);
      var i :| 0 <= i < |init| && init[i].row <= r < EndRow(init, i);
      assert hs[i].row <= r < EndRow(hs, i);
    }
  }
}
