/**
 * An idealised reading of the planned requests: their effect on a plain body
 * text whose positions are counted like `|s|`, starting at 1. A fresh
 * document's body is one empty paragraph; an insert at index i puts its text
 * before the character at i, and the style, paragraph and bullet requests
 * leave the characters as they are. This gives the plan an independent
 * meaning: the title batch followed by the sections batch writes exactly the
 * intended outline (the title, a blank line, then per heading its line, one
 * line per link and a blank line). It says nothing about how the remote
 * service counts positions or lays out the result.
 */
module DocumentText {
  import opened Wrappers
  import opened RequestPlanner

  /** The body of a freshly created document: one empty paragraph. */
  const EmptyBody: string := "\n"

  /** The body after one request; an insert outside the body is rejected. */
  function Apply(body: string, r: Request): (b: Option<string>)
    ensures b.Some? && r.InsertText? ==> |b.value| == |body| + |r.text|
    ensures b.Some? && !r.InsertText? ==> b.value == body
  {
    match r
    case InsertText(index, text) =>
      if 1 <= index <= |body| then Some(body[..index - 1] + text + body[index - 1..]) else None
    case _ => Some(body)
  }

  /** The body after the requests of one batch, in order; `None` once one is rejected. */
  function ApplyAll(body: string, reqs: seq<Request>): Option<string>
    decreases reqs
  {
    if reqs == [] then Some(body)
    else
      match Apply(body, reqs[0])
      case None => None
      case Some(next) => ApplyAll(next, reqs[1..])
  }

  /** The lines of a section's links. */
  function RenderLinks(links: seq<string>): string
  {
    if links == [] then "" else RenderLinks(links[..|links| - 1]) + (links[|links| - 1] + "\n")
  }

  /** One section: its heading line, its link lines, then a blank line. */
  function RenderSection(heading: string, links: seq<string>): string
  {
    heading + "\n" + RenderLinks(links) + "\n"
  }

  /** The sections `secs`, in order. */
  function RenderSections(secs: seq<Section>): string
  {
    if secs == [] then ""
    else
      var last := secs[|secs| - 1];
      RenderSections(secs[..|secs| - 1]) + RenderSection(last.heading, last.links)
  }

  /** The finished outline: the title, a blank line, the sections, and the trailing blank paragraphs. */
  function Rendered(title: string, secs: seq<Section>): string
  {
    title + "\n\n" + RenderSections(secs) + "\n\n"
  }

  // ---------------------------------------------------------------------------

  /** Applying two batches in turn is applying their concatenation. */
  lemma {:induction false} ApplyAllAppend(body: string, a: seq<Request>, b: seq<Request>)
    ensures ApplyAll(body, a + b) ==
      match ApplyAll(body, a)
      case None => None
      case Some(mid) => ApplyAll(mid, b)
    decreases a
  {
    if a == [] {
      assert a + b == b;
    } else {
      assert (a + b)[1..] == a[1..] + b;
      match Apply(body, a[0])
      case None =>
      case Some(next) => ApplyAllAppend(next, a[1..], b);
    }
  }

  /** Running one batch to `mid` and the next from `mid` to `result` runs both to `result`. */
  lemma ApplyAllThen(body: string, a: seq<Request>, b: seq<Request>, mid: string, result: string)
    requires ApplyAll(body, a) == Some(mid) && ApplyAll(mid, b) == Some(result)
    ensures ApplyAll(body, a + b) == Some(result)
  {
    ApplyAllAppend(body, a, b);
  }

  /** Regrouping a concatenation of three strings. */
  lemma Regroup(a: string, b: string, c: string)
    ensures a + (b + c) == a + b + c
  {
  }

  /** The heading line, the link lines and the closing newline, written in turn, form the section. */
  lemma JoinSectionText(before: string, heading: string, lines: string, after: string)
    ensures (before + heading + "\n") + lines + ("\n" + after) == before + (heading + "\n" + lines + "\n") + after
  {
  }

  /** An insert at the cursor just past `before` lands between `before` and `after`. */
  lemma InsertAtCursor(before: string, after: string, text: string)
    requires after != []
    ensures Apply(before + after, InsertText(|before| + 1, text)) == Some(before + text + after)
  {
    var body := before + after;
    assert body[..|before|] == before;
    assert body[|before|..] == after;
  }

  /** An insert followed by a style request: the style leaves the text alone. */
  lemma InsertThenStyle(before: string, after: string, text: string, style: Request)
    requires after != [] && !style.InsertText?
    ensures ApplyAll(before + after, [InsertText(|before| + 1, text), style]) == Some(before + text + after)
  {
    var reqs := [InsertText(|before| + 1, text), style];
    InsertAtCursor(before, after, text);
    var done := before + text + after;
    assert reqs[1..] == [style];
    assert [style][1..] == [];
    assert ApplyAll(done, [style]) == ApplyAll(done, []);
  }

  lemma {:induction false} RenderLinksWidth(links: seq<string>)
    ensures |RenderLinks(links)| == LinksWidth(links)
  {
    if links != [] {
      RenderLinksWidth(links[..|links| - 1]);
    }
  }

  lemma {:induction false} RenderSectionsWidth(secs: seq<Section>)
    ensures |RenderSections(secs)| == SectionsWidth(secs)
  {
    if secs != [] {
      var last := secs[|secs| - 1];
      RenderSectionsWidth(secs[..|secs| - 1]);
      RenderLinksWidth(last.links);
    }
  }

  /** After a batch that leaves the cursor just past `prefix`, an insert there and a style write that line. */
  lemma AppendLine(body: string, reqs: seq<Request>, prefix: string, after: string, line: string, style: Request)
    requires after != [] && !style.InsertText?
    requires ApplyAll(body, reqs) == Some(prefix + after)
    ensures ApplyAll(body, reqs + [InsertText(|prefix| + 1, line), style]) == Some(prefix + line + after)
  {
    InsertThenStyle(prefix, after, line, style);
    ApplyAllThen(body, reqs, [InsertText(|prefix| + 1, line), style], prefix + after, prefix + line + after);
  }

  /** The link requests, with the cursor just past `before`, write the link lines there. */
  lemma {:induction false} LinksRender(before: string, after: string, links: seq<string>)
    requires after != []
    ensures ApplyAll(before + after, LinkRequests(links, |before| + 1)) == Some(before + RenderLinks(links) + after)
  {
    if links == [] {
      assert before + RenderLinks(links) + after == before + after;
    } else {
      var init := links[..|links| - 1];
      var link := links[|links| - 1];
      var shown := RenderLinks(init);
      var prefix := before + shown;
      LinksRender(before, after, init);
      RenderLinksWidth(init);
      assert before + shown + after == prefix + after;
      var at := |prefix| + 1;
      var style := UpdateTextStyle(at, at + |link|, LinkTo(link));
      AppendLine(before + after, LinkRequests(init, |before| + 1), prefix, after, link + "\n", style);
      assert LinkRequests(links, |before| + 1) == LinkRequests(init, |before| + 1) + [InsertText(at, link + "\n"), style];
      assert before + (shown + (link + "\n")) == before + shown + (link + "\n");
    }
  }

  /** One section's requests, with the cursor just past `before`, write the section there. */
  lemma SectionRender(before: string, after: string, heading: string, links: seq<string>)
    requires after != []
    ensures ApplyAll(before + after, SectionRequests(heading, links, |before| + 1))
      == Some(before + RenderSection(heading, links) + after)
  {
    var cursor := |before| + 1;
    var bulletStart := cursor + |heading| + 1;
    var head := [InsertText(cursor, heading + "\n\n"), UpdateTextStyle(cursor, cursor + |heading|, Bold)];
    var body := LinkRequests(links, bulletStart);
    var tail := [CreateBullets(bulletStart, bulletStart + LinksWidth(links))];
    assert SectionRequests(heading, links, cursor) == head + (body + tail);
    InsertThenStyle(before, after, heading + "\n\n", head[1]);
    var linePrefix := before + heading + "\n";
    var rest := "\n" + after;
    assert before + (heading + "\n\n") + after == linePrefix + rest;
    LinksRender(linePrefix, rest, links);
    var done := linePrefix + RenderLinks(links) + rest;
    assert ApplyAll(done, tail) == Some(done) by {
      assert tail[1..] == [];
    }
    ApplyAllThen(linePrefix + rest, body, tail, done, done);
    ApplyAllThen(before + after, head, body + tail, linePrefix + rest, done);
    JoinSectionText(before, heading, RenderLinks(links), after);
  }

  /** After a batch that leaves the cursor just past `prefix`, one section's requests write that section. */
  lemma AppendSection(body: string, reqs: seq<Request>, prefix: string, after: string, heading: string, links: seq<string>)
    requires after != []
    requires ApplyAll(body, reqs) == Some(prefix + after)
    ensures ApplyAll(body, reqs + SectionRequests(heading, links, |prefix| + 1))
      == Some(prefix + RenderSection(heading, links) + after)
  {
    SectionRender(prefix, after, heading, links);
    ApplyAllThen(body, reqs, SectionRequests(heading, links, |prefix| + 1), prefix + after,
      prefix + RenderSection(heading, links) + after);
  }

  /** Both folds over sections end with the last section's own part. */
  lemma SectionsUnfold(init: seq<Section>, last: Section, cursor: int)
    ensures SectionsRequests(init + [last], cursor)
      == SectionsRequests(init, cursor) + SectionRequests(last.heading, last.links, cursor + SectionsWidth(init))
    ensures RenderSections(init + [last]) == RenderSections(init) + RenderSection(last.heading, last.links)
  {
    assert (init + [last])[..|init|] == init;
  }

  /** One more section after sections already written at the cursor: it is written right after them. */
  lemma SectionsRenderStep(before: string, after: string, init: seq<Section>, last: Section)
    requires after != []
    requires ApplyAll(before + after, SectionsRequests(init, |before| + 1)) == Some(before + RenderSections(init) + after)
    ensures ApplyAll(before + after, SectionsRequests(init + [last], |before| + 1))
      == Some(before + RenderSections(init + [last]) + after)
  {
    var shown := RenderSections(init);
    var section := RenderSection(last.heading, last.links);
    SectionsUnfold(init, last, |before| + 1);
    RenderSectionsWidth(init);
    var prefix := before + shown;
    assert |prefix| + 1 == |before| + 1 + SectionsWidth(init);
    AppendSection(before + after, SectionsRequests(init, |before| + 1), prefix, after, last.heading, last.links);
    Regroup(before, shown, section);
  }

  /** The sections batch, with the cursor just past `before`, writes every section there in order. */
  lemma {:induction false} SectionsRender(before: string, after: string, secs: seq<Section>)
    requires after != []
    ensures ApplyAll(before + after, SectionsRequests(secs, |before| + 1))
      == Some(before + RenderSections(secs) + after)
  {
    if secs == [] {
      assert before + RenderSections(secs) + after == before + after;
    } else {
      var init := secs[..|secs| - 1];
      SectionsRender(before, after, init);
      SectionsRenderStep(before, after, init, secs[|secs| - 1]);
      assert init + [secs[|secs| - 1]] == secs;
    }
  }

  /**
   * On a fresh document, the title batch followed by the sections batch is
   * accepted (every insert lies inside the body) and leaves exactly the
   * rendered outline.
   */
  lemma PlanRenders(title: string, secs: seq<Section>)
    ensures ApplyAll(EmptyBody, TitleRequests(title) + SectionsRequests(secs, FirstCursor(title)))
      == Some(Rendered(title, secs))
  {
    var t := TitleRequests(title);
    var s := SectionsRequests(secs, FirstCursor(title));
    var start: string := [];
    InsertThenStyle(start, EmptyBody, title + "\n\n\n", t[1]);
    assert t == [InsertText(|start| + 1, title + "\n\n\n"), t[1]];
    var before := title + "\n\n";
    var after := "\n\n";
    assert start + (title + "\n\n\n") + EmptyBody == before + after;
    assert start + EmptyBody == EmptyBody;
    SectionsRender(before, after, secs);
    ApplyAllThen(EmptyBody, t, s, before + after, Rendered(title, secs));
  }
}
