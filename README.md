# Source doc generator, modelled in Dafny

The tool reads column A of a script sheet and turns it into a "Sources"
document. The first row is the title. Bold, centred rows are section headings.
Hyperlinks in the rows below a heading become that section's bulleted links.
This project models the data-shaping core of `main.py` in Dafny and proves what
it promises:

- **Row scanner** (`process_data`): `RowScanner`, in `row_scanner.dfy`. Each
  cell's nested format record is decoded into `Cell`, and a missing key becomes
  `None`. `ProcessData` runs the row loop against `Scan`, a left fold over row
  prefixes. `Scan` records which rows yield headings and links, and where a
  lookup error ends the scan.
- **Section grouper** (first half of `add_data_to_doc`): `SectionGrouper`, in
  `section_grouper.dfy`. `AddEndRows` appends end rows to the heading array in
  place. `CollectSections` fills the insertion-ordered dictionary
  `links_under_headings` (modelled as `Dict`). It is proved against
  `SectionsOf`, which processes the headings in order.
- **Request planner** (second half of `add_data_to_doc`): `RequestPlanner`, in
  `request_planner.dfy`. It builds the title batch and the sections batch.
  `Items` lists the dictionary's sections in key order, as `.items()` does.
  `PlanSections` threads `current_index` through the heading and link loops.
- **Document text** (`document_text.dfy`): an idealised text-buffer reading of
  the requests. The title batch followed by the sections batch writes exactly
  the intended outline.
- **Top level** (`source_doc.dfy`): `AddDataToDoc` composes the grouper and the
  planner. Its result is the request lists that the two `batchUpdate` calls
  would send.

`wrappers.dfy` holds `Option`, `Result` and `NoDups`.

## Model

| member | source | states |
|---|---|---|
| RowScanner.MissingAlignmentStopsIff | main.py:98-124 | A row whose `strikethrough` and `bold` are present but whose `horizontalAlignment` is missing stops the scan exactly when it reaches the heading check. |
| RowScanner.RunLinks | main.py:108-116 | A LINKED row yields one link per run that carries a uri, all on that row. No more links than runs. A uri is linked exactly when a run carries it. |
| RowScanner.ScanRow | main.py:98-130 | A row stops the scan exactly when a lookup escapes every inner `except`. It adds a heading only if it has a display type, is not struck through, is bold and CENTER, and has text. It adds links only if it is LINKED with runs and not struck through. |
| RowScanner.ScanStep | main.py:97-130 | Scanning one more row appends that row's headings and links, unless the scan has already stopped. |
| RowScanner.ScanCell | main.py:98-130 | The loop body, including the inner run loop, appends exactly what `ScanRow` says. It reports a raise exactly when the row stops the scan. |
| RowScanner.ProcessData | main.py:85-137 | Fails exactly when the row-0 title is missing. Otherwise it returns the title and the headings and links of `Scan`, including the partial lists after an early stop. |
| RowScanner.ScanPrefix | main.py:129-137 | A longer scan extends a shorter one. Once stopped, the result no longer changes. |
| RowScanner.ScanSound | main.py:102-127 | Every heading comes from a heading row and carries its text. Every link comes from a LINKED, not struck-through row and is one of its run uris. |
| RowScanner.SkippedRowContributesNothing | main.py:102-120 | These rows contribute no heading and no link: a row without a display type, a struck-through row, and a LINKED row without runs. |
| RowScanner.ScanOrdered | main.py:122-130 | Heading rows strictly increase. Link rows never decrease. |
| RowScanner.RunningIff | main.py:97-130 | The scan of the first i rows is still running exactly when none of them stops it. |
| RowScanner.StopEndsScan | main.py:98-137 | A stopping row ends the scan. What came before it is kept, and nothing after it is collected. |
| RowScanner.HeadingComplete | main.py:122-127 | Every heading row that a running scan reaches is recorded with its text and row. |
| RowScanner.LinkComplete | main.py:108-116 | Every uri-carrying run of a LINKED row that a running scan reaches is recorded. |
| RowScanner.RunLinksAppend | main.py:110-116 | Runs are searched in order, so links follow run order. |
| SectionGrouper.Put | main.py:169 | Storing a key sets its entry. A new key goes last, an existing key keeps its place, and the keys stay duplicate-free and in step with the entries. |
| SectionGrouper.Dedup | main.py:169 | `list(set(..))` is duplicate-free and has exactly the input's elements. |
| SectionGrouper.AddEndRows | main.py:147-155 | Each heading gets the next heading's start row as its end, and the last gets 1000. Text and start rows are unchanged. An empty list fails with nothing changed. |
| SectionGrouper.AddedEndsSet | main.py:148-155 | After that step every heading carries its own end row. |
| SectionGrouper.Assigned | main.py:161-163 | A heading's assigned uris are drawn from the links, never more than there are links. |
| SectionGrouper.AssignedIff | main.py:161-163 | A uri is assigned to a heading exactly when some link with that uri lies strictly between its start and end rows. |
| SectionGrouper.CollectSections | main.py:156-170 | The grouping loop, with `sub_links` reset after each store, builds exactly `SectionsOf`. |
| SectionGrouper.SectionsValid | main.py:156-170 | The dictionary has no repeated key, and its key order covers exactly its entries. |
| SectionGrouper.KeptPrefix | main.py:156-170 | Whether a heading is kept does not depend on the headings after it. |
| SectionGrouper.SectionsOfLast | main.py:156-170 | The last heading either stores or overwrites its entry, or leaves the dictionary alone. |
| SectionGrouper.SectionKeys | main.py:156-170 | A heading text is a key exactly when some heading with that text is off row 0 and received at least one link. |
| SectionGrouper.LastKept | main.py:165-170 | Finds the last kept heading with a given text, or none. |
| SectionGrouper.FirstKept | main.py:156-170 | Finds the first kept heading with a given text, or none. |
| SectionGrouper.KeyIffFirstKept | main.py:156-170 | A heading text is a key exactly when it has a first kept heading. |
| SectionGrouper.KeyOrder | main.py:165-170 | The dictionary's keys are in the order of their first kept heading. A repeated text keeps its first place, although its entry comes from the last one. |
| SectionGrouper.SectionEntry | main.py:165-170 | An entry holds the de-duplicated uris of the last kept heading with that text, because a repeated text overwrites. |
| SectionGrouper.SectionEntryContents | main.py:161-170 | Every entry is non-empty and duplicate-free. Its uris are exactly those of the links strictly inside one heading's section, and that heading is off row 0. |
| SectionGrouper.EndedInSection | main.py:148-162 | Once every heading carries its end row, the grouping loop's strict range test is exactly membership of the row in that heading's section. |
| SectionGrouper.AssignedInSection | main.py:148-163 | With end rows filled in, a uri is assigned to a heading exactly when some link carrying it lies in that heading's section. |
| SectionGrouper.AtMostOneSection | main.py:148-163 | With headings in row order, a row inside one section lies inside no other. |
| SectionGrouper.DroppedRows | main.py:148-163 | A link is in no section when its row is on or before the first heading, on a heading's own row, or at 1000 or later past the last heading. |
| SectionGrouper.RangesCover | main.py:148-155 | The half-open ranges [start, end) cover every row from the first heading up to 1000, wherever the last heading lies. |
| RequestPlanner.TitleRequests | main.py:176-205 | The title batch is an insert at index 1 of the title plus three newlines, then the title paragraph style. |
| RequestPlanner.LinkRequests | main.py:241-264 | Each link emits two requests. |
| RequestPlanner.PlanSection | main.py:214-279 | One pass of the heading loop emits exactly that section's requests and advances the cursor by the section's width. |
| RequestPlanner.PlanSections | main.py:210-279 | The heading loop emits every section's requests in dictionary order. The cursor ends at len(title)+3 plus the sum of the section widths. |
| RequestPlanner.LinkRequestsInsert | main.py:241-264 | The link requests insert exactly as many characters as they move the cursor. |
| RequestPlanner.SectionInserts | main.py:214-279 | A section emits 3 + 2·links requests and inserts exactly len(heading)+2+Σ(len(link)+1) characters, its cursor advance. |
| RequestPlanner.SectionsInsert | main.py:214-279 | The sections batch inserts exactly as many characters as the cursor moves. |
| RequestPlanner.FinalCursorIsInsertedChars | main.py:176-279 | The final cursor equals the number of characters inserted by both batches together. |
| RequestPlanner.CursorIncreases | main.py:214-279 | The cursor strictly increases from one section to the next. |
| RequestPlanner.LinkRequestsAt | main.py:241-264 | Link j's insert sits at the bullet start plus the widths of the links before it, followed by its link style. |
| RequestPlanner.SectionShape | main.py:214-276 | A section emits 3 + 2·links requests. It opens with the heading insert at the cursor and bold over exactly the heading. It closes with bullets from the bullet start over exactly the characters the link inserts add. |
| RequestPlanner.SectionLinkAt | main.py:241-264 | Link j sits at positions 2+2j and 3+2j of its section. Its insert puts the link and a newline at the bullet start plus the widths of the links before it. Its link style covers exactly the link text, with the link as url. |
| RequestPlanner.LinkRequestsWellFormed | main.py:241-264 | Link inserts increase within the links' width, and each link style directly follows its insert. |
| RequestPlanner.SectionWellFormed | main.py:214-279 | A section's inserts increase within its width, and each style directly follows its insert. |
| RequestPlanner.SectionsWellFormed | main.py:214-279 | The same holds across all sections. |
| RequestPlanner.SectionsFirst | main.py:214-222 | A non-empty sections batch opens with the first heading's insert at the cursor. |
| RequestPlanner.TitleThen | main.py:176-211 | For a non-empty title, the title batch followed by a well-formed batch starting at len(title)+3 is well formed from index 1. |
| RequestPlanner.TitleStyleIff | main.py:176-205 | The title style's range (1, len(title)) starts at its insert, is not inverted and ends inside the inserted text exactly when the title is non-empty. |
| RequestPlanner.PlanWellFormed | main.py:176-279 | For a non-empty title, across both batches, inserts strictly increase. Every style starts at the insert before it, is not inverted, and ends inside that text. A text style stops exactly at the line's newline, and a link's url is the text it styles. |
| DocumentText.ApplyAllAppend | main.py:208-282 | Sending one batch and then another has the effect of sending their concatenation, and fails if either fails. |
| DocumentText.Apply | main.py:176-279 | An accepted insert grows the body by its text. A style, paragraph-style or bullet request leaves it unchanged. |
| DocumentText.RenderLinksWidth | main.py:241-264 | The link lines are exactly the links' cursor advance long. |
| DocumentText.RenderSectionsWidth | main.py:214-279 | The rendered sections are exactly the sections' cursor advance long. |
| DocumentText.LinksRender | main.py:241-264 | With the cursor at a point in the body, the link requests write the link lines there. |
| DocumentText.AppendLine | main.py:241-264 | Once earlier requests leave the cursor just past `prefix`, a link's insert and its style write that line right there. |
| DocumentText.SectionRender | main.py:214-279 | A section's requests write its heading line, link lines and blank line at the cursor. |
| DocumentText.AppendSection | main.py:214-279 | Once earlier requests leave the cursor just past `prefix`, one section's requests write that section right there. |
| DocumentText.SectionsRenderStep | main.py:214-279 | If the sections so far are written at the cursor, adding one more section writes it right after them. |
| DocumentText.SectionsRender | main.py:214-279 | The sections batch writes every section in order at the cursor. |
| DocumentText.PlanRenders | main.py:176-279 | On a fresh document, every insert of both batches is accepted, and the body becomes the title, a blank line, then the sections. |
| SourceDoc.AddDataToDoc | main.py:140-279 | Fails exactly when there are no headings, with nothing changed. Otherwise the headings gain their end rows in place, and the batches are those of the grouped sections, which render the outline. |
| SourceDoc.ScannedSectionsDisjoint | main.py:122-163 | The scanner's headings are in row order, so a link row lies in at most one of the sections built from them. |

## Where the code and the usual description differ (the model follows the code)

- **Heading check.** The bold+CENTER check sits in the `else:` of the inner
  `try`. So it runs only for rows that have a `hyperlinkDisplayType`, are not
  struck through, and (when LINKED) have `textFormatRuns`. Plain rows without a
  display type are never headings.
- **Missing fields.** A missing field does not default to anything. A missing
  `strikethrough` or `bold` ends the scan on any row. A missing
  `horizontalAlignment`, or a missing `stringValue` on a bold CENTER row, ends
  it only on a row that reaches the heading check. Rows without a display type,
  struck-through rows and LINKED rows without `textFormatRuns` never look
  these up. When the scan ends early, the `finally: return` hands back the
  partial lists.
- **Last heading's end.** It is the row number 1000, not "the end of the
  sheet". Links at row 1000 or later that also lie past the last heading are
  dropped. A link at row 1000 or later that lies before a later heading still
  belongs to the section it falls in.
- **Range comparisons.** Both comparisons are strict. A link on a heading's own
  row belongs to no section.
- **Row-0 headings.** Headings on row 0 are skipped.
- **Empty heading list.** It raises at `headings[-1]`; the model returns
  `Failure(NoHeadings)`.
- **Title paragraph style.** Its range is `(1, len(title))`. It leaves out the
  title's last character. For a one-character title the range is empty, and for
  an empty title it is inverted, `(1, 0)`.
- **First section.** It is inserted at `len(title) + 3`, which keeps one blank
  line after the title.

## Left out

- `start_api`, `create_doc`, `read_script`, `move_doc_to_sources` and `main`:
  credentials, `input()` prompts, the `SOURCES_FOLDER_ID` environment variable
  and the `' Sources'` suffix. They are I/O or calls into the Google client
  libraries.
- The `build(...)` and `batchUpdate(...).execute()` calls in
  `add_data_to_doc`. `AddDataToDoc` returns the two request lists instead.
- The `except HttpError` branches. Nothing the model keeps can raise them.
- Decoding the sheet's JSON into `Cell`.
  - Enum strings (`'LINKED'`, `'CENTER'`) become datatype constructors.
  - A lookup that raises becomes `None`.
  - A missing `rowData` is outside the model.
- The floating-point `spaceAbove`/`spaceBelow` values, the update `fields`
  masks and the `bulletPreset` string. Styles are tags.
- RequestPlanner: positions are counted as `|s|` characters. Python counts code
  points and the Docs service its own units. `DocumentText` is an idealised
  text buffer, not a claim about how the service places or renders the edits.
- Dedup: it keeps first occurrences, and its contract promises only
  "duplicate-free, same elements", because the iteration order of a Python
  `set` is unspecified. Its body is visible to callers, so the link order
  inside each section of `AddDataToDoc`'s sections batch is this
  first-occurrence choice, not an order the program guarantees. `PlanRenders`
  holds for any list of sections, so another order of the links renders as
  that list.
- PlanWellFormed and TitleThen: they require a non-empty title. For an empty
  title the source's paragraph range `(1, 0)` is inverted, so no well-formedness
  claim holds for it. `TitleStyleIff` states exactly this.
- AddEndRows: the source appends a third element to each heading list. The
  model fills the `end` field of an array of `Heading` records in place, so
  aliasing of those lists elsewhere is not captured.
