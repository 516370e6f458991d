# addrly core, modelled in Dafny

addrly is a dating-profile web app. A member writes a "date me" document in a block
editor and builds an application form. Other people apply through that form, and the
owner can ask a route to rank the applicants. This project models the logic behind
four parts of the app:

- **The block editor** (`block_markdown.dfy`, `block_editor.dfy`).
  - `parseMarkdownToBlocks` is modelled twice: a loop method, and the function that
    specifies it. `blocksToMarkdown` is a function.
  - The editing operations are methods of a class `Editor` with the fields `blocks`,
    `showMenu`, `imageUrl` and `value`.
  - The class invariant keeps the document non-empty and its ids distinct. It also
    keeps the parent's `value` equal to the export of the blocks.
- **The form builder** (`form_builder.dfy`).
  - The field list is edited by append, merge-update and filter-remove.
  - It also covers the label lookup in the field-type table, option editing, the
    required toggle and the publish guard.
  - The page state is a class `FormEditor`.
- **Candidate ranking** (`candidate_ranking.dfy`). This is the `ai-select` route:
  - a compatibility score from location and age;
  - a stable sort, highest score first;
  - a `slice(0, limit)` with JavaScript's rules for a negative end;
  - the 401 and empty-input answers.
- **The home page** (`profile_view.dfy`).
  - `renderMarkdown`: each regular-expression rewrite is a hand-written string
    function, and they run in the source's order.
  - The first-name greeting.
  - The onboarding-completeness redirect.

Shared pieces:

- `text.dfy` holds JavaScript's whitespace set, `trim`, `trimStart`, `split` and
  `join` on one character, and `String(n)`.
- `lists.dfy` holds `filter`.
- `markdown_patterns.dfy` holds the two bracket patterns, the image `![alt](url)` and
  the link `[text](url)`. Each capture class in them excludes its own terminator, so
  the greedy match is deterministic and is written as a direct scan.

Where a behaviour could be described more than one way, the model follows the code:

- A line starting with `![` that does not match the image pattern yields no block at
  all. So the import can return fewer blocks than there are lines.
- `changeBlockType` strips a leading `#+\s*` from the content whatever the old and the
  new type. It does this even when neither type is a heading.
- The round trip from export back through import is the identity only up to the cases
  `BlockMarkdown.DocumentRoundTrip` names:
  - a `list` block comes back as a `paragraph`;
  - an image with an empty URL disappears;
  - the ids are renumbered.

## Model

| member | source | states |
|---|---|---|
| Text.Trim | src/components/editor/block-editor.tsx:123 | `trim()` is empty exactly when the string is blank, and otherwise starts and ends with non-whitespace |
| Text.TrimIsMiddle | src/components/editor/block-editor.tsx:123-124 | what `trim()` keeps is a contiguous middle part with only whitespace on either side |
| Text.JoinSplit | src/components/editor/block-editor.tsx:46 | joining the pieces of `split('\n')` with `'\n'` gives back the original text |
| Text.SplitJoin | src/components/editor/block-editor.tsx:88 | splitting a join of newline-free pieces gives back exactly those pieces |
| Text.NatToStringInjective | src/components/editor/block-editor.tsx:52 | `String(id)` of two different counters differs, which is what keeps imported ids distinct |
| Lists.FilterRemovesOne | src/components/editor/block-editor.tsx:111 | filtering out the one rejected element is the list with that position cut out, the rest in order |
| MarkdownPatterns.BracketAtComplete | src/app/home/page.tsx:97 | text starting with `[caption](target)`, where the caption has no `]` and the target has no `)` and is non-empty, matches with exactly those captures |
| MarkdownPatterns.BracketAt | src/app/home/page.tsx:97 | a `[caption](target)` match at the start has a caption without `]` and a non-empty target without `)` |
| MarkdownPatterns.ImageAtComplete | src/components/editor/block-editor.tsx:58 | text starting with `![alt](url)` matches the image pattern with exactly `alt` and `url` as captures |
| MarkdownPatterns.ImageAt | src/components/editor/block-editor.tsx:58 | the image pattern at the start of the text: a match spans `![caption](target)` with no `]` in the caption and a non-empty target without `)`; `ImageAtComplete` states the converse |
| MarkdownPatterns.LinkAt | src/app/home/page.tsx:97 | the link pattern at the start of the text: a match spans `[caption](target)` with a non-empty caption without `]` and a non-empty target without `)` |
| MarkdownPatterns.FirstImage | src/components/editor/block-editor.tsx:58 | the unanchored image `match`: what it finds has a caption without `]` and a non-empty URL without `)`; `FirstImageIsLeftmost` states that it is the leftmost match |
| MarkdownPatterns.FirstImageIsLeftmost | src/components/editor/block-editor.tsx:58 | an unanchored `match` finds nothing exactly when no position matches; otherwise it returns the match at a position before which none matches |
| MarkdownPatterns.BracketAtEmptyTarget | src/components/editor/block-editor.tsx:58 | `[caption]()` does not match: the URL group needs at least one character |
| BlockMarkdown.ParseMarkdownToBlocks | src/components/editor/block-editor.tsx:45-70 | the line loop with its running id counter returns exactly the document `MarkdownToBlocks` specifies |
| BlockMarkdown.ClassifyLine | src/components/editor/block-editor.tsx:50-66 | a line is dropped exactly when it starts with `![` and has no image match; an `![` line with a match becomes an image block holding the first match's URL; an image line carries a non-empty URL without `)`; a paragraph keeps the line, or is empty for a blank line; no line imports as a list item |
| BlockMarkdown.MarkdownToBlocks | src/components/editor/block-editor.tsx:45-70 | the import is never empty, has at most one block per line, and gives its k-th block the id `String(k + 1)` |
| BlockMarkdown.ImportedIdsUnique | src/components/editor/block-editor.tsx:48-66 | all ids in an imported document are distinct |
| BlockMarkdown.ImportHeadings | src/components/editor/block-editor.tsx:51-56 | `# x`, `## x` and `### x` import as h1, h2 and h3 holding `x`; `#### x` imports as a paragraph holding the whole line |
| BlockMarkdown.ImportImageLine | src/components/editor/block-editor.tsx:57-61 | a line `![alt](url)…` imports as one image block holding only the URL |
| BlockMarkdown.ImportUnmatchedImageLine | src/components/editor/block-editor.tsx:57-69 | a lone `![` line that is unclosed or has an empty URL produces no block, so the import falls back to the single empty paragraph |
| BlockMarkdown.ImportBlankLine | src/components/editor/block-editor.tsx:62-66 | a whitespace-only line imports as an empty paragraph |
| BlockMarkdown.ImportTitleScenario | src/components/editor/block-editor.tsx:45-88 | a title line, a blank line and a text line import as h1, empty paragraph and paragraph with ids 1, 2, 3, and export back with the blank line emptied |
| BlockMarkdown.ExportExamples | src/components/editor/block-editor.tsx:72-88 | the default single empty paragraph exports to the empty string; an image block exports as `![Image](url)` |
| BlockMarkdown.BlocksToMarkdown | src/components/editor/block-editor.tsx:72-89 | the export writes each block's line and joins them with newlines; `ExportLines`, `ExportExamples` and the round trips state what comes out |
| BlockMarkdown.BlockLine | src/components/editor/block-editor.tsx:74-87 | the per-type line of the export: `# `, `## `, `### ` before heading text, `![Image](url)` for an image, the bare content otherwise; `ExportExamples` and `DocumentRoundTrip` state what comes out |
| BlockMarkdown.ExportLines | src/components/editor/block-editor.tsx:72-88 | with newline-free contents, the export has exactly one line per block, in order |
| BlockMarkdown.TextRoundTrip | src/components/editor/block-editor.tsx:45-88 | exporting the import gives back the text when no line starts with `![` and no line is non-empty but blank |
| BlockMarkdown.DocumentRoundTrip | src/components/editor/block-editor.tsx:45-88 | for blocks without newlines, whose paragraph or list text does not look like a heading, an image line or blank text, and whose image URL has no `)`: importing the export gives back each block's type and content in order, with lists read back as paragraphs and empty images dropped, or the default document when nothing is left |
| BlockMarkdown.EmptyImageVanishes | src/components/editor/block-editor.tsx:57-82 | an image block with empty content exports as `![Image]()` and does not survive re-import |
| BlockEditor.StripHeadingMarkerMatches | src/components/editor/block-editor.tsx:117 | the `/^#+\s*/` rewrite leaves text that does not start with `#` alone; otherwise it removes the whole leading `#` run and the whitespace after it, and what remains is a suffix that starts with no whitespace; it may start with `#` only when whitespace separated that `#` from the leading run |
| BlockEditor.StripHeadingMarker | src/components/editor/block-editor.tsx:117 | the `/^#+\s*/` rewrite itself; `StripHeadingMarkerMatches` states what it removes and keeps |
| BlockEditor.StripSpacedHashes | src/components/editor/block-editor.tsx:117 | a `#` after the first marker's whitespace is kept: `# #x` strips to `#x` |
| BlockEditor.StripMarker | src/components/editor/block-editor.tsx:117 | hashes, then blank text, then text `t` that starts with neither, strips to exactly `t` |
| BlockEditor.WithContent | src/components/editor/block-editor.tsx:103-107 | `updateBlock`'s map changes only the content of blocks with that id; length, ids, types and other blocks are kept |
| BlockEditor.Retyped | src/components/editor/block-editor.tsx:115-118 | `changeBlockType`'s map sets the type and strips the marker on blocks with that id and keeps every other block |
| BlockEditor.Without | src/components/editor/block-editor.tsx:111 | the filter keeps exactly the blocks whose id differs |
| BlockEditor.InsertAfter | src/components/editor/block-editor.tsx:97-98 | the `splice(index + 1, 0, b)` puts `b` at `index + 1` and keeps the blocks before and after it in order |
| BlockEditor.UnknownIdIsNoOp | src/components/editor/block-editor.tsx:103-118 | update, retype and delete with an id that no block has change nothing |
| BlockEditor.UpdateChangesOneLine | src/components/editor/block-editor.tsx:103-107 | with distinct ids, updating one block changes only that block's line of the exported value |
| BlockEditor.DeleteRemovesOne | src/components/editor/block-editor.tsx:111 | with distinct ids, deleting a block's id cuts out exactly that block |
| BlockEditor.DeleteKeepsRest | src/components/editor/block-editor.tsx:109-113 | with distinct ids, a delete removes at most one block and keeps ids distinct |
| BlockEditor.InsertThenDelete | src/components/editor/block-editor.tsx:91-113 | deleting a freshly inserted block restores the document |
| BlockEditor.InsertKeepsIdsUnique | src/components/editor/block-editor.tsx:91-101 | inserting a block with a fresh id keeps the ids distinct |
| BlockEditor.RetypeTypedHeading | src/components/editor/block-editor.tsx:115-118 | retyping the paragraph `## t` to h2 leaves the exported text unchanged |
| BlockEditor.Editor.constructor | src/components/editor/block-editor.tsx:27-43 | the editor starts from the import of a non-empty value, or from the single empty paragraph with id `1`, with no menu open and an empty URL field |
| BlockEditor.Editor.AddBlock | src/components/editor/block-editor.tsx:91-101 | a new empty block of the given type, with a fresh id, is inserted after `index`; the menu closes; the value follows the blocks |
| BlockEditor.Editor.UpdateBlock | src/components/editor/block-editor.tsx:103-107 | the blocks become `WithContent`; the menu and the URL field are untouched |
| BlockEditor.Editor.DeleteBlock | src/components/editor/block-editor.tsx:109-113 | the matching blocks are removed unless only one block is left, in which case nothing changes |
| BlockEditor.Editor.ChangeBlockType | src/components/editor/block-editor.tsx:115-120 | the blocks become `Retyped` and the menu closes |
| BlockEditor.Editor.HandleImageSubmit | src/components/editor/block-editor.tsx:122-128 | a blank URL field changes nothing; otherwise the trimmed URL becomes the block's content, the field empties and the menu closes |
| BlockEditor.Editor.SetImageUrl | src/components/editor/block-editor.tsx:211-212 | typing in the URL field sets only the field |
| BlockEditor.Editor.ToggleMenu | src/components/editor/block-editor.tsx:137 | clicking a block's menu button closes its open menu, or otherwise opens that block's menu and no other |
| BlockEditor.Editor.PressEnter | src/components/editor/block-editor.tsx:179-183 | Enter without Shift in a paragraph inserts an empty paragraph after it; with Shift the blocks do not change |
| FormBuilder.FindFirst | src/app/forms/create/page.tsx:57 | `find` gives nothing exactly when no row has that type, and otherwise the first row with that type |
| FormBuilder.Find | src/app/forms/create/page.tsx:57 | the type table lookup `find`; `FindFirst` states which row it returns |
| FormBuilder.FieldLabelsFromTable | src/app/forms/create/page.tsx:41-57 | every field type is labelled by its row of the type table, never with the `New Field` fallback |
| FormBuilder.NewField | src/app/forms/create/page.tsx:53-60 | a new field has the fresh id, the given type and that type's label from the type table (never `New Field`), and is not required; it has options exactly for multiple choice, and those are `Option 1`, `Option 2` |
| FormBuilder.LabelFrom | src/app/forms/create/page.tsx:57 | the label of the first table row for the type, or `New Field` when there is none or its label is empty; `FieldLabelsFromTable` states its value on the real table |
| FormBuilder.FieldLabel | src/app/forms/create/page.tsx:41-57 | `LabelFrom` on the page's type table; `FieldLabelsFromTable` states that it never falls back to `New Field` |
| FormBuilder.MergeLaws | src/app/forms/create/page.tsx:66 | the `{ ...f, ...updates }` merge changes nothing for an empty update, merging twice is merging once, and a label-only update touches only the label |
| FormBuilder.Merge | src/app/forms/create/page.tsx:66 | the `{ ...f, ...updates }` spread: each field present in the update wins; `MergeLaws` states its laws |
| FormBuilder.UpdateField | src/app/forms/create/page.tsx:65-67 | fields with the id are merged with the update; every other field and the order are kept |
| FormBuilder.RemoveField | src/app/forms/create/page.tsx:69-71 | the filter keeps exactly the fields whose id differs |
| FormBuilder.UpdateOneField | src/app/forms/create/page.tsx:65-67 | with distinct ids, an update touches exactly the one position holding the id |
| FormBuilder.UnknownFieldIdIsNoOp | src/app/forms/create/page.tsx:65-71 | update and remove with an unknown id change nothing |
| FormBuilder.RemoveOneField | src/app/forms/create/page.tsx:69-71 | with distinct ids, removing a field's id cuts out exactly that field, the rest in order |
| FormBuilder.AddKeepsIdsUnique | src/app/forms/create/page.tsx:61 | appending a field with a fresh id keeps the ids distinct |
| FormBuilder.AddThenRemove | src/app/forms/create/page.tsx:53-71 | removing a freshly added field restores the list |
| FormBuilder.RemoveAtKeeps | src/app/forms/create/page.tsx:260-269 | removing an optional field keeps the ids distinct and keeps every required field |
| FormBuilder.WithAddedOption | src/app/forms/create/page.tsx:237-239 | adding an option keeps the old options and appends `Option k`, where `k` is the old count plus one |
| FormBuilder.AddedOptionNumbers | src/app/forms/create/page.tsx:237-239 | the default two options grow to `Option 1..3`; a field without options gets `Option 1` |
| FormBuilder.Publish | src/app/forms/create/page.tsx:73-90 | a blank title is refused first, then an empty field list, and only otherwise is the form submitted with status `active` |
| FormBuilder.ErrorMessage | src/app/forms/create/page.tsx:74-80 | there is an error message exactly when publishing does not submit |
| FormBuilder.PublishExamples | src/app/forms/create/page.tsx:73-90 | a whitespace title gives the title error; no fields give the field error; the initial fields with a real title submit the title untrimmed |
| FormBuilder.FormEditor.constructor | src/app/forms/create/page.tsx:33-39 | the page starts with an empty title and description, the required `Name` and `Email` fields, and the menu closed |
| FormBuilder.FormEditor.SetTitle | src/app/forms/create/page.tsx:162 | only the title changes |
| FormBuilder.FormEditor.SetDescription | src/app/forms/create/page.tsx:172 | only the description changes |
| FormBuilder.FormEditor.ToggleFieldMenu | src/app/forms/create/page.tsx:281 | only the menu flag flips |
| FormBuilder.FormEditor.AddField | src/app/forms/create/page.tsx:53-63 | exactly `NewField` is appended at the end, the menu closes, ids stay distinct |
| FormBuilder.FormEditor.EditLabel | src/app/forms/create/page.tsx:186 | only that field's label changes |
| FormBuilder.FormEditor.EditOption | src/app/forms/create/page.tsx:225-228 | only option `i` of that field changes |
| FormBuilder.FormEditor.AddOption | src/app/forms/create/page.tsx:237-239 | only that field's options change, to `WithAddedOption` |
| FormBuilder.FormEditor.ToggleRequired | src/app/forms/create/page.tsx:256 | only that field's `required` flips |
| FormBuilder.FormEditor.RemoveAt | src/app/forms/create/page.tsx:260-269 | an optional field is cut out; every required field stays |
| FormBuilder.FormEditor.HandlePublish | src/app/forms/create/page.tsx:73-90 | the outcome is the title error exactly for a blank title, the field error exactly for a titled empty list, and otherwise the submission |
| CandidateRanking.LocationPoints | src/app/api/applications/ai-select/route.ts:80-83 | 10 points exactly when both locations are set and equal, else 0 |
| CandidateRanking.CandidateProfile | src/app/api/applications/ai-select/route.ts:72-74 | the joined applicant profile: the row itself, the first row of a list, or nothing for an absent join or an empty list |
| CandidateRanking.AgePoints | src/app/api/applications/ai-select/route.ts:84-87 | between 0 and 10; 10 exactly for equal set ages; 0 once the ages differ by 10 or more |
| CandidateRanking.Score | src/app/api/applications/ai-select/route.ts:70-89 | a score lies in `[0, 20]` and is 0 when either profile is missing |
| CandidateRanking.FullScore | src/app/api/applications/ai-select/route.ts:78-87 | the score is 20 exactly when the location and the age are set and equal on both sides |
| CandidateRanking.ScoreAll | src/app/api/applications/ai-select/route.ts:69-95 | every application is kept, in order and unchanged, with its own score added |
| CandidateRanking.SortDescCorrect | src/app/api/applications/ai-select/route.ts:98-99 | the sort orders by score, highest first, is a permutation, and is stable: equal scores keep their input order |
| CandidateRanking.SortDesc | src/app/api/applications/ai-select/route.ts:98-99 | the sort by score, highest first; `SortDescCorrect` states that it is sorted, a permutation and stable |
| CandidateRanking.SliceTo | src/app/api/applications/ai-select/route.ts:100 | `slice(0, limit)` is a prefix of length `min(limit, n)`, or `max(0, n + limit)` for a negative limit |
| CandidateRanking.Top | src/app/api/applications/ai-select/route.ts:98-100 | sorting then `slice(0, limit)`; `TopCandidates` states what it returns |
| CandidateRanking.EffectiveLimit | src/app/api/applications/ai-select/route.ts:13 | the body's limit, or 3 when the body has none |
| CandidateRanking.TopCandidates | src/app/api/applications/ai-select/route.ts:98-100 | the result is sorted, has `min(limit, n)` entries, comes from the input, and every omitted application scores no more than the last one returned |
| CandidateRanking.AiSelect | src/app/api/applications/ai-select/route.ts:13-102 | the route answers 401 exactly without a header or a user; no applications give no candidates; otherwise the candidates are exactly the first `limit` (default 3) of the scored applications sorted by score, highest first: sorted, drawn from the scored applications, and `min(limit, n)` of them |
| CandidateRanking.DefaultTopThree | src/app/api/applications/ai-select/route.ts:13-100 | without a limit, `min(3, n)` candidates come back |
| ProfileView.RenderMarkdown | src/app/home/page.tsx:81-106 | nothing for empty content; otherwise a newline-free string inside the fixed `div`/`p` shell |
| ProfileView.Headings | src/app/home/page.tsx:88-90 | the three heading rewrites, `###` first, then `##`, then `#`; `HeadingOrder` and `HeadingsNeedHash` state their effect |
| ProfileView.RewriteHeadingLines | src/app/home/page.tsx:88-90 | one multiline heading rewrite applied line by line; `RewriteOneLine` and `HeadingLinesNeedHash` state its effect |
| ProfileView.RewriteOneLine | src/app/home/page.tsx:88-90 | on one line, the heading rewrite replaces the marker with the tags exactly when the line starts with the marker |
| ProfileView.HeadingOrder | src/app/home/page.tsx:88-90 | `### x` becomes an h3 that the `##` and `#` rules leave alone; `## x` and `# x` become h2 and h1; `#### x` is untouched |
| ProfileView.HeadingsNeedHash | src/app/home/page.tsx:88-90 | text without `#` passes the heading rewrites unchanged |
| ProfileView.ReplaceAll | src/app/home/page.tsx:93-104 | one global `replace`, scanning left to right and resuming after each replacement; `ReplaceAllNoMatch` and `ReplaceAllPrefix` state its behaviour |
| ProfileView.Inline | src/app/home/page.tsx:93-104 | the bold, italic, link, image, paragraph and line-break rewrites in source order leave no newline |
| ProfileView.FindClose | src/app/home/page.tsx:93-94 | the lazy `(.*?)` stops at the first closing delimiter, before any line terminator, and finds nothing exactly when every occurrence of the delimiter comes after a line terminator |
| ProfileView.WrapAt | src/app/home/page.tsx:93-94 | the bold or italic match at the start of the text: it needs the opening delimiter, ends with the closing one, holds no line terminator in between, and is replaced by the tags around that run |
| ProfileView.MatchAt | src/app/home/page.tsx:93-104 | which of the bold, italic, link, image, paragraph and line-break patterns matches at the start of the text, and what replaces the match; a match consumes at least one character |
| ProfileView.BoldBeforeItalic | src/app/home/page.tsx:93-94 | `**x**` becomes `<strong>x</strong>`, and the italic rule then leaves it alone |
| ProfileView.LinkBeforeImage | src/app/home/page.tsx:97-100 | an image with a non-empty alt becomes `!` and an anchor and never an `<img>`; only `![](url)` becomes an `<img>` |
| ProfileView.NoNewlineLeft | src/app/home/page.tsx:104 | after the line-break rule no newline is left |
| ProfileView.LineBreaks | src/app/home/page.tsx:103-104 | `\n\n` becomes the paragraph break and a single `\n` becomes `<br />` |
| ProfileView.PlainText | src/app/home/page.tsx:81-106 | text without `#`, `*`, `[` or newlines is only wrapped in the shell |
| ProfileView.FirstName | src/app/home/page.tsx:198 | the greeting is the text before the first space of the full name, or `User` when the name is missing or that text is empty; it is never empty and has no space |
| ProfileView.FirstNameExamples | src/app/home/page.tsx:198 | `Ada Lee` greets as `Ada`; a leading space or an empty name greets as `User` |
| ProfileView.HomeRoute | src/app/home/page.tsx:40-61 | no session sends to sign-in; the page stays exactly when the profile exists with name, document and form all present; otherwise it sends to onboarding |
| ProfileView.OnboardingComplete | src/app/home/page.tsx:58 | onboarding is complete when the name and the document are non-empty and the form exists |

## Left out

- Supabase, axios and Next.js I/O are parameters of the model:
  - the session, the profile row and the user lookup from the token;
  - the joined applicant rows and the request body.
- The 500 answers for database errors and thrown exceptions are not modelled.
- React rendering, styling, icons, toasts, router pushes, loading flags and `useEffect`
  scheduling are not modelled.
- The `value = blocksToMarkdown(blocks)` effect is kept as part of `Editor`'s
  invariant, with `onChange` folded into it.
- Ids from `Date.now()` are a fresh-id parameter, with a precondition that no block or
  field already has that id.
- `Bearer ` prefix stripping and token validation are left out. Only whether a user was
  found is a parameter.
- `CandidateRanking.AiSelect`: the model takes a limit only as an integer or as absent.
  A `null`, fractional, string or `NaN` limit is not modelled.
- Profile ages are integers. Fractional ages, and `Math.abs` and `Math.max` over
  floats, are not modelled.
- The editor's Shift+Enter inserts a newline through the browser's textarea. The model
  leaves the blocks unchanged there.
- The image block's "clear image" button is `updateBlock(id, '')`. It is covered by
  `UpdateBlock` and is not a member of its own.
- `renderMarkdown` is modelled on the listed patterns only.
  - No general regular-expression engine is modelled.
  - The `i` flag on the heading rules has no effect on `#`, so it is not modelled.
  - HTML escaping and injection are not considered: the source performs none.
- Only the heading rules are line-anchored. Each global rule scans its input left to
  right and does not scan its own replacement text again, as `replace` with the `g` flag
  does.
- Text is a sequence of Unicode characters. JavaScript's UTF-16 surrogate pairs are not
  modelled: no pattern here matches part of a surrogate pair.
