# splitwizz client core in Dafny

This project models the logic in the splitwizz web client: a Solid.js
front end for sharing group expenses and keeping notes. The model covers:

- **Cookies**: reading, writing and expiring a cookie in `document.cookie`. The
  field of a `Document` object is the browser's cookie store: name/value pairs
  in creation order, rendered by the getter as `n1=v1; n2=v2`. A write replaces
  a cookie of the same name in its place, and a write whose expiry is in the
  past deletes it.
- **Notes board**: the column count that fits the board's width. Each note is
  placed, in order, into the column that is currently shortest, ties going to
  the first such column. A column then shows only its own notes.
- **Tag strip** of a note card: tags are shown in order while their summed
  width stays within the card's budget.
- **Check toggle** of a note line: the note's content is a tree of lines and a
  line is named by its index path. Toggling flips that line's `check` flag on a
  copy of the note.
- **Content rendering**: nested content components prepend their own index
  when a click bubbles up. Collapsed lines hide their children.
- **Note editor**: parsing the comma-separated tags input, and building the
  confirmed note.
- **Balance cards**: classifying a signed amount as lent or borrowed. The
  header and the per-debt lines of a member's card.
- **Members dialog**: the joined and pending user lists.
- **Home page**: the case-insensitive group filter, the two-level Escape key,
  and the PUT or POST choice when a group is confirmed.
- **Application shell**: the notifications panel. Opening it marks all
  notifications read. Answering an invitation removes that notification with
  `indexOf`/`splice`. Archiving removes a set of notifications.
- **Line view**: the link-or-text choice for a line. The blur toggle, the
  checkbox and the hover controls.

JavaScript values that may be missing (`undefined`, `null`) are `Option`s.
Truthiness is written out: `Truthy` for optional booleans, `TruthyText` for
optional strings, and `x != 0` for a numeric id. An expression that would
throw a `TypeError` gives `None`, or leaves the state unchanged, where the
source would stop. Strings are `seq<char>`. The JavaScript string methods
the client uses are written out in module `Strings`: `split` on one
character, `join`, `startsWith`, `includes`, `trim`, `toLowerCase` and
`length`, which counts UTF-16 code units.

Where the component state is a Solid signal that an event handler writes,
the model is a class whose fields are those signals:

- `Cookies.Document`
- `NotesBoard.Board`
- `Home.HomePage`
- `App.App`
- `LineComponent.LineView`

Each of these methods states its whole new state. The loops of the source
are methods with loop invariants, proved against a function of their inputs:

- `Cookies.Document.GetCookie`
- `NotesBoard.FillColumns`, which keeps `columnSize` and the columns in arrays as the source does
- `Tags.TopTags`
- `NoteComponent.OnCheckToggle`

The properties the client relies on are lemmas about those functions.

## Model

| member | source | states |
|---|---|---|
| Strings.Split | src/cookies.ts:8 | a split always has at least one piece, and no piece contains the separator |
| Strings.IncludesAt | src/pages/Home.tsx:97 | `includes` holds exactly when the needle occurs at some position of the haystack |
| Strings.SplitJoin | src/components/EditNoteComponent.tsx:14-16 | splitting a comma-join of pieces that hold no comma gives the pieces back |
| Strings.Join | src/components/EditNoteComponent.tsx:34 | `join` on one character; its meaning is given by Strings.SplitJoin and Strings.JoinSplit |
| Strings.Trim | src/components/EditNoteComponent.tsx:15 | `trim`; specified by Strings.TrimOnlySpaces and Strings.TrimAround, with Strings.TrimTrimmed and EditNote.TrimIsTrimmed |
| Strings.TrimOnlySpaces | src/components/EditNoteComponent.tsx:15 | the trimmed string is the contiguous middle of the input starting where its leading white space ends, and everything cut off before and after is white space |
| Strings.TrimAround | src/components/EditNoteComponent.tsx:15 | white space, a trimmed middle and white space trim to exactly that middle |
| Strings.TrimStartCuts | src/components/EditNoteComponent.tsx:15 | everything the leading trim cuts is white space |
| Strings.TrimEndCuts | src/components/EditNoteComponent.tsx:15 | everything the trailing trim cuts is white space |
| Strings.TrimStartSkips | src/components/EditNoteComponent.tsx:15 | the leading trim removes exactly a white-space prefix followed by a non-space |
| Strings.TrimEndSkips | src/components/EditNoteComponent.tsx:15 | the trailing trim removes exactly a white-space suffix preceded by a non-space |
| Strings.Utf16Length | src/components/Tags.tsx:32 | `tag.length` counts UTF-16 code units: at least the character count and at most twice it |
| Strings.Utf16LengthBmp | src/components/Tags.tsx:32 | `length` equals the character count exactly when every character lies in the Basic Multilingual Plane |
| Strings.AstralLength | src/components/Tags.tsx:32 | a single emoji (U+1F389) has `length` 2 |
| Strings.ToLower | src/components/EditNoteComponent.tsx:15 | `toLowerCase`; specified by Strings.ToLowerMeaning, with Strings.ToLowerLower and Home.LowerIdempotent |
| Strings.ToLowerMeaning | src/components/EditNoteComponent.tsx:15 | lower-casing keeps the length, leaves no capital letter, maps each ASCII capital to its small letter and keeps every other character |
| Strings.JoinSplit | src/components/EditNoteComponent.tsx:14-16 | joining the pieces of a split gives the string back |
| Cookies.StripLeadingSpaces | src/cookies.ts:11-13 | the stripped segment is empty or does not start with a space |
| Cookies.StripOnlyLeading | src/cookies.ts:11-13 | exactly the leading spaces are removed: the stripped segment is a suffix of the original and everything cut off is a space |
| Cookies.Lookup | src/cookies.ts:9-18 | the search over the segments; its meaning is given by Cookies.LookupNone, Cookies.LookupFirst and Cookies.LookupValue |
| Cookies.LookupNone | src/cookies.ts:9-18 | the lookup gives nothing exactly when no segment matches `name=` |
| Cookies.LookupFirst | src/cookies.ts:9-16 | the earliest matching segment answers, with the rest of that segment after the name |
| Cookies.LookupValue | src/cookies.ts:11-15 | a found value is the whole rest of some matching segment after its leading spaces and the name |
| Cookies.GetCookieNoSemicolon | src/cookies.ts:8-15 | a value read from the cookie string never contains `;` |
| Cookies.OtherNameNoMatch | src/cookies.ts:6-14 | a segment holding a cookie of another name never answers, because the whole `name=` prefix is matched |
| Cookies.Document.GetCookie | src/cookies.ts:5-19 | The loop's answer is the lookup over the `;`-separated segments of the getter's text: the text after `name=` in the first segment that starts with it once its leading spaces are stripped, else `null`. On a store of well-formed cookies that is the stored value of the name, and `null` exactly when no cookie has that name |
| Cookies.PiecesStrip | src/cookies.ts:8-13 | a segment of the getter's `n1=v1; n2=v2` text, once stripped, is exactly one stored `name=value` pair |
| Cookies.LookupPairs | src/cookies.ts:9-16 | over segments that strip to the stored pairs, the lookup finds the value of the first cookie with the name |
| Cookies.JarLookup | src/cookies.ts:5-19 | reading the getter's text the way `getCookie` does gives the stored value of a well-formed name, and nothing when no cookie has it |
| Cookies.SetCookieText | src/cookies.ts:21-30 | the text `setCookie` assigns; what it holds is given by Cookies.SetCookieSegments and Cookies.SetCookieTextPair |
| Cookies.SetCookieSegments | src/cookies.ts:21-30 | without an expiry the written text splits into the pair and exactly the three attributes |
| Cookies.FirstPairAnswers | src/cookies.ts:8-15 | in a text that starts with `name=value;`, `getCookie`'s lookup of the name answers with that value |
| Cookies.SetCookieTextPair | src/cookies.ts:21-30 | the first pair of the written text, the cookie the browser stores, carries exactly the name and the value, with or without an expiry |
| Cookies.Document.SetCookie | src/cookies.ts:21-31 | The text assigned is `name=value;SameSite=Strict;Secure;path=/`, followed by `;expires=…` only when the day count is present and nonzero. The store then holds the value under the name, or loses the name when the day count is negative, since the expiry then lies in the past |
| Cookies.RemoveCookieText | src/cookies.ts:2 | the text `removeCookie` assigns; Cookies.RemoveCookieTextPair states what it holds |
| Cookies.Document.RemoveCookie | src/cookies.ts:1-3 | the text assigned is `name=; expires=Thu, 01 Jan 1970 00:00:00 UTC; path=/`, and the cookie of that name leaves the store |
| Cookies.RemoveCookieTextPair | src/cookies.ts:1-3 | the first pair of the text `removeCookie` writes names the cookie with an empty value |
| Cookies.FindStore | src/cookies.ts:30 | a stored cookie reads back the value written; every other name keeps its value |
| Cookies.FindDelete | src/cookies.ts:1-3 | an expired write leaves no cookie of that name; every other name keeps its value |
| Cookies.StoreDeleteValid | src/cookies.ts:21-30 | storing or deleting a well-formed cookie keeps every stored cookie well-formed |
| Cookies.SetThenGet | src/cookies.ts:5-31 | round trip: after `setCookie` with no day count or a non-negative one, `getCookie` returns the value written, and every other cookie reads as before |
| Cookies.SetPastThenGet | src/cookies.ts:5-31 | after `setCookie` with a negative day count the cookie is gone and `getCookie` returns `null` |
| Cookies.RemoveThenGet | src/cookies.ts:1-19 | after `removeCookie`, `getCookie` returns `null`, the answer src/auth.ts:13-15 tests for; every other cookie reads as before |
| NotesBoard.ColumnCount | src/components/NotesBoard.tsx:33-34 | the column count is the floor of the width over 425 |
| NotesBoard.Board.ComputeColumns | src/components/NotesBoard.tsx:26-38 | without a board element nothing changes; otherwise the column length becomes the width's column count |
| NotesBoard.MinColumn | src/components/NotesBoard.tsx:55-57 | the `reduce` yields an index of a smallest column size, and the first such index |
| NotesBoard.Board.AssignColumns | src/components/NotesBoard.tsx:40-67 | with the column length unset or 0 the columns stay as they were; otherwise they become the placement of all notes into that many columns |
| NotesBoard.FillColumns | src/components/NotesBoard.tsx:47-64 | the two loops over the `columnSize` and column arrays compute the placement of the notes, in order, each into the first shortest column |
| NotesBoard.NewColumns | src/components/NotesBoard.tsx:47-53 | the initial loop makes `colLen` columns of size 0 holding no note |
| NotesBoard.Grow | src/components/NotesBoard.tsx:62 | `columnSize[column] += size` changes that one entry only |
| NotesBoard.Push | src/components/NotesBoard.tsx:63 | `push` appends the note to that one column only |
| NotesBoard.Assign | src/components/NotesBoard.tsx:47-64 | the placement of the notes into `n` columns has `n` sizes and `n` columns; its meaning is given by NotesBoard.AssignPicksShortest, NotesBoard.AssignSelects, NotesBoard.AssignSizes and NotesBoard.AssignPermutation |
| NotesBoard.AssignPicksShortest | src/components/NotesBoard.tsx:55-60 | each note goes to the first of the columns that are shortest at its turn |
| NotesBoard.AssignSelects | src/components/NotesBoard.tsx:59-64 | each column holds exactly the notes sent to it, in input order |
| NotesBoard.AssignSizes | src/components/NotesBoard.tsx:59-64 | after the loop each column's size is the sum of its notes' sizes |
| NotesBoard.AssignPermutation | src/components/NotesBoard.tsx:59-64 | every note is placed exactly once: the columns together are a permutation of the notes |
| NotesBoard.IsColumn | src/components/NotesBoard.tsx:69-79 | the column filter; specified by NotesBoard.IsColumnAfterAssign |
| NotesBoard.IsColumnAfterAssign | src/components/NotesBoard.tsx:69-79 | Once columns are assigned, a column in range accepts a note exactly when some note sent to that column equals it, so each note shows in the column it was sent to. A column out of range accepts every note |
| NotesBoard.SelectIn | src/components/NotesBoard.tsx:59-64 | a note in a column was sent there: some position of the input holds it and picked that column |
| Tags.TopTags | src/components/Tags.tsx:24-42 | the loop keeps the tags the budget admits, taken in order up to the first that does not fit, a tag's width going by its UTF-16 `length`; missing tags read as none |
| Tags.EmojiTagCost | src/components/Tags.tsx:32 | a one-emoji tag is as wide as a two-letter tag, because `length` counts it twice |
| Tags.TagCost | src/components/Tags.tsx:32 | a tag's width `9 + tag.length * 5.70` pixels in hundredths, `length` in UTF-16 units; Tags.EmojiTagCost and Tags.TotalCostAppend state its use |
| Tags.Fitting | src/components/Tags.tsx:28-39 | the tags the loop keeps; specified by Tags.FittingSpec and Tags.ExactFitShown |
| Tags.FittingSpec | src/components/Tags.tsx:31-39 | the selection is a prefix of the tags, its total width is within the budget, and the next tag would exceed it |
| Tags.ExactFitShown | src/components/Tags.tsx:34 | the width test is strict, so tags whose widths sum to exactly the budget are all shown |
| Tags.TotalCostAppend | src/components/Tags.tsx:32-38 | the width of a concatenation of tag lists is the sum of their widths |
| NoteComponent.OnCheckToggle | src/components/NoteComponent.tsx:39-52 | a note comes out exactly when the path is non-empty and each index is in range. Only the line at the path changes: its check becomes the negation of its old truthiness. Every other line and field is unchanged |
| NoteComponent.Flipped | src/components/NoteComponent.tsx:49 | `last.check = !last.check`, an absent flag reading as false; NoteComponent.ToggleTwice states what flipping twice restores |
| NoteComponent.Toggle | src/components/NoteComponent.tsx:48-49 | the copy with one line's check flipped; specified by NoteComponent.OnCheckToggle and NoteComponent.ToggleTwice |
| NoteComponent.InvalidAt | src/components/NoteComponent.tsx:43-46 | a path that leaves the tree at some step is not valid, so the walk throws |
| NoteComponent.ToggleTwice | src/components/NoteComponent.tsx:49 | toggling twice restores how the checkbox renders, and restores the note exactly when the flag was present |
| Notes.SetKeyAt | src/components/NoteComponent.tsx:40-49 | writing one line's key keeps the number of top-level lines and the path valid; Notes.SetKeyAtShape, Notes.SetKeyAtHit and Notes.SetKeyAtOther say what changes |
| Notes.SetKeyAtShape | src/components/NoteComponent.tsx:40-49 | writing one line's key keeps the tree's shape: the same paths lead to lines |
| Notes.SetKeyAtHit | src/components/NoteComponent.tsx:48-49 | the line at the path gets the new key and keeps its children |
| Notes.SetKeyAtOther | src/components/NoteComponent.tsx:40-49 | every other line keeps its key |
| Notes.AtExtend | src/components/NoteComponent.tsx:43-46 | one more walk step leads to the reached line's child at that index |
| Notes.ValidPathPrefix | src/components/NoteComponent.tsx:43-46 | every step of a valid walk stays inside the tree |
| ContentComponent.ToggleCollapsed | src/components/ContentComponent.tsx:25-27 | toggling flips one line's collapsed flag and no other |
| ContentComponent.Report | src/components/ContentComponent.tsx:30-33 | the path a click on a line reports; specified by ContentComponent.ReportIsPath, ContentComponent.ReportFromRoot and ContentComponent.CollapsedHides |
| ContentComponent.ReportIsPath | src/components/ContentComponent.tsx:30-33 | a click is reported exactly for a line that is rendered, and the path reported is the path of that line |
| ContentComponent.ReportFromRoot | src/components/ContentComponent.tsx:30-33 | from the root component the reported path is the line's full index path, a valid path into the content |
| ContentComponent.CollapsedHides | src/components/ContentComponent.tsx:31-33 | no click is reported from below a collapsed line |
| EditNote.NonEmpty | src/components/EditNoteComponent.tsx:15 | the filter keeps only non-empty segments |
| EditNote.NonEmptyAppend | src/components/EditNoteComponent.tsx:15 | the filter distributes over concatenation, so the segments keep their order |
| EditNote.NonEmptyMember | src/components/EditNoteComponent.tsx:15 | a segment survives the filter exactly when it was there and is not empty |
| EditNote.ParseTags | src/components/EditNoteComponent.tsx:14-16 | split, filter, trim and lower-case; specified by EditNote.ParsedTagsClean, EditNote.ParseTagsEdges and EditNote.ParseJoinedTags |
| EditNote.TagsInputValue | src/components/EditNoteComponent.tsx:34 | the tags input's initial value; EditNote.ParseJoinedTags states that parsing it gives clean tags back |
| EditNote.NewNote | src/components/EditNoteComponent.tsx:23-29 | the confirmed note; EditNote.ConfirmUnedited states what it gives for an unedited form |
| EditNote.ParsedTagsClean | src/components/EditNoteComponent.tsx:14-16 | every parsed tag is trimmed and lower case |
| EditNote.Normalize | src/components/EditNoteComponent.tsx:15 | `.map(line => line.trim().toLowerCase())`; EditNote.NormalizeClean and EditNote.ParsedTagsClean state its effect |
| EditNote.ParseTagsExample | src/components/EditNoteComponent.tsx:14-16 | typed tags with surrounding spaces and capitals parse to trimmed lower-case tags: `" Work, home "` gives `work` and `home` |
| EditNote.ParseTagsEdges | src/components/EditNoteComponent.tsx:15 | the empty input gives no tags, and a segment of spaces is kept as an empty tag because the filter runs before the trim |
| EditNote.NonEmptyKeeps | src/components/EditNoteComponent.tsx:15 | a list of non-empty segments passes the filter unchanged |
| EditNote.NormalizeClean | src/components/EditNoteComponent.tsx:15 | trimmed lower-case tags pass the map unchanged |
| EditNote.ParseJoinedTags | src/components/EditNoteComponent.tsx:14-34 | round trip: parsing the tags input's initial value gives the note's own tags when they are clean |
| EditNote.ConfirmUnedited | src/components/EditNoteComponent.tsx:23-37 | Confirming an unedited note gives the same note back, provided its tags are clean. It assumes three things: the name input gives back `note.name`, the color input gives back `note.color`, and `parseContent` of the textarea text gives back the content |
| Balances.RelativeStatus | src/components/Balances.tsx:26-37 | `relativeStatus`; specified by Balances.RelativeStatusMeaning and Balances.RelativeStatusNegate |
| Balances.UsersMap | src/components/Balances.tsx:92-95 | `usersMap`; specified by Balances.UsersMapKeys and Balances.UsersMapLastWins |
| Balances.Preposition | src/components/Balances.tsx:79 | "from" when the member lent, else "to"; Balances.DebtsOfLines states its use |
| Balances.DebtsOf | src/components/Balances.tsx:66-82 | the lines for one other user's debts; specified by Balances.DebtsOfLines |
| Balances.DebtLines | src/components/Balances.tsx:63-83 | the lines under a card; specified by Balances.DebtLinesShape and Balances.DebtsOfLines |
| Balances.BalanceCard | src/components/Balances.tsx:41-86 | one member's card; specified by Balances.BalanceCardHeader, whose lines are Balances.DebtLines as described by Balances.DebtLinesShape |
| Balances.RelativeStatusMeaning | src/components/Balances.tsx:26-37 | A negative amount is lent and "gets back"; any other amount is borrowed and "owes". The cost is the currency's format of the magnitude. An unknown currency gives nothing |
| Balances.RelativeStatusNegate | src/components/Balances.tsx:31-34 | a nonzero amount and its negation have opposite statuses and descriptions and the same cost |
| Balances.UsersMapKeys | src/components/Balances.tsx:92-95 | the users map holds exactly the members' user ids |
| Balances.UsersMapLastWins | src/components/Balances.tsx:92-95 | an id maps to the user of the last member with that id |
| Balances.BalanceCardHeader | src/components/Balances.tsx:41-86 | A card renders exactly when the total is non-empty, the member is known, the first currency is known and every debt line can be built. Its header is then the first currency's classification, starred exactly when there is more than one currency, and its lines are the debt lines |
| Balances.DebtsOfLines | src/components/Balances.tsx:66-79 | one line per debt entry, classified like the amount, reading "from" exactly when the member lent |
| Balances.DebtLinesShape | src/components/Balances.tsx:63-83 | a card has as many debt lines as debt entries, all about the card's member, each saying "from" exactly for lent amounts |
| UsersModal.Refresh | src/components/UsersModal.tsx:19-35 | without the group's member list both lists keep their previous values |
| UsersModal.WithStatus | src/components/UsersModal.tsx:25-34 | `filter` by status then `map` to the user; specified by UsersModal.WithStatusExact and UsersModal.WithStatusMember |
| UsersModal.WithStatusExact | src/components/UsersModal.tsx:25-34 | the list for a status is exactly the users of the members with that status, in membership order |
| UsersModal.PositionsExact | src/components/UsersModal.tsx:27-32 | the filter keeps ascending indices of members with the status, and every such member |
| UsersModal.WithStatusAt | src/components/UsersModal.tsx:28-33 | the k-th listed user is the user of the k-th kept member |
| UsersModal.WithStatusMember | src/components/UsersModal.tsx:25-34 | a user is listed exactly when some membership pairs that user with the status |
| UsersModal.StatusPartition | src/components/UsersModal.tsx:27-32 | the joined, pending and rejected lists together account for every membership once |
| UsersModal.JoinedPendingDisjoint | src/components/UsersModal.tsx:27-32 | no membership is both in the joined list and in the pending list |
| UsersModal.RefreshLists | src/components/UsersModal.tsx:22-35 | after members arrive, a user is in the joined (pending) list exactly when a joined (pending) membership names the user |
| Home.Shown | src/pages/Home.tsx:97 | `group.name.toLowerCase().includes(lowered)`; Home.FilterGroupsMember and Home.FilterCaseInsensitive state its use |
| Home.FilterGroups | src/pages/Home.tsx:95-100 | the shown groups; specified by Home.FilterGroupsMember, Home.FilterGroupsAppend and Home.FilterGroupsEmpty |
| Home.FilterGroupsMember | src/pages/Home.tsx:95-100 | a group is shown exactly when it is in state and its lower-cased name includes the lower-cased filter |
| Home.FilterGroupsAppend | src/pages/Home.tsx:97 | filtering distributes over concatenation, so the state order is kept |
| Home.FilterGroupsEmpty | src/pages/Home.tsx:97 | the empty filter shows every group |
| Home.FilterCaseInsensitive | src/pages/Home.tsx:96-97 | the filter's case does not matter |
| Home.LowerIdempotent | src/pages/Home.tsx:96 | lower-casing twice is lower-casing once |
| Home.HomePage.HandleKeydown | src/pages/Home.tsx:45-56 | the page state takes one Escape step; the answer is `false` for Escape/Esc and nothing otherwise |
| Home.KeyStep | src/pages/Home.tsx:45-56 | one Escape step of the page state; specified by Home.KeyStepCases and Home.EscapeTwiceIdle |
| Home.KeyStepCases | src/pages/Home.tsx:45-56 | Escape closes an open dialog and keeps the filter, otherwise clears the filter; other keys change nothing |
| Home.EscapeTwiceIdle | src/pages/Home.tsx:45-56 | two Escapes always leave the page with no dialog and no filter |
| Home.GroupRequest | src/pages/Home.tsx:59 | an update is sent exactly when the group has a truthy id, else a creation |
| Home.HomePage.CreateGroup | src/pages/Home.tsx:58-66 | one request is issued for the group and the dialog is closed |
| Home.HomePage.ShowModal | src/pages/Home.tsx:86-89 | the given group, or none, becomes current and the dialog opens |
| Home.HomePage.NewGroupClicked | src/pages/Home.tsx:91-93 | the dialog opens with no current group |
| App.App.ToggleNotifications | src/App.tsx:128-136 | Opening sends the id of every notification listed before the await. It then marks read the list as it is after the await, which may have been refetched meanwhile, and shows the panel. A failed update writes nothing beyond that refetch. Closing only hides the panel |
| App.Ids | src/App.tsx:130 | `map(n => n.id)`, also at src/App.tsx:206; the handlers' ensures name the ids sent through it |
| App.MarkAllRead | src/App.tsx:131 | the list with every status set to read; specified by App.MarkAllReadKeeps |
| App.MarkAllReadKeeps | src/App.tsx:131 | marking read keeps the count, the order and every other field |
| App.App.HandleKeydown | src/App.tsx:138-146 | Escape/Esc hides the panel and answers `false`; other keys change nothing |
| App.App.OnNotificationAction | src/App.tsx:185-202 | On success a joined invitation stores its group. The notification's entry is then spliced out of a copy of the list as it is after the awaits, which may have been refetched meanwhile. A failure, or a list that is not loaded, raises an error instead |
| App.IndexOf | src/App.tsx:196 | `indexOf`; specified by App.IndexOfSpec |
| App.Splice1 | src/App.tsx:197 | `splice(start, 1)`, a negative start counting from the end; App.RemoveListed and App.RemoveUnlisted state its effect at the index `indexOf` gives |
| App.Remove | src/App.tsx:195-198 | the list after acting on a notification; specified by App.RemoveListed, App.RemoveUnlisted and App.ActionAfterRefetch |
| App.IndexOfSpec | src/App.tsx:196 | `indexOf` gives the first position of the notification, and -1 exactly when it is not listed |
| App.RemoveListed | src/App.tsx:195-198 | acting on a listed notification removes exactly its first occurrence and keeps the rest in order |
| App.RemoveUnlisted | src/App.tsx:196-197 | acting on a notification that is not listed removes the last entry, as `splice(-1, 1)` does |
| App.ActionAfterRefetch | src/App.tsx:195-198 | when a refetch (src/App.tsx:163) replaced the list during the awaits, the acted-on notification is not in the new list, so the last notification is dropped instead |
| App.App.OnArchiveNotifications | src/App.tsx:204-215 | On success, the list as it is after the await keeps exactly the notifications not archived; that list may have been refetched meanwhile. On failure nothing changes beyond that refetch, and an error is raised |
| App.ArchiveFilter | src/App.tsx:210 | the filter; specified by App.ArchiveFilterMember, App.ArchiveFilterAppend and App.ArchiveFilterIdempotent |
| App.ArchiveFilterMember | src/App.tsx:210 | a notification remains exactly when it was listed and is not archived |
| App.ArchiveFilterAppend | src/App.tsx:210 | archiving distributes over concatenation, so order is kept |
| App.ArchiveFilterIdempotent | src/App.tsx:210 | archiving nothing keeps the list, and archiving twice is archiving once |
| LineComponent.IsLink | src/components/LineComponent.tsx:29 | the anchor-or-paragraph test; specified by LineComponent.LinkedLine, LineComponent.AddressLine and LineComponent.PlainLine |
| LineComponent.Href | src/components/LineComponent.tsx:30 | `key.link ?? key.line`; LineComponent.EmptyLinkQuirk states its consequence for an empty link |
| LineComponent.KeyLine | src/components/LineComponent.tsx:29-31 | the rendered element; specified by LineComponent.LinkedLine, LineComponent.AddressLine, LineComponent.EmptyLinkQuirk and LineComponent.PlainLine |
| LineComponent.LinkedLine | src/components/LineComponent.tsx:29-30 | a line with a truthy link renders as an anchor to that link |
| LineComponent.AddressLine | src/components/LineComponent.tsx:29-30 | a line without a link whose text starts with `https://` links to its own text |
| LineComponent.EmptyLinkQuirk | src/components/LineComponent.tsx:29-30 | an empty link does not make an anchor by itself, but when the text is a web address the empty link, not the text, is the href |
| LineComponent.PlainLine | src/components/LineComponent.tsx:29-31 | a line without a truthy link whose text does not start with `http` renders as a paragraph |
| LineComponent.LineView.constructor | src/components/LineComponent.tsx:26-27 | the menu starts hidden and blur starts as `!!key.blur` |
| LineComponent.LineView.Controls | src/components/LineComponent.tsx:36-46 | The controls show only while the menu does. The blur control appears exactly for a truthy `blur`, the copy control always, and the collapse control exactly when `hasChildren` holds, which ContentComponent.LineFor sets exactly when the line has children |
| ContentComponent.LineFor | src/components/ContentComponent.tsx:30 | the line component gets the line's key, a hidden menu and blur `!!key.blur`, and `hasChildren` exactly when the line's child list is non-empty |
| LineComponent.LineView.Checkbox | src/components/LineComponent.tsx:34 | a checkbox appears exactly for checkbox lines, checked exactly when `check` is true |
| LineComponent.LineView.MouseEnter | src/components/LineComponent.tsx:33 | the menu shows, blur unchanged |
| LineComponent.LineView.MouseLeave | src/components/LineComponent.tsx:33 | the menu hides, blur unchanged |
| LineComponent.LineView.ClickBlur | src/components/LineComponent.tsx:37-38 | a click on the blur control flips blur |

## Left out

- Expense formatting and settle-up are not part of this model. `formatExpenses` and `monthNumberToName` are imported by src/pages/Group.tsx and src/components/Expenses.tsx, but src/utils.ts does not define them. Balances arrive computed from the server, so no ledger arithmetic is modelled.
- Service calls (`src/services.ts`) are not modelled; each awaited call is a success flag parameter. This covers `updateNotifications`, `updateNotification` and `updateMembership` in the notification handlers, and the PUT/POST of a group, which is only recorded as a request.
- Also outside this model:
  - the long-poll `syncMaster` loop and the fetch/refresh functions, which are async orchestration;
  - `src/auth.ts`, which depends on `atob` and JSON parsing;
  - `src/context.tsx` and `src/index.tsx`, which are the reactive store and the router.
- Browser and DOM effects are left out: `getBoundingClientRect`, `copyToClipboard`, and window listeners.
- Cookies.Document: the store keeps names and values as written. The browser's own trimming and rejection of odd names and values is not modelled. The SameSite, Secure and path attributes are not modelled either. A cookie leaves the store only through a write whose expiry is in the past, decided by the sign of the day count; expiry by the passing of time is not modelled.
- Cookies.SetThenGet, Cookies.SetPastThenGet, Cookies.RemoveThenGet and Cookies.Document.GetCookie (second ensures): these are stated for well-formed names and values only. A well-formed name is non-empty, has no leading space, and contains no `;` or `=`; a well-formed value contains no `;`. Other names the browser parses differently, and the model does not say what `getCookie` then returns beyond the segment lookup.
- Cookies.Document.GetCookie: `decodeURIComponent` is taken as the identity on the stored text, because percent-decoding is not modelled.
- Cookies.Document.SetCookie: the expiry date text (`Date.toUTCString()` of now plus the days) is a parameter, because clocks are not modelled. The day count is a whole number: fractional counts and `NaN`, which is falsy and so writes no expiry, are not modelled.
- NotesBoard.Board.ComputeColumns: the board width is a whole number of pixels; the browser reports a fractional width.
- NotesBoard.FillColumns: a note's wrapped size (`wrappedNoteSize`, not defined in src/utils.ts) is the parameter `sizeOf`, and the sizes are whole numbers.
- NotesBoard.IsColumnAfterAssign: `includes` compares notes by identity; the model compares them by value, so two equal notes are not told apart.
- Tags.TopTags: widths are exact hundredths of a pixel (900 + 570 per UTF-16 code unit). The source adds floating-point `5.70` per code unit, which can round differently exactly at the budget.
- NoteComponent.OnCheckToggle: `deepCopy` is value semantics. The `onModified` callback is the returned note. `parseContent`, `contentToString`, `noteSize` and "show more" are not modelled.
- EditNote.NewNote: the content textarea's parse (`parseContent`) arrives as a parameter.
- Strings.ToLower and Strings.Trim: ASCII only. The non-ASCII whitespace and letters of JavaScript's `trim` and `toLowerCase` are not modelled.
- Balances.RelativeStatus: amounts are integers, not floating-point numbers. A currency id is a number, not an `Object.entries` string key. `Intl.NumberFormat` output is the pair of acronym and magnitude, so a currency code that `Intl` rejects is not modelled.
- UsersModal.Refresh: a missing group and a missing member list are one case (`None`).
- App.Remove: `indexOf` and `includes` compare notifications by identity; the model compares by value.
- App.App.ToggleNotifications, App.App.OnNotificationAction and App.App.OnArchiveNotifications: the only concurrent change modelled during the awaits is one refetch by `syncMaster` (src/App.tsx:162-164), given as the `refetched` parameter. Other interleavings are not modelled: a second handler call, or a refetch that fails. A refetched list holds new objects, and the identity comparison of `indexOf` and `includes` is modelled by value, so a refetched entry equal in every field to the notification acted on still counts as listed.
- EditNote.ConfirmUnedited: this lemma assumes the form gives back the note's own name, color and content. A browser's `<input type="color">` normalises its value to lower-case `#rrggbb`, and a text input strips line breaks from its value. The lemma also takes `parseContent(contentToString(c)) == c` as given, because those two functions are not defined in src/utils.ts. For a note whose color or name the browser would change, the model does not promise the same note back.
- App.App.OnNotificationAction: the error text of `formatError` (not defined in src/utils.ts) is a raised error flag.
- Object key order (`Object.entries`, `Object.values`) is taken to be the order of the given sequences.
- Presentation components are not modelled: the nav bar, login, expense modal, pickers, profile pictures and CSS.
