# GitHub Visualiser — a verified model of its data core

GitHub Visualiser is a React front end over the GitHub REST API and Google's
generative-AI SDK. A user pastes a repository URL. The dashboard fetches the
repository's details, its recursive file tree, issues, workflows, open pull
requests and weekly commit activity. It shows them as a file browser, a
radial tree or force graph, an insights panel and a file viewer. An AI
assistant answers questions about selected files.

This project models the deterministic core under that plumbing in Dafny and
proves what it promises:

- `GitHubUrl`: `parseGitHubUrl`, the owner and repository taken from a URL
  path.
- `HierarchyData`: `createHierarchyData`. A `Builder` class moves a cursor
  through an arena of `{ name, children }` nodes. It is proved against the
  function `InsertFrom`/`Build`, which keeps sibling names distinct and gives
  a node a `children` array only once something is pushed under it.
- `FileTreeView`: `createTree`, the `isDir` rule and the sibling comparator
  of the file browser. A `TreeBuilder` class runs the `reduce` over the path
  parts. Children are maps and each node carries an optional `_meta` entry.
- `Base64`: the browser's `atob`, the "forgiving-base64 decode" of the WHATWG
  Infra standard. Its partner is the padded encoder of section 4 of RFC 4648,
  the form in which GitHub sends file content.
- `FileContent`: `decodeBase64` (a method filling a byte array) and the two
  content resolvers of the dashboard.
- `Dashboard`: the `handleVisualize` and `handleFileClick` state machines on
  a `Page` class. The five parallel requests are abstract outcomes settling
  in any order.
- `RepoInsights`: the `insights` memo of the insights panel. It covers:
  - `getExtension`
  - the counting dictionaries and their `Object.entries` key order
  - the stable descending sort and the top five
  - the largest files
  - the pull-request summary
  - the twelve monthly buckets and their rotation
- `AIAssistant`: the file selection, the submit guard, the prompt assembly
  with its 1,000,000-byte gate, the chat history and the key reset, on an
  `Assistant` class.
- `FileViewer`: the viewer's null-render guard and `decodedContent`, as written and with the double decoding corrected.
- `Strings`, `Seqs`, `Wrappers`, `Repo`: JavaScript `split`, `filter`,
  `trim`, `slice` and `includes`, the option type, and the shared records of
  the GitHub replies.

Parameters stand in for what cannot be modelled here:

- A network request is a function parameter returning an outcome.
- `TextDecoder` is a function `utf8` from bytes to text.
- The Gemini call is a function `generate` from the prompt to an outcome.
- `new URL(...)` is replaced by its pathname, `None` when it throws.
- The month of a week and the current month are indices 0..11.

An `async` handler is split at its `await` into a method for the synchronous
part and a method for the part that runs once the awaited work has settled.

The rate limit is updated only from a reply that carries both rate-limit
headers. The code at src/pages/Dashboard.jsx:102 tests them for truthiness,
not for null: an empty header string counts as absent, and `"0"` counts.

## Model

| member | source | states |
|---|---|---|
| `Strings.Split` | src/pages/Dashboard.jsx:15 | `split('/')` gives at least one part, no part contains the separator, and a string without it is its own single part |
| `Strings.JoinSplit` | src/pages/Dashboard.jsx:15 | joining the parts with the separator gives back the original string, so splitting loses nothing |
| `Strings.SplitConcat` | src/pages/Dashboard.jsx:15 | splitting at an inner separator splits the two sides independently |
| `Strings.SplitInjective` | src/pages/Dashboard.jsx:27 | two paths with the same segments are the same path |
| `Strings.NonEmpty` | src/pages/Dashboard.jsx:15 | `filter(p => p)` keeps exactly the non-empty parts, each as often as it occurs; `Strings.NonEmptyConcat` pins their order |
| `Strings.NonEmptyConcat` | src/pages/Dashboard.jsx:15 | the filter works piecewise over a concatenation |
| `Seqs.Take` | src/components/RepoInsights.jsx:98 | `slice(0, n)` is a prefix of length min(length, n) |
| `Seqs.FilterMembers` | src/components/AIAssistant.jsx:51 | `filter` keeps exactly the elements that pass |
| `Seqs.FilterMultiplicity` | src/components/AIAssistant.jsx:51 | `filter` keeps every passing value as often as it occurs and no rejected value |
| `Base64.StripWhitespace` | src/pages/Dashboard.jsx:43 | the first decoding step leaves no ASCII whitespace and never lengthens the input |
| `Base64.StripKeeps` | src/pages/Dashboard.jsx:43 | every character that is not whitespace survives that step |
| `Base64.DropPadding` | src/pages/Dashboard.jsx:43 | padding removal drops only trailing `=` characters |
| `Base64.DecodeQuantaLength` | src/pages/Dashboard.jsx:43 | the bit buffer yields three bytes per four characters, rounded down |
| `Base64.Decode` | src/pages/Dashboard.jsx:43 | `atob` fails exactly when the prepared text has length 1 mod 4 or a character outside the alphabet |
| `Base64.DecodeLength` | src/pages/Dashboard.jsx:43 | a successful `atob` yields 3/4 of the prepared length in bytes, rounded down |
| `Base64.AtobEncode` | src/pages/Dashboard.jsx:43 | `atob` of an encoded byte string does not throw and returns one character per original byte, whose char code is that byte |
| `Base64.Encode` | src/pages/Dashboard.jsx:149 | the padded encoding GitHub sends has a length that is a multiple of four |
| `Base64.Unpadded` | src/pages/Dashboard.jsx:149 | the unpadded encoding uses only alphabet characters and never has length 1 mod 4 |
| `Base64.UnpaddedLength` | src/pages/Dashboard.jsx:149 | the unpadded encoding has four characters per three bytes, rounded up |
| `Base64.Digits` | src/pages/Dashboard.jsx:149 | each 6-bit value is written as the alphabet character whose value it is |
| `Base64.ValuesOfDigits` | src/pages/Dashboard.jsx:43 | reading back the characters written for some 6-bit values gives those values |
| `Base64.FromToSextets` | src/pages/Dashboard.jsx:43 | refilling the bit buffer from the 6-bit values of some bytes gives back those bytes |
| `Base64.DecodeUnpadded` | src/pages/Dashboard.jsx:43 | decoding the quanta of an encoding gives back its bytes |
| `Base64.DropPaddingOf` | src/pages/Dashboard.jsx:43 | padding removal takes off exactly the `=` padding of an encoding |
| `Base64.EncodePrepared` | src/pages/Dashboard.jsx:43 | whitespace and padding removal turn a padded encoding into the unpadded one |
| `Base64.EncodeDecode` | src/pages/Dashboard.jsx:43 | `atob` accepts every padded encoding and returns exactly the encoded bytes |
| `Base64.StripIdentity` | src/pages/Dashboard.jsx:43 | text without whitespace is left unchanged by the first step |
| `Base64.ForeignCharacterRejected` | src/pages/Dashboard.jsx:43 | one character that is not whitespace, `=` or base64 makes `atob` throw |
| `Base64.LineBreakIgnored` | src/pages/Dashboard.jsx:43 | a line break inserted anywhere does not change the result of `atob` |
| `GitHubUrl.ParseGitHubUrl` | src/pages/Dashboard.jsx:12-19 | a result exists exactly when the path has at least two non-empty segments; owner and repository are non-empty and contain no `/`; a URL that does not parse gives none |
| `GitHubUrl.ParseOwnerRepo` | src/pages/Dashboard.jsx:15-16 | `/owner/repo/anything` names owner and repo; later segments are ignored and nothing is stripped from them |
| `GitHubUrl.ParseOwnerRepoExact` | src/pages/Dashboard.jsx:15-16 | `/owner/repo` names owner and repo |
| `GitHubUrl.ParseTooShort` | src/pages/Dashboard.jsx:16-17 | a path with at most one segment, with or without a trailing `/`, names no repository |
| `GitHubUrl.RepeatedSlashIgnored` | src/pages/Dashboard.jsx:15 | doubling a `/` anywhere in the path changes nothing |
| `GitHubUrl.TrailingSlashIgnored` | src/pages/Dashboard.jsx:15 | a trailing `/` changes nothing |
| `HierarchyData.FindIn` | src/pages/Dashboard.jsx:28 | `find` returns a child with the name, or there is none among the children |
| `HierarchyData.FindInFirst` | src/pages/Dashboard.jsx:28 | the child `find` returns is the first child with the name |
| `HierarchyData.AddChild` | src/pages/Dashboard.jsx:29-33 | pushing a fresh `{ name }` appends exactly one node as the last child and keeps the hierarchy valid |
| `HierarchyData.AddChildValid` | src/pages/Dashboard.jsx:29-33 | a push made after an unsuccessful lookup keeps siblings distinct and every node but the root under exactly one parent created before it |
| `HierarchyData.InsertFrom` | src/pages/Dashboard.jsx:27-35 | inserting one path keeps the hierarchy valid and only appends nodes and children |
| `HierarchyData.Walk` | src/pages/Dashboard.jsx:28-34 | following names from a node ends at an existing node or fails |
| `HierarchyData.Build` | src/pages/Dashboard.jsx:25-36 | the hierarchy of a list is valid: distinct sibling names, exactly one parent for every node but the root, a `children` array only where something was pushed |
| `HierarchyData.HierarchyOf` | src/pages/Dashboard.jsx:22-24 | a missing or empty list gives the bare root `{ name: "root", children: [] }` |
| `HierarchyData.InsertWalks` | src/pages/Dashboard.jsx:27-35 | after inserting a path it can be followed from where it was inserted |
| `HierarchyData.WalkStable` | src/pages/Dashboard.jsx:25-36 | a path that can be followed still leads to the same node after later insertions |
| `HierarchyData.WalkPrefix` | src/pages/Dashboard.jsx:27-34 | every prefix of a followable path can be followed |
| `HierarchyData.InsertPresentUnchanged` | src/pages/Dashboard.jsx:28-33 | inserting a path that is already present changes nothing |
| `HierarchyData.BuildContainsPath` | src/pages/Dashboard.jsx:25-36 | every entry's segments trace a chain from the root |
| `HierarchyData.BuildIdempotent` | src/pages/Dashboard.jsx:28-33 | appending an entry whose path is one already listed, or a prefix of one, leaves the hierarchy unchanged |
| `HierarchyData.Builder.constructor` | src/pages/Dashboard.jsx:23 | the builder starts as the bare root |
| `HierarchyData.Builder.FindChild` | src/pages/Dashboard.jsx:28 | the loop over `children` returns the first child with the name |
| `HierarchyData.Builder.PushChild` | src/pages/Dashboard.jsx:29-33 | the fields change exactly as `AddChild` says and the new node's index is returned |
| `HierarchyData.Builder.InsertPath` | src/pages/Dashboard.jsx:26-35 | the cursor loop over one path leaves the hierarchy `InsertFrom` describes |
| `HierarchyData.CreateHierarchyData` | src/pages/Dashboard.jsx:22-38 | the method returns the hierarchy `HierarchyOf` describes |
| `FileTreeView.Ensure` | src/components/FileTreeView.jsx:10 | `if (!acc[part])` creates one empty child exactly when the name is missing and otherwise changes nothing |
| `FileTreeView.Walk` | src/components/FileTreeView.jsx:9-13 | following names only moves to nodes created later |
| `FileTreeView.Place` | src/components/FileTreeView.jsx:9-13 | after one `reduce` the path leads to a node whose `_meta` is the entry; every other node keeps its `_meta`, and the other new nodes have none |
| `FileTreeView.Create` | src/components/FileTreeView.jsx:8-14 | the tree of a list is well formed |
| `FileTreeView.CreateTree` | src/components/FileTreeView.jsx:5-7 | a missing list gives `{}` |
| `FileTreeView.WalkStable` | src/components/FileTreeView.jsx:8-14 | a path that leads somewhere still leads there after later entries |
| `FileTreeView.CreateChains` | src/components/FileTreeView.jsx:8-13 | every entry's segments trace a chain of nodes from the top |
| `FileTreeView.LastAtStable` | src/components/FileTreeView.jsx:11 | later nodes do not change which entry last reached an existing node |
| `FileTreeView.CreateMeta` | src/components/FileTreeView.jsx:10-11 | last writer wins: a node's `_meta` is the last entry whose path ends there, and none when no path ends there |
| `FileTreeView.PlaceLeaves` | src/components/FileTreeView.jsx:9-13 | one `reduce` leaves no childless node without an entry |
| `FileTreeView.CreateLeavesCarryMeta` | src/components/FileTreeView.jsx:20-38 | every node `isDir` calls a file has an entry for its button to open |
| `FileTreeView.PlacePresent` | src/components/FileTreeView.jsx:10 | a path already present creates no node: one node per (parent, name) |
| `FileTreeView.ChildlessDirectoryIsFile` | src/components/FileTreeView.jsx:20-38 | a tree entry with nothing listed below it is not a directory for `isDir` and opens as a file |
| `FileTreeView.LexIrreflexive` | src/components/FileTreeView.jsx:52 | the name order never puts a name before itself |
| `FileTreeView.LexTransitive` | src/components/FileTreeView.jsx:52 | the name order is transitive |
| `FileTreeView.LexTotal` | src/components/FileTreeView.jsx:52 | any two different names are ordered one way or the other |
| `FileTreeView.BeforeStrictTotal` | src/components/FileTreeView.jsx:47-53 | directories before files, then names: the comparator is a strict total order on sibling names |
| `FileTreeView.Insert` | src/components/FileTreeView.jsx:47-53 | insertion into a sorted list keeps it sorted and adds exactly the new key |
| `FileTreeView.SortKeys` | src/components/FileTreeView.jsx:47-53 | the sorted keys are ordered by the comparator and are a permutation of the keys |
| `FileTreeView.SortedUnique` | src/components/FileTreeView.jsx:47-53 | two sorted lists of the same keys are equal |
| `FileTreeView.SiblingOrder` | src/components/FileTreeView.jsx:47-56 | the rendered order of a node's children does not depend on the order their keys were enumerated in |
| `FileTreeView.Render` | src/components/FileTreeView.jsx:61-65 | a missing or empty list shows the "No files found" message, and anything else shows the tree of its entries |
| `FileTreeView.TreeBuilder.constructor` | src/components/FileTreeView.jsx:6 | the builder starts as `{}` |
| `FileTreeView.TreeBuilder.EnsureChild` | src/components/FileTreeView.jsx:10 | the child map changes as `Ensure` says and the child's node is returned |
| `FileTreeView.TreeBuilder.PlacePath` | src/components/FileTreeView.jsx:9-13 | the `reduce` over one path leaves the tree `Place` describes |
| `FileTreeView.CreateTreeOf` | src/components/FileTreeView.jsx:5-16 | the method returns the tree `CreateTree` describes |
| `FileContent.ToUint8` | src/pages/Dashboard.jsx:46 | a `Uint8Array` cell keeps a char code below 256 as it is |
| `FileContent.CharCodes` | src/pages/Dashboard.jsx:44-47 | the byte array has the binary string's length |
| `FileContent.CharCodesOfBinary` | src/pages/Dashboard.jsx:44-47 | the char codes of `atob`'s binary string are exactly the decoded bytes |
| `FileContent.DecodedText` | src/pages/Dashboard.jsx:40-53 | the fixed error text exactly when `atob` throws, otherwise the UTF-8 reading of the encoded bytes |
| `FileContent.DecodeBase64` | src/pages/Dashboard.jsx:40-53 | the byte-array loop computes `DecodedText` |
| `FileContent.DecodeEncoded` | src/pages/Dashboard.jsx:40-53 | content GitHub encoded decodes to the UTF-8 reading of its bytes |
| `FileContent.EmptyFileNotDecoded` | src/pages/Dashboard.jsx:149-174 | an empty or missing `content` is never decoded: both resolvers give their type placeholder |
| `FileContent.AIResolverGuards` | src/pages/Dashboard.jsx:163-178 | an empty path gives the invalid-path text before any request, and an unparseable input gives the path-tagged failure text |
| `FileContent.ResolversAgree` | src/pages/Dashboard.jsx:141-179 | both resolvers give the UTF-8 text of an encoded file, with no size limit |
| `Dashboard.CompletedCovers` | src/pages/Dashboard.jsx:113-119 | every one of the five requests settles at some point |
| `Dashboard.FirstRejectionIsFirst` | src/pages/Dashboard.jsx:113-119 | `Promise.all` rejects exactly when some request does, with the message of the first to reject |
| `Dashboard.RateAfterNone` | src/pages/Dashboard.jsx:100-102 | with no reply carrying both headers, the rate limit is unchanged |
| `Dashboard.RateAfterLast` | src/pages/Dashboard.jsx:95-104 | the rate limit ends as the headers of the last reply to carry both |
| `Dashboard.SettleAll` | src/pages/Dashboard.jsx:95-119 | the loop over settlements computes the final rate limit and the first rejection |
| `Dashboard.BuildSnapshot` | src/pages/Dashboard.jsx:121-131 | the `setRepoData` argument holds the replies and the hierarchy of the file list |
| `Dashboard.AllFetchedWhenNoRejection` | src/pages/Dashboard.jsx:113-119 | no rejection in the completion order means all five replies arrived |
| `Dashboard.PublishAllOrNothing` | src/pages/Dashboard.jsx:106-138 | a snapshot is published exactly when the details carry a default branch and all five requests succeed; otherwise the error is the fixed prefix and the message of what failed |
| `Dashboard.Settlement` | src/pages/Dashboard.jsx:106-138 | the steps after the details request compute the final rate limit and the publication |
| `Dashboard.Page.constructor` | src/pages/Dashboard.jsx:56-65 | the page starts with an empty input, no error, no snapshot, the list tab, and nothing being viewed or loaded |
| `Dashboard.Page.StartVisualize` | src/pages/Dashboard.jsx:77-89 | a missing token or a bad URL sets its error and changes neither loading nor the snapshot; otherwise loading starts, the error is cleared and the snapshot dropped |
| `Dashboard.Page.FinishVisualize` | src/pages/Dashboard.jsx:92-138 | the snapshot and the list tab, or the error, are set as the publication says; the rate limit is final and loading always ends |
| `Dashboard.Page.BeginFileClick` | src/pages/Dashboard.jsx:142-144 | a missing file or path changes nothing; otherwise the viewer shows the path with `Loading...` and file loading starts |
| `Dashboard.Page.FinishFileClick` | src/pages/Dashboard.jsx:145-160 | the viewer shows the resolved content or placeholder and file loading ends |
| `RepoInsights.GetExtension` | src/components/RepoInsights.jsx:4-7 | the extension is `none` for a path with no dot, and otherwise starts with a dot |
| `RepoInsights.ExtensionAfterLastDot` | src/components/RepoInsights.jsx:5-6 | the extension is a dot and the text after the last dot |
| `RepoInsights.ExtensionOfDottedDirectory` | src/components/RepoInsights.jsx:5-6 | the last dot of the whole path counts: `v1.2/Makefile` gives `.2/Makefile` |
| `RepoInsights.ExtensionOfTrailingDot` | src/components/RepoInsights.jsx:5-6 | a trailing dot gives `.` |
| `RepoInsights.SortDescSorted` | src/components/RepoInsights.jsx:98 | the sort orders by descending key and is a permutation |
| `RepoInsights.SortDescStable` | src/components/RepoInsights.jsx:98 | the sort is stable: equal keys keep their relative order |
| `RepoInsights.TopByKey` | src/components/RepoInsights.jsx:104-105 | the first n of the sort are members of the input, sorted, min(length, n) of them, and no element left out outranks one kept |
| `RepoInsights.TallyCounts` | src/components/RepoInsights.jsx:91-97 | every key seen is in the dictionary once, counted as often as it occurs |
| `RepoInsights.TallyOrderGrows` | src/components/RepoInsights.jsx:95 | keys enter the dictionary when first seen and never move |
| `RepoInsights.TallySum` | src/components/RepoInsights.jsx:91-97 | before truncation the counts add up to the number of keys counted |
| `RepoInsights.ObjectKeys` | src/components/RepoInsights.jsx:98 | the key enumeration is a permutation of the insertion order |
| `RepoInsights.ObjectKeysOrder` | src/components/RepoInsights.jsx:114 | integer-like keys come first, in ascending numeric order, then the rest in insertion order |
| `RepoInsights.ObjectKeysInsertionOrder` | src/components/RepoInsights.jsx:98 | with no integer-like key the enumeration is the insertion order |
| `RepoInsights.ExtensionIsNamed` | src/components/RepoInsights.jsx:94-98 | an extension is never an integer-like key |
| `RepoInsights.ExtensionKeys` | src/components/RepoInsights.jsx:92-96 | at most one extension per entry |
| `RepoInsights.ExtensionKeysOfBlobs` | src/components/RepoInsights.jsx:93-94 | exactly one extension per blob, none for other entries, all of them named keys |
| `RepoInsights.Increment` | src/components/RepoInsights.jsx:95 | one increment of a dictionary entry updates the dictionary as `Bump` says |
| `RepoInsights.CountFileTypes` | src/components/RepoInsights.jsx:91-97 | the `fileTypes` loop computes the tally of the blob extensions |
| `RepoInsights.CountLabels` | src/components/RepoInsights.jsx:108-113 | the nested `issueLabels` loops compute the tally of every label occurrence |
| `RepoInsights.LabelHistogram` | src/components/RepoInsights.jsx:108-113 | the label counts add up to the number of label occurrences |
| `RepoInsights.TopEntriesShape` | src/components/RepoInsights.jsx:98 | the histogram shown has min(keys, 5) entries, sorted descending, each a key with its own count |
| `RepoInsights.TopEntriesComplete` | src/components/RepoInsights.jsx:98 | no key left out of the histogram has a larger count than one shown |
| `RepoInsights.MaxCountIsMax` | src/components/RepoInsights.jsx:99 | the maximum shown is the largest count of all, and 0 only when there are no keys |
| `RepoInsights.SortedEntriesStable` | src/components/RepoInsights.jsx:114 | ties are broken by the key enumeration order |
| `RepoInsights.FileTypeHistogram` | src/components/RepoInsights.jsx:91-99 | the extension counts add up to the number of blobs, and ties keep first-seen order |
| `RepoInsights.LargestFilesSpec` | src/components/RepoInsights.jsx:102-105 | the first min(5, n) of the n blobs with a truthy size, from the listing, largest first, and no sized blob left out is larger than one kept |
| `RepoInsights.OpenPullRequests` | src/components/RepoInsights.jsx:118 | the first five pulls, or none when pulls are missing |
| `RepoInsights.OpenPRCount` | src/components/RepoInsights.jsx:119 | the count is of all pulls, at least the number listed, and 0 when pulls are missing |
| `RepoInsights.BucketsSum` | src/components/RepoInsights.jsx:122-136 | every week lands in exactly one bucket: the buckets add up to the week totals |
| `RepoInsights.MonthlyCommits` | src/components/RepoInsights.jsx:122-136 | the loop over the zeroed array computes the month totals |
| `RepoInsights.RotateSpec` | src/components/RepoInsights.jsx:138-142 | the rotation keeps the twelve buckets in cyclic order, starting after the current month and ending at it |
| `RepoInsights.CommitActivitySpec` | src/components/RepoInsights.jsx:127-152 | missing or empty activity gives `[]`; otherwise twelve buckets end at the current month, each holding its month's commits |
| `RepoInsights.InsightsOf` | src/components/RepoInsights.jsx:87-154 | no insights without repository data, and every list shown has at most five entries |
| `RepoInsights.ComputeInsights` | src/components/RepoInsights.jsx:87-154 | the memo body with its loops computes `InsightsOf` |
| `AIAssistant.ToggleChecked` | src/components/AIAssistant.jsx:50-51 | checking appends the path last and keeps the earlier selection in front |
| `AIAssistant.ToggleCounts` | src/components/AIAssistant.jsx:50-51 | unchecking removes every occurrence of the path, and other paths keep their counts |
| `AIAssistant.UncheckKeepsOrder` | src/components/AIAssistant.jsx:51 | unchecking keeps the other paths in their order |
| `AIAssistant.FindFile` | src/components/AIAssistant.jsx:71 | the entry found has the path and no earlier entry has it, or no entry has it |
| `AIAssistant.BuildPrompt` | src/components/AIAssistant.jsx:68-83 | the `context +=` loop builds the prompt and requests the paths `Requested` names |
| `AIAssistant.ContextGrows` | src/components/AIAssistant.jsx:70-81 | the context only grows, by appending blocks |
| `AIAssistant.PromptLayout` | src/components/AIAssistant.jsx:68-83 | the prompt starts with the preamble, then each file's block in selection order, and ends with `QUESTION: ` and the query |
| `AIAssistant.SizeGate` | src/components/AIAssistant.jsx:71-79 | a path is requested exactly when it is selected and not over the limit; a large file gets the placeholder, and any other file the resolved content |
| `AIAssistant.SizeLimitBoundary` | src/components/AIAssistant.jsx:74 | 1,000,000 bytes passes and 1,000,001 does not; an unlisted path or one without a size passes |
| `AIAssistant.ReplyKinds` | src/components/AIAssistant.jsx:91-98 | an error mentioning either key marker gets the invalid-key notice, any other is quoted after `Sorry, an error occurred: `, and a missing message prints as `undefined` |
| `AIAssistant.Assistant.constructor` | src/components/AIAssistant.jsx:6-13 | the panel starts with the stored key, an invalid key, no selection, an empty query and history, not loading |
| `AIAssistant.Assistant.SelectFile` | src/components/AIAssistant.jsx:48-53 | only the selection changes, as `Toggle` says |
| `AIAssistant.Assistant.ChangeKey` | src/components/AIAssistant.jsx:104-108 | the key is cleared, marked invalid and removed from storage; nothing else changes |
| `AIAssistant.Assistant.BeginQuery` | src/components/AIAssistant.jsx:57-62 | a failed guard changes nothing; otherwise the query is appended as a user message, loading starts and the box is cleared |
| `AIAssistant.Assistant.FinishQuery` | src/components/AIAssistant.jsx:89-101 | exactly one model message is appended, the key is reset on a key error only, and loading ends |
| `AIAssistant.Assistant.Submit` | src/components/AIAssistant.jsx:55-102 | an accepted query appends exactly the user message and one reply to the prompt built from the query as typed; a key error clears the key, any other outcome leaves the key state as it was |
| `FileViewer.DecodedContent` | src/components/FileViewer.jsx:8-16 | missing or empty content gives `No content available.`, malformed base64 the fixed error, anything else the Latin-1 binary string with no UTF-8 step |
| `FileViewer.Render` | src/components/FileViewer.jsx:5-43 | nothing exactly without a file and not loading, the loading modal exactly while loading, else the file's path and its content passed through `decodedContent` |
| `FileViewer.RenderResolved` | src/components/FileViewer.jsx:5-43 | the same three cases as the viewer as written, the content case showing the resolved text instead of decoding it again |
| `FileViewer.DoubleDecodeRejectsText` | src/components/FileViewer.jsx:11 | decoding the resolved text again turns any text with a character outside base64 and whitespace into the error |
| `FileViewer.DoubleDecodeExample` | src/components/FileViewer.jsx:11 | a base64 file whose text is `Hi.` resolves to `Hi.`, which the viewer as written renders as the decode error |
| `FileViewer.ViewerShowsFile` | src/pages/Dashboard.jsx:149-151 | the corrected viewer shows the UTF-8 text the dashboard resolved |

## Left out

- WHATWG URL parsing (`new URL`): the model takes the pathname, or `None` where the constructor throws.
- `TextDecoder`: it is an arbitrary function `utf8` from bytes to text.
- FileContent.DecodedText: it does not state that the UTF-8 step never yields the error text, because `TextDecoder` is an abstract parameter.
- The Gemini SDK is out of scope. This covers `validateApiKey`, `getGenerativeModel`, `isKeyLoading`, and the key form that hides the submit form while the key is invalid. `generateContent` is a function from the prompt to an outcome.
- Clock and locale: a week's month index and the current month are inputs. The short month names are replaced by month indices. Invalid dates are not modelled.
- FileTreeView.SortKeys: names are ordered by ordinal string order instead of `localeCompare`, whose order depends on the locale.
- JavaScript objects used as maps are modelled as Dafny maps. Inherited names such as `constructor` or `__proto__` therefore behave like any other name in `createTree` and in the counting dictionaries. The prototype-key quirks are left out.
- `fetchApi`'s HTTP layer is out of scope. A request is an abstract outcome carrying its data and two headers, or a rejection with its message. Because `fetchApi` exposes no status, the `status === 202` branch cannot fire and has no counterpart.
- A tree reply whose `tree` field is missing or not an array is not modelled: the file list is a sequence.
- `formatBytes`, `Bar` widths and `CommitGraph` coordinates are left out: they are floating-point rendering.
- The megabyte figure of the size placeholder is the parameter `formatMb`.
- Races between overlapping asynchronous handlers are not modelled. This includes a selection changed while a query awaits the model: the prompt uses the selection as it was at submit time.
- The dashboard passes `chatHistory` props, which the assistant ignores. The model gives `Assistant` its own history field and has no such props.
- A missing `repoData` inside the assistant, where `repoData.files.find` would throw, is not modelled: the file listing is a parameter.
- `localStorage` is the `storedKey` field of `Assistant` and the `authToken` field of `Page`.
- React rendering, hooks, scrolling, the force graph and the radial tree layout are left out. Only the hierarchy they consume is modelled.

## Findings

| source | as written | input that shows it | evidently intended | confidence | as-written member | corrected member |
|---|---|---|---|---|---|---|
| src/components/FileViewer.jsx:11 | `decodedContent` runs `atob` over `file.content`. That content is already the text `decodeBase64` produced (src/pages/Dashboard.jsx:150-151), so it is decoded twice | a base64-stored file whose text reads `Hi.`: the `.` is outside the base64 alphabet, so the viewer shows the "Could not decode" error instead of the file | show the text the dashboard resolved, as `FileViewer.RenderResolved` does | not executed | `FileViewer.DoubleDecodeExample` | `FileViewer.ViewerShowsFile` |
