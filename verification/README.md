# Headtower, modelled and proved in Dafny

Headtower is a web console for a Headscale tailnet. This project models the parts of it that decide
something: what an access policy allows, how an edited policy document is written back, how two documents
differ, how a time axis is laid out, and what the history of policy revisions can be trusted to say. It
proves properties of those models for all inputs, all reachable states and all runs.

Code that the source writes as expressions is a function here; code that updates variables, arrays, maps or
objects is a method or a class, proved against a function or a relation that says what it must achieve.

| module | what it holds |
|---|---|
| Text, Json, Sorting, Numbers | strings, ordered JSON objects, stable sorting, extremes |
| Tokens | reference tokens: ports, IPv4 prefixes, kinds |
| Policy | the editable policy model |
| Expansion, Search | what a selector denotes; the depth-first search that finds it |
| Reachability, ReachabilityLaws | the default-deny decision, its witness, its monotonicity |
| Edits, PolicyDocument, PolicyWriter | reading a policy document and writing the model back in place |
| PolicyRoundTrip, PolicyLaws | what of the tree survives that, exactly |
| Hujson | stripping comments and trailing commas |
| Printing, PrintingLaws, Rereading | a tree printed as text; what stripping and reading make of the print |
| PolicyProper, PolicyText, PolicyEdits | what of the text survives a round trip, and which edits are read back from it |
| LineDiff | the optimal line diff |
| Allocation, TimeScale, AxisBuilder, AxisLayout | the broken time axis and its widths |
| Labels, Ticks | packing labels into rows, thinning ticks |
| Series | the bucketed series |
| Revisions, RevisionActions | the revision store and the operator's actions, each run to its end |
| RevisionRuns, RevisionLaws | all interleavings of those actions, and what every run guarantees |

`dafny verify dfyconfig.toml` checks the whole project.

## Main results

1. **The search finds the closure.** Nested calls of `expand` are incomplete, because a group already seen
   contributes only its own atom. `Expansion.StackExplores` says what a nested call does deliver, with nothing
   assumed of the policy; `Expansion.DenotesClosure` concludes that a call from the root returns exactly what
   all tokens reachable over group members and host aliases contribute, cyclic groups included.
   `Expansion.FinishesExactly` shows that a search returns if and only if no alias chain that it comes to is
   cyclic.
2. **The decision is right and its witness least.** Wherever the searches it comes to have an end,
   `Reachability.EvaluateReachability` allows exactly when some rule or grant fires and reports the first of
   each of its lists; more rules, grants or members never turn an allow into a deny, and order within a
   section never matters.
3. **The diff is optimal.** `LineDiff.DiffLines` returns the greedy script of the table; it spells both
   documents, keeps a longest common subsequence, and no script makes fewer changes.
4. **The axis is sound.** Both width branches fill the axis exactly; `Allocation.Allocate` pours the width to
   one level; the segments tile domain and range, every significant time lies in a span, and later times are
   strictly further along.
5. **The document round trip, exactly.** As a tree, any root comes back the same if and only if it is well
   formed; whatever is written is well formed; everything not edited keeps its value and order. As text, the
   print of a tree, stripped, is the print of that tree with some commas eaten from its strings
   (`Printing.StripPrinted`), and no two trees are printed alike (`PrintingLaws.PrintedUnique`). So a second
   round trip changes no text (`PolicyText.SecondRoundTripExactly`), and edits are read back
   (`PolicyEdits.EditsReadBackExactly`), if and only if no string holds a trailing comma in print and, for
   edits, the model is editable.
6. **Stripping HuJSON.** The comment scan erases the comments of any text whatsoever and nothing else. The
   trailing-comma pass is right if and only if no string holds a trailing comma of its own.
7. **The revision history over every run.** Any number of actions may interleave at every await. Digests stay
   unique and right, stored documents never change, and only pushed documents are stamped. A push is
   remembered, that is stored with its stamp, if and only if its insert finds no unstamped row of the document
   in the way, or the row it stamps is still there or another holds a stamp (`RevisionLaws.RemembersExactly`),
   and so for all the pushes of any run (`RevisionLaws.EveryPushRememberedExactly`).

## Where the code and its comments differ

The model follows the code; each point is a proved statement.

- `stripHujson` is described as respecting strings, but its last pass is not string-aware: `",]"` becomes
  `"]"` (`Hujson.StripEatsIntoStrings`). `Hujson.StripIsTidy` gives the exact condition.
- `roundTripPolicy` is described as normalizing, but reading strips what writing printed: a document whose
  string is `,,]` loses a comma to each of two round trips (`PolicyText.EachRoundTripEats`), and a group
  member `a,]` is read back as `a]` (`PolicyEdits.EditableYetEaten`). `PolicyText.SecondRoundTripExactly` and
  `PolicyEdits.EditsReadBackExactly` give the exact conditions.
- `savePolicy` says that every successful push is remembered. When another action stores the same document
  between the look-up and the insert, the unique index refuses the insert and the push stays unstamped
  (`RevisionLaws.RaceLeavesPushUnstamped`); a row deleted before it is stamped loses its push as well.
  `RevisionLaws.RemembersExactly` gives the exact condition at the last write of the action, and
  `RevisionLaws.EveryPushRememberedExactly` over whole runs.
- Labels "cannot spill out of the frame" holds if and only if they are no wider than two thirds of the frame
  (`Labels.AnchoredLabelsStayInside`, `Labels.WideLabelSpills`).
- The round trip is described as lossless for untouched parts. It is exactly for well-formed sections
  (`PolicyRoundTrip.WriteBackIsIdentity`): a bare string where a list is expected becomes a list
  (`PolicyLaws.BareStringBecomesList`), and junk among the strings is dropped.
- `covers` says that a wildcard meets any non-empty selector; the code lets it meet an empty one too
  (`ReachabilityLaws.CoversMeaning`, `ReachabilityLaws.WildcardMeetsNobody`).
- `splitDstPorts` says that an IPv6 literal is left whole. It is exactly when its last group is not all decimal
  digits (`Tokens.Ipv6StaysWhole`): `fd7a:115c:a1e0::1` comes apart into `fd7a:115c:a1e0:` and port `1`
  (`Tokens.Ipv6LosesItsEnd`).
- `chooseBucketMs` promises at most `targetPoints` points. The aligned grid can need one more
  (`Series.OnePointTooMany`), and when no width suits the widest is used and the excess is unbounded up to the
  cap (`Series.FallbackMissesTarget`). `Series.PointsWithinTarget` gives the exact condition.
- A protocol named like a member every JavaScript object inherits (`constructor`, say) is found in the alias
  table, so that it stands for a protocol where other unknown words are taken for ports
  (`Reachability.LoneWord`).

## Model

| member | source | states |
|---|---|---|
| Tokens.SplitDstPortsExact | src/lib/policy/tokens.ts:28-45 | A destination comes apart exactly when some non-empty reference and a port spec spell it with a colon between, and then into just those two, uniquely. |
| Tokens.Ipv6StaysWhole | src/lib/policy/tokens.ts:22-37 | An IPv6 literal is left whole if and only if its last group is not all decimal digits. |
| Tokens.Ipv6LosesItsEnd | src/lib/policy/tokens.ts:28-37 | An IPv6 literal whose last group is taken for a port. |
| Tokens.PortMatches | src/lib/policy/tokens.ts:120-132 | The loop answers true exactly when no port is asked, none is specified, or some comma-separated part is `*` or a range that holds the port. |
| Tokens.PortPartMeaning | src/lib/policy/tokens.ts:20-132 | Of the parts a port spec is made of, `*` admits every port, a number that port, and a range the ports between its bounds. |
| Tokens.ParseIpv4 | src/lib/policy/tokens.ts:84-95 | An address is read exactly when it is four decimal parts of at most three digits and 255, and its value is their base-256 number, below 2^32. |
| Tokens.MaskClears | src/lib/policy/tokens.ts:108-109 | Bitwise masking clears exactly the bits below the prefix length, for every length from 0 to 32; the guard for 0 is needed because shifts count modulo 32. |
| Tokens.RangeOfToken | src/lib/policy/tokens.ts:98-110 | A token is read as a range exactly when it is a quad with, if any, a prefix length of at most 32, and the range is the set of addresses that share that many leading bits with the quad. |
| Tokens.OverlapExact | src/lib/policy/tokens.ts:113-117 | Two ranges overlap exactly when some 32-bit address lies in both, and then one contains the other. |
| Expansion.Expand | src/lib/policy/eval.ts:84-161 | Where the alias chains it comes to end, the search ends by (groups not yet visited, alias rank) and only ever adds to the visited groups. |
| Expansion.RankDrops | src/lib/policy/eval.ts:119-125 | The host case has no visited guard: following an alias lowers the rank that stands in for it. |
| Expansion.StackJustified | src/lib/policy/eval.ts:84-161 | Soundness of every call that returns, nested or not: nothing is returned that no reachable token contributes. |
| Expansion.StackExplores | src/lib/policy/eval.ts:100-113 | What a call that returns does deliver, nested or not, on any policy: its alias chain ended, and its own token and every reference of the groups it newly visited are accounted for, by contribution or by a visited group. |
| Expansion.PathAccounted | src/lib/policy/eval.ts:100-125 | Every token at the end of a path of references that leaves no group visited before has its contribution in the result. |
| Expansion.DenotesClosure | src/lib/policy/eval.ts:84-167 | A search that ends returns the wildcard, the atoms and the ranges contributed by the tokens reachable from the root over members and aliases, and no others, cyclic groups included. |
| Expansion.FinishesExactly | src/lib/policy/eval.ts:100-125 | A search, nested or not, returns on some finite stack if and only if every alias chain it comes to, past the groups already visited, ends. |
| Expansion.SearchTerminates | src/lib/policy/eval.ts:100-125 | Every selector has an expansion on some finite stack if and only if no chain of host aliases is cyclic. |
| Search.ExpandToken | src/lib/policy/eval.ts:84-161 | The recursive search over a shared mutable visited set returns the specified expansion and leaves the specified groups visited. |
| Search.ExpandMembers | src/lib/policy/eval.ts:109-111 | The member loop merges into one result what searching the members in turn yields. |
| Search.Expanded.Absorb | src/lib/policy/eval.ts:163-167 | Merging adds the other's wildcard, atoms and ranges and removes nothing. |
| Search.CoversEntry | src/lib/policy/eval.ts:170-183 | The loops find a wildcard, a shared atom or an overlapping pair of ranges exactly when there is one. |
| Reachability.IpEntryAllows | src/lib/policy/eval.ts:222-255 | An `ip` entry, protocol first, admits the question exactly when its ports do and the protocols do not differ. |
| Reachability.LoneWord | src/lib/policy/eval.ts:222-231 | A lower-case word by itself is a protocol exactly when it is a known one or a name that every object inherits; any other is taken for ports. |
| Reachability.EvaluateAcls | src/lib/policy/eval.ts:283-324 | The nested loops report a match exactly when some access rule fires, and then the first rule, its first source and its first destination with ports. |
| Reachability.EvaluateGrants | src/lib/policy/eval.ts:327-389 | The same for grants, with the first admitting `ip` entry. |
| Reachability.EvaluateReachability | src/lib/policy/eval.ts:262-392 | If every search it comes to has an end: allow if and only if some access rule or grant fires; the match is the least: access rules before grants, then the lowest rule, then the first entry of each list. |
| ReachabilityLaws.CoversMeaning | src/lib/policy/eval.ts:170-183 | Two selectors cover one another exactly when one reaches the wildcard, or both reach a common atom, or both reach ranges with a common address. |
| ReachabilityLaws.WildcardMeetsNobody | src/lib/policy/eval.ts:170-172 | A wildcard covers even the empty selector, which denotes nothing. |
| ReachabilityLaws.AllowGrows | src/lib/policy/eval.ts:283-389 | With more references and more rules an allow stays an allow, wherever the evaluator answers. |
| ReachabilityLaws.InsertAclKeepsAllow | src/lib/policy/eval.ts:283-324 | Inserting an access rule anywhere never turns an allow into a deny. |
| ReachabilityLaws.InsertGrantKeepsAllow | src/lib/policy/eval.ts:327-389 | Inserting a grant anywhere never turns an allow into a deny. |
| ReachabilityLaws.AddMemberKeepsAllow | src/lib/policy/eval.ts:100-113 | Adding a member anywhere in a declared group never turns an allow into a deny. |
| ReachabilityLaws.OrderDoesNotDecide | src/lib/policy/eval.ts:283-389 | Permuting the rules within the sections never changes the answer, where both orders have one. |
| LineDiff.FillTable | src/app/(app)/access/diff-view.tsx:50-61 | The 2-D array filled backwards holds the longest-common-subsequence length of every pair of suffixes. |
| LineDiff.LcsStep | src/app/(app)/access/diff-view.tsx:56-59 | The exchange lemma: one more line in front is worth at most one and never a loss, which makes taking equal heads safe. |
| LineDiff.ScriptKeepsAtMost | src/app/(app)/access/diff-view.tsx:50-94 | No edit script of the two documents keeps more lines than the table says. |
| LineDiff.WalkTable | src/app/(app)/access/diff-view.tsx:63-82 | At every step the rows so far spell the lines passed, the tallies count them, and kept lines plus the table entry make the total. |
| LineDiff.ScriptIsOptimal | src/app/(app)/access/diff-view.tsx:63-94 | The kept lines are a longest common subsequence and no script adds and removes less. |
| LineDiff.NoChangesMeansEqual | src/app/(app)/access/diff-view.tsx:63-94 | There are no added or removed rows exactly when the line sequences are equal. |
| LineDiff.LinesDetermine | src/app/(app)/access/diff-view.tsx:45-46 | Two documents have the same lines exactly when they are the same text, the empty document included. |
| LineDiff.DiffLines | src/app/(app)/access/diff-view.tsx:40-95 | The rows spell both documents with their line numbers, the tallies are the line counts less the kept lines, no script makes fewer changes, ties remove first, and no change means equal documents. |
| Allocation.RunPass | src/components/charts/timeline-scale.ts:318-333 | One pass in place: free shares get their part of the pool, those below the floor are pinned at it, and the flag says whether any was. |
| Allocation.PassPins | src/components/charts/timeline-scale.ts:318-333 | A pass that pins a share leaves one free, so the passes never run out before settling. |
| Allocation.PassSinks | src/components/charts/timeline-scale.ts:318-333 | Pinning only lowers the level, so a pinned share never deserved more than the floor. |
| Allocation.Allocate | src/components/charts/timeline-scale.ts:306-335 | The shares sum to the total for any weights; if it covers the floors every share meets its floor and is the larger of the floor and one level times its weight; otherwise all are equal. |
| Allocation.WaterIsUnique | src/components/charts/timeline-scale.ts:306-335 | The water-filling property determines the shares: two fillings to the same total agree. |
| AxisBuilder.Quantile | src/components/charts/timeline-scale.ts:110-118 | The interpolated quantile lies between two values of the sample. |
| AxisBuilder.QuantileAtRank | src/components/charts/timeline-scale.ts:110-118 | At a whole rank it is the value of that rank in the sorted sample. |
| AxisBuilder.FindCrowding | src/components/charts/timeline-scale.ts:166-178 | The scan finds crowding exactly when two neighbouring data points would land closer than the minimum on a linear axis. |
| AxisBuilder.MarksSpanDomain | src/components/charts/timeline-scale.ts:180-184 | The marks begin at one end of the domain, end at the other, and hold every clamped significant time. |
| AxisBuilder.GroupMarks | src/components/charts/timeline-scale.ts:198-209 | The groups are the marks in order, cut at every outlying gap and nowhere else. |
| AxisLayout.SpreadGaps | src/components/charts/timeline-scale.ts:236-245 | Breaks share the spare width in proportion to the time they skip, on top of their minimum, and spend it exactly. |
| AxisLayout.ShareWidth | src/components/charts/timeline-scale.ts:229-250 | Both branches fill the axis exactly; which one is taken, and every width in it, is determined. |
| AxisLayout.LayOut | src/components/charts/timeline-scale.ts:252-260 | Pieces are laid side by side with span and break widths in turn. |
| AxisLayout.SegmentedTimeScale | src/components/charts/timeline-scale.ts:130-268 | The axis is broken exactly when it is crowded, has outlying gaps and room for them; then its segments tile domain and range, each break is an outlying gap, every significant time lies in a span, and widths are elastic. With positive minimum widths it is sound. |
| AxisLayout.DefaultsAreSensible | src/components/charts/timeline-scale.ts:100-107 | The default widths are positive and the default margin is not negative, which is what soundness asks for. |
| TimeScale.PositionIncreases | src/components/charts/timeline-scale.ts:274-298 | On a tiled axis with spans winning ties, a later time is placed strictly further along. |
| TimeScale.PositionInRange | src/components/charts/timeline-scale.ts:274-298 | No time of the domain is placed outside the range. |
| TimeScale.AtIncreases | src/components/charts/timeline-scale.ts:153-164 | Broken or linear, `at` is strictly increasing on the domain, stays in the range, and clamps what lies outside. |
| Labels.AnchoredLabelsStayInside | src/components/charts/timeline-scale.ts:398-403 | Labels anchored inwards stay in the frame from every position if and only if they are no wider than two thirds of it. |
| Labels.FindSlot | src/components/charts/timeline-scale.ts:405-420 | The unbounded search stops by slot `2 * rowsAbove`, at the first slot that fits. |
| Labels.PlaceLabels | src/components/charts/timeline-scale.ts:369-429 | For any widths and gap each label takes the first slot that the last labels of its rows leave free, and the row counts are exactly the rows used; when no width and no gap is negative, labels sharing a row are apart by the gap. |
| Ticks.ThinTicks | src/components/charts/timeline.tsx:261-268 | Kept ticks are candidates, in order, at least three units apart, and every dropped one clashes with a kept one of equal or higher priority. |
| Edits.ApplyAllAt | src/lib/policy/model.ts:343-357 | After a row of in-place writes each key holds its own result and no other member has changed. |
| Edits.Unchanged | src/lib/policy/model.ts:343-357 | A row of writes leaves an object exactly as it was if and only if each leaves its own key as it was. |
| Edits.OthersKept | src/lib/policy/model.ts:359-364 | Members the writes do not name keep their values and relative order. |
| Edits.Draft.Emit | src/lib/policy/model.ts:343-357 | A section is assigned in place when it has content or was there, and dropped otherwise. |
| Edits.Draft.EmitApp | src/lib/policy/model.ts:299-306 | A non-empty `app` is assigned; otherwise it is deleted only where it was an object. |
| PolicyWriter.BuildNamedRecord | src/lib/policy/model.ts:256-263 | The loop builds the record of the named rows, skipping nameless ones. |
| PolicyWriter.SerializeAcl | src/lib/policy/model.ts:276-282 | The copied rule object carries exactly the specified writes. |
| PolicyWriter.SerializeNodeAttr | src/lib/policy/model.ts:312-319 | The same for `nodeAttrs` entries. |
| PolicyWriter.SerializeGrant | src/lib/policy/model.ts:324-335 | The same for grants. |
| PolicyWriter.SerializeApprovers | src/lib/policy/model.ts:379-384 | `autoApprovers` is a copy of its raw form with the two known shapes written over it. |
| PolicyWriter.SerializePolicy | src/lib/policy/model.ts:365-393 | The copied root carries exactly the eight section writes. |
| PolicyRoundTrip.LastRowWins | src/lib/policy/model.ts:256-263 | A name given twice keeps the values of its last row. |
| PolicyRoundTrip.NamedReadBack | src/lib/policy/model.ts:147-153 | Rows read back from their record if and only if their names are distinct and not blank. |
| PolicyRoundTrip.AclWriteBack | src/lib/policy/model.ts:163-171 | An access rule comes back as it was if and only if it has a non-empty action and string lists. |
| PolicyRoundTrip.GrantWriteBack | src/lib/policy/model.ts:194-204 | A grant comes back as it was if and only if its required lists are there, its optional ones are string lists, and `app` is not an empty object. |
| PolicyRoundTrip.WriteBackIsIdentity | src/lib/policy/model.ts:220-393 | Parsing any root and writing the model back gives the same tree in the same key order if and only if the root is well formed. |
| PolicyLaws.WrittenIsWellFormed | src/lib/policy/model.ts:365-393 | Whatever the model and the root, the written document is well formed. |
| PolicyLaws.BareStringBecomesList | src/lib/policy/model.ts:365-399 | A group that holds a bare string comes back with a list, so that document is not kept. |
| PolicyLaws.SecondRoundTripChangesNothing | src/lib/policy/model.ts:365-393 | Of trees: what was written, parsed again as that tree, is written the same. |
| PolicyLaws.EditsReadBack | src/lib/policy/model.ts:365-393 | Of trees: the model parsed from what was written is the model if and only if names are distinct and not blank, actions not empty and no `app` empty. |
| Printing.StripPrinted | src/lib/policy/hujson.ts:21-57 | Stripping the print of a tree yields the print of the tree whose keys and strings lost the commas that look trailing in print. |
| Printing.PrintSurvivesStrip | src/lib/policy/hujson.ts:21-57 | The print of a tree passes through stripping unchanged if and only if no key and no string of it holds a trailing comma in print. |
| PrintingLaws.PrintedUnique | src/lib/policy/model.ts:365-393 | Printing loses nothing: two trees are printed alike only if they are the same tree. |
| PolicyText.ReaderExists | src/lib/policy/hujson.ts:60-62 | What is assumed of `JSON.parse`, that it reads a print as its tree, can be met for all trees at once. |
| PolicyText.RewritingText | src/lib/policy/model.ts:396-399 | Reading a written text and writing it again prints the tree that the comma pass leaves, which is the same text if and only if no key and no string holds a trailing comma in print. |
| PolicyText.SecondRoundTripExactly | src/lib/policy/model.ts:396-399 | For every text, blank and unreadable ones included: a second round trip leaves the text unchanged if and only if the first wrote no key and no string that holds a trailing comma in print. |
| PolicyText.EachRoundTripEats | src/lib/policy/model.ts:396-399 | A document that loses a comma of a string to each of two round trips. |
| PolicyEdits.EditsReadBackExactly | src/lib/policy/model.ts:220-393 | For every model and root: the written text is read back as the model if and only if the model is editable and no string of it holds a trailing comma in print. |
| PolicyEdits.EditableYetEaten | src/lib/policy/model.ts:220-393 | A group member that has its place in the document and is not read back from its text. |
| PolicyLaws.UntouchedSectionsKept | src/lib/policy/model.ts:1-13 | A section of a well-formed document that was not edited comes back identical, whatever was done to the others. |
| PolicyLaws.RestOfDocumentKept | src/lib/policy/model.ts:359-369 | Unknown top-level keys keep value and order; existing keys keep their places and new sections go last. |
| PolicyLaws.RestOfApproversKept | src/lib/policy/model.ts:379-390 | The same inside `autoApprovers`. |
| PolicyLaws.RestOfRulesKept | src/lib/policy/model.ts:275-335 | The unknown members of every kind of rule keep value and order. |
| Hujson.ScanComments | src/lib/policy/hujson.ts:21-54 | The index loop computes the specified scan, unterminated strings and comments included. |
| Hujson.ScanTwice | src/lib/policy/hujson.ts:21-54 | A second scan of any text changes nothing. |
| Hujson.ScanErasesComments | src/lib/policy/hujson.ts:21-54 | Of any row of characters, strings and comments the scan erases the comments, leaving a line feed for a line comment, and copies strings character for character. |
| Hujson.EveryTextIsPieces | src/lib/policy/hujson.ts:21-54 | Every text whatsoever is spelled by such a row, so the scan theorem covers every input. |
| Hujson.CommasOutsideStrings | src/lib/policy/hujson.ts:55-56 | The comma pass drops exactly the trailing commas between tokens if and only if no string holds a comma, white space and a closer. |
| Hujson.StripHujson | src/lib/policy/hujson.ts:21-57 | The comment loop and the comma pass remove comments and trailing commas and nothing else if and only if no string holds a trailing comma of its own. |
| Hujson.StripIsTidy | src/lib/policy/hujson.ts:16-57 | On any text, stripping removes comments and trailing commas and nothing else if and only if no string holds a trailing comma of its own. |
| Hujson.StripEatsIntoStrings | src/lib/policy/hujson.ts:55-56 | A string that the scan keeps whole and the comma pass shortens. |
| Revisions.NormalizeNote | src/lib/db/policy-revision-types.ts:81-85 | A note is kept exactly when it is not blank, and then is a non-empty prefix of its trimmed text of at most 120 characters. |
| Revisions.AtMostOneLive | src/lib/db/policy-revision-types.ts:44-50 | Whatever the control plane serves, at most one row is live. |
| Revisions.InsertSound | src/lib/db/schema.ts:433 | An insert that the unique index lets through keeps ids and digests unique and digests right. |
| Revisions.RemoveSound | src/lib/db/policy-revisions.ts:148-152 | So does a deletion. |
| Revisions.RevisionStore.RememberRevision | src/lib/db/policy-revisions.ts:90-121 | Afterwards exactly one row holds the document; it is new exactly when there was none, and carries the given stamp. |
| Revisions.RevisionStore.MarkDeployed | src/lib/db/policy-revisions.ts:124-129 | Only the stamp of the named row changes. |
| Revisions.RevisionStore.UpdateNote | src/lib/db/policy-revisions.ts:138-145 | Only the note of the named row changes; false exactly when there is none. |
| Revisions.RevisionStore.DeleteRevision | src/lib/db/policy-revisions.ts:148-152 | Only the named row goes; false exactly when there is none. |
| RevisionActions.SaveRevision | src/app/(app)/access/history-actions.ts:46-79 | A blank document is refused; any other is held by exactly one row, reported as stored already exactly when nothing changed. |
| RevisionActions.DeployRevision | src/app/(app)/access/history-actions.ts:89-118 | A missing row or a refused push changes nothing; an accepted one makes the row's document live, stamps it, and leaves it the only live row. |
| RevisionActions.RenameRevision | src/app/(app)/access/history-actions.ts:121-141 | Only the note of the named row changes. |
| RevisionActions.RemoveRevision | src/app/(app)/access/history-actions.ts:151-170 | Only the named row goes, even the live one, and the control plane is left alone. |
| RevisionActions.SavePolicy | src/app/(app)/access/actions.ts:37-78 | A refused push changes nothing; an accepted one makes the document live, stored once, stamped, and the only live row. |
| RevisionActions.CaptureBaseline | src/app/(app)/access/page.tsx:115-128 | After the page is shown with a policy set, exactly one row is live. |
| RevisionActions.RememberingKeepsRows | src/lib/db/policy-revisions.ts:99-105 | Remembering keeps every stored row with its document, author and first note. |
| RevisionActions.RememberingTwice | src/lib/db/policy-revisions.ts:84-88 | Remembering a document again changes nothing. |
| RevisionRuns.StepKeepsInv | src/app/(app)/access/history-actions.ts:46-170 | Every statement of every action, in any interleaving, and every change made outside, keeps the invariant and forgets no row. |
| RevisionLaws.EveryRunIsSound | src/lib/db/schema.ts:424-433 | In every run ids and digests are unique, digests match, a stamp means the document was pushed, and a deleted id never comes back. |
| RevisionLaws.StoredForGood | src/lib/db/policy-revisions.ts:99-105 | Through every run a stored revision keeps document, author and date, and its note unless a rename wrote it. |
| RevisionLaws.EveryPushAccounted | src/app/(app)/access/actions.ts:47-63 | When all actions have ended every pushed document is stored with its stamp, or since its latest push had a row deleted or the insert of a push refused. |
| RevisionLaws.RemembersExactly | src/app/(app)/access/actions.ts:47-63 | At the last write of an action that pushed: the document is then stored with its stamp if and only if no row of it stands unstamped in the way of the insert, or the row to stamp is still there or another holds a stamp. |
| RevisionLaws.EveryPushRememberedExactly | src/app/(app)/access/actions.ts:47-63 | Over any run, every successful push is remembered if and only if none of those last writes is forestalled. |
| RevisionLaws.StampedIsOnlyLive | src/app/(app)/access/history-actions.ts:93-106 | The step that stamps a push, with nothing pushed since, leaves exactly that row live if and only if that row has not been deleted. |
| RevisionLaws.InsertedIsOnlyLive | src/lib/db/policy-revisions.ts:107-120 | The insert that records a push, with nothing pushed since, leaves exactly one row live, even when it is refused. |
| RevisionLaws.ClashesExactly | src/lib/db/policy-revisions.ts:97-118 | The insert is refused if and only if the document has been stored by then. |
| RevisionLaws.HistoryIsTruthful | src/app/(app)/access/actions.ts:55-63 | With one action at a time and nothing deleted, the stamped documents are exactly the pushed ones. |
| RevisionLaws.RaceLeavesPushUnstamped | src/app/(app)/access/actions.ts:55-63 | Two actions on one document: a run that ends with a pushed document stored without its stamp. |
| Series.ChooseBucketMs | src/components/charts/series.ts:67-77 | The least width that keeps the points within the target and exceeds the typical gap, else the widest; the narrowest for a degenerate request. |
| Series.BucketByTime | src/components/charts/series.ts:118-146 | An even grid from the bucket of the earliest time to that of the latest, unless capped; each cell holds the last item observed in its interval, and nothing exactly when there is none. |
| Series.GridFitsTarget | src/components/charts/series.ts:67-77 | A width that suited the span needs at most one cell more than the target, so for modest targets the cap drops nothing. |
| Series.PointsWithinTarget | src/components/charts/series.ts:67-77 | For any width, the cells of the grid are within the target if and only if the span, measured from the edge of its first cell, is less than target times width. |
| Series.OnePointTooMany | src/components/charts/series.ts:67-77 | A width that suits its span and needs one cell more than the target. |
| Series.FallbackMissesTarget | src/components/charts/series.ts:67-77 | Of spans too long for every width: the widest is used and the target is missed by as many cells as there are days too many, up to the cap. |
| Series.EveryItemHasCell | src/components/charts/series.ts:126-143 | Unless capped, every timed item falls in a cell of the grid. |
| Series.SteadySeriesHasNoHole | src/components/charts/series.ts:50-66 | A series in which each observation is followed by another within one width has no empty cell: a hole means that sampling lapsed. |
| Series.RunsOfPresent | src/components/charts/series.ts:156-172 | The runs returned are all the maximal stretches of present values and nothing else, in order and apart. |

## Left out

- Reachability.EvaluateReachability: says nothing where a search it comes to has no end; there the code recurses until the stack overflows (`Expansion.FinishesExactly`). Searches it never comes to may be as they like.
- Tokens.PortMatches: bounds are read as `Number` reads them, but kept as exact values rather than as doubles.
- Reachability.IpEntryAllows: lower-cases the letters A to Z only, as do user atoms.
- Hujson.StripHujson: the comma pass stands for the regular expression it runs, and is a function.
- PolicyText.SecondRoundTripExactly: assumes of `JSON.parse` that it reads the print of a tree as that tree, and that no object of the tree it makes of the first text repeats a name.
- PolicyEdits.EditsReadBackExactly: assumes the same of `JSON.parse`, and that no object inside the model or the root repeats a name, as none in JavaScript does.
- AxisLayout.SegmentedTimeScale: domain and range bounds are finite, and an unbroken axis does not list its single span.
- Series.BucketByTime: times and widths are whole milliseconds.
- RevisionLaws.EveryPushAccounted: a process that dies between the push and the insert is not a step of the model.
- Evaluator notes: only the decision and the match are modelled.
- `JSON.parse`: a parameter of the text results; numbers are kept as the text JavaScript prints for them. Object keys that look like integers, and `__proto__`, are outside the model because JavaScript orders or treats them differently; so are unpaired surrogates, because strings are sequences of characters rather than of UTF-16 units.
- Floating-point rounding: coordinates are real numbers.
- SHA-256: digests are any function of the document; where two documents must be told apart it is assumed injective.
- SQL: the table is a sequence of rows, and each statement is one atomic step.
- Authorization, audit entries and page revalidation around the actions; the clock, whose readings are parameters.
- `medianGap`, `timeTicks` and the date formatters; `groupEvents` and the choice of tick candidates.
- `coercePort` and the comparison of two verdicts, the advisory linter, the REST client and the user interface.
