# duckfs and view-wire: a verified model

This project models two parts of the repository and proves what they promise.

**duckfs** (`crates/duckfs`) is a replicated, content-addressed file system. Objects (chunks, files,
trees, snapshots) live in a store under the hash of their kind and bytes. A small `Refs` value names
the head snapshot, a window of recent ones, pins, staged chunks, watches and the root of a retention
catalog. Verbs change the refs of the block being built. The model covers:

- the verbs and their transactions, caps and quotas, over whole runs (`Verbs`, `VerbLaws`, `Runs`,
  `Quotas`, `FileSystems`);
- the commit engine: planning, availability and conflict checks, replay and build (`Commits`,
  `CommitRules`, `CommitLaws`, `Planners`), over the lazy copy-on-write tree edit (`TreeEdits`), and
  projections (`Projections`);
- the retention catalog, as a plain map and as the tree it is stored in (`Retention`, `Catalogs`,
  `CatalogReach`, `CatalogRuns`);
- mark, sweep and the walk for missing objects (`Reachability`, `Marking`, `Collecting`, `Sweeping`,
  `Collectors`), and heal rounds between peers (`Healing`, `Base64`);
- saving, adoption, sweeping and crashes (`Durability`, `Committing`);
- all of these together: every history of a node, and every life of one that crashes (`Grounding`,
  `Histories`, `Readings`, `Lifetimes`);
- the queries: paged find, resumable grep, tree diff, ranged reads (`Finding`, `Grepping`,
  `TreeDiffs`, `Chunks`, with `Paths`, `Trees`, `Order`);
- the codecs of objects, actors and the refs image (`Grammars`, `Layouts`, `Sorting`, `Objects`,
  `Actors`, `Records`, `RefsImage`, `RefsLength`, `ImageBytes`, `Unicode`, `Readers`, `Decoders`).

**view-wire** (`crates/view-wire`) carries a widget tree from an untrusted guest to its host. The
model covers the keyed tree diff and the replay of its patches (`Nodes`, `Patches`, `Diffing`,
`Differs`, `DiffReplay`, `DiffEconomy`, `Hosts`), the sanitizer (`Sanitizing`, `SanitizerLaws`,
`SanitizerKeeps`, `SanitizerCounts`, `Sanitizers`), and the editor: lines and cursors, patch batches
and changed spans, document transfers, presentation ranges (`EditorLines`, `EditorPatches`, `Transfers`,
`Presentations`).

What the code computes in expressions and recursion is a function; what it does step by step is a
class or a method with loops, proved equal to that function. The laws are lemmas about the functions.

Strings are sequences of bytes. The hash is a parameter: 32 bytes wide, and without collisions among
the objects at hand where that is said (`CollisionFree`). Splitting paths into segments, Unicode
grapheme boundaries and the pulling of a node's sizes and colours into range are parameters too.
Integer widths are written out.

To check everything: `dafny verify dfyconfig.toml`.

## Findings

What the code or a comment beside it suggests, and what is so instead: the lemma with a concrete
input, and the one with the exact condition.

| what does not hold | input | when it does |
|---|---|---|
| "exactly one gc runs per period" (`crates/duckfs/disk/src/commit.rs:15-24`): a crash between a sweep and the save of its watermark sweeps the same period again | `Durability.CrashAfterSweepRepeatsIt` | `Durability.SweepIsDueExactly`: a sweep is attempted exactly if its period is past the first and no attempt in that period has had its watermark saved |
| A commit is decided from agreed state alone (`crates/duckfs/core/src/fs.rs:1413-1426`, `1768-1773`): an inline chunk that a node's store holds unreferenced is not staged, so a change that names it is refused there and accepted elsewhere | `CommitLaws.OrphanSplitsNodes` | `CommitLaws.VerdictIsExact`: what one node accepts another accepts exactly if its store holds none of the named chunks besides those staged or in the block |
| Every committed file can be healed to a peer: a symlink with an empty target gets a file object of size 0 with one chunk, which the shape rule refuses on arrival (`fs.rs:1368-1409`, `objects.rs:344-365`) | `CommitLaws.EmptyLinkIsAccepted` | `CommitLaws.FetchedIffLinked`: all file objects of an accepted commit pass the rule exactly if every symlink in it has a target |
| "at most one patch per node it keeps" (`crates/view-wire/src/patch.rs:64-65`): a child that moves and changes takes two | `DiffEconomy.MorePatchesThanNodes` | `DiffEconomy.AtMostOnePatchPerNode`: exactly if, on the two trees, no more children are gone or out of order than nodes keep their own fields |
| The staging quota bounds what an authority can stage (`crates/duckfs/core/src/fs.rs:522-540`): the quota is per owner, so one that fills it with its account can go on with its key alone | `Quotas.RunsPastTheQuota`: a run for every such authority, under the limits a node runs with (`Quotas.ProductionFits`) as under any others | `Quotas.QuotaHoldsExactly`: over every run, exactly if the authority does not own by a key and by an account at once |
| A sanitized tree has at most the node budget (`crates/view-wire/src/lib.rs:1610-1616`): places past it get empty nodes that nothing pays for | `SanitizerCounts.StandInsAreOverBudget` | `SanitizerCounts.WithinBudgetExactly`: exactly if no more places are filled unpaid than nodes are left over or went to spans and characters; never more than one per level and one over (`SanitizerLaws.SanitizedIsBounded`) |
| Every size has a chunk count (`crates/duckfs/core/src/objects.rs:333-365`): sizes in the last chunk below 2^64 have none | `Chunks.GreatestSizeHasNoShape` | `Chunks.ShapeIsExact`: the shape rule accepts exactly one count for every other size |

A hypothesis that is needed: `Collecting.MarkIsExact` asks that no id is reached as two things. Without
it the mark can succeed and the sweep lose a reachable file (`Sweeping.ConfusedGraphLosesAFile`: a file
that names a tree's id as a chunk hides what the tree leads to). No verb makes such a graph
(`Histories.EveryHistoryHolds`, `Grounding.EntireIsUnconfused`).

## Model

| member | source | states |
|---|---|---|
| DiffReplay.DiffReplays | crates/view-wire/src/patch.rs:91-282 | For any two trees, replaying the diff of the first against the second on the first never meets a refused patch and ends exactly at the second: removals, moves, inserts, duplicate keys and arity changes included |
| DiffReplay.DiffBound | crates/view-wire/src/patch.rs:149-282 | The patch list is strictly shorter than the node counts of the two trees together |
| DiffReplay.ListReplays | crates/view-wire/src/patch.rs:201-282 | The same for one child list: its patches bring the old list to the new one |
| DiffReplay.RemovalsReplay | crates/view-wire/src/patch.rs:201-282 | The removal patches leave exactly the surviving children, in their old order |
| DiffReplay.PlacementsReplay | crates/view-wire/src/patch.rs:201-282 | The move, insert and child patches bring the survivors to the new list, whatever is already placed |
| DiffEconomy.ListEconomy | crates/view-wire/src/patch.rs:201-282 | A list diff inserts exactly the children that are new, in order; removes exactly as many as are gone; and moves none exactly if the survivors come in the order they had |
| DiffEconomy.EveryChildIsFollowed | crates/view-wire/src/patch.rs:201-282 | Followed through every patch, each place of the list ends up holding exactly the old child its new child is matched with, or a freshly inserted node: no survivor is ever removed and put in again |
| DiffEconomy.RemovedAreTheGone | crates/view-wire/src/patch.rs:223-249 | The old children the patches take out are exactly those that do not survive; none where the lists match by position |
| DiffEconomy.DiffLength | crates/view-wire/src/patch.rs:148-282 | The exact length of every diff, told by the two trees: one patch for each node of the new tree whose own fields are written, and one for each old child that is gone or met out of order |
| DiffEconomy.ShiftsAreDisturbed | crates/view-wire/src/patch.rs:201-282 | The removals and moves of a diff are as many as the old children that are gone and the survivors met out of order, counted on the two trees without diffing them |
| DiffEconomy.AtMostOnePatchPerNode | crates/view-wire/src/patch.rs:64-69 | A diff has at most one patch per node of the new tree exactly if, on the two trees, no more children are gone or out of order than nodes keep their own fields |
| DiffEconomy.NoPatchMeansEqual | crates/view-wire/src/patch.rs:162-199 | Only equal trees need no patch |
| DiffEconomy.MorePatchesThanNodes | crates/view-wire/src/patch.rs:64-69 | A concrete pair whose diff has more patches than the new tree has nodes, against the comment beside MAX_PATCHES (when it does is AtMostOnePatchPerNode) |
| Diffing.MatchIs | crates/view-wire/src/patch.rs:219-254 | A child survives exactly if its key is the only one of its name on both sides, and then the child it is matched with carries that key |
| Diffing.MatchExactly | crates/view-wire/src/patch.rs:219-249 | A new child is matched with an old one exactly if both carry the same key and no other child on either side does |
| Diffing.PositionalExactly | crates/view-wire/src/patch.rs:201-212 | Two lists are matched place by place exactly if they are as long and hold the same key, or keyless nodes of one kind, at every place |
| Diffing.SurvivorIsMatched | crates/view-wire/src/patch.rs:219-254 | Every survivor is the match of exactly one new child |
| Patches.ReplayConcat | crates/view-wire/src/patch.rs:81-89 | Replaying two lists one after the other is replaying them as one |
| Patches.ReplayUnder | crates/view-wire/src/patch.rs:91-147 | Patches addressed below a child change that child alone, as they would change it as a root |
| Patches.RefusedExactly | crates/view-wire/src/patch.rs:91-147 | An edit is refused exactly if it is of a list where there is none, past the end of the list, or of fields of another arity where children sit in fixed places |
| Patches.EditIsExact | crates/view-wire/src/patch.rs:91-147 | An accepted edit puts in, takes out or moves the one child it names; all others keep their order and the rest of the node stays |
| Patches.PatchIsLocal | crates/view-wire/src/patch.rs:91-147 | A patch edits the node at its path or finds none; nodes off the path stay, those on the way keep their own fields and number of children |
| Differs.Diff | crates/view-wire/src/patch.rs:148-160 | The differ with its path stack and growing list makes exactly the specified patches |
| Differs.Differ.Node | crates/view-wire/src/patch.rs:162-199 | One node: the patches for it are appended under the current path, and the path is restored |
| Differs.Differ.List | crates/view-wire/src/patch.rs:201-220 | One child list, positional or keyed |
| Differs.Differ.InPlace | crates/view-wire/src/patch.rs:185-198 | Children matched by position, one after another |
| Differs.Differ.Keyed | crates/view-wire/src/patch.rs:219-282 | The keyed branch as a whole: removals, then placements over what is left |
| Differs.Differ.RemoveGone | crates/view-wire/src/patch.rs:236-249 | The removal loop: patches appended for every child that does not survive, and the live vector left as the host then has it |
| Differs.Differ.Place | crates/view-wire/src/patch.rs:250-281 | The placing loop over the live vector |
| Differs.Differ.PlaceNext | crates/view-wire/src/patch.rs:250-281 | One new child: a survivor is kept, any other is inserted, and the live vector follows |
| Differs.Differ.Keep | crates/view-wire/src/patch.rs:250-281 | A survivor is moved up if it is not in its place, and edited there |
| Differs.Differ.Add | crates/view-wire/src/patch.rs:250-281 | A fresh child is inserted, and marked as no old one |
| Differs.Position | crates/view-wire/src/patch.rs:250-281 | The first place of a child among those not placed yet |
| Differs.Unique | crates/view-wire/src/patch.rs:219-235 | The keys exactly one child carries, each with its index |
| Hosts.Host.Replay | crates/view-wire/src/patch.rs:81-89 | A frame over the patch cap changes nothing; any other leaves the tree and the verdict of replaying its patches in order |
| Hosts.Host.Apply | crates/view-wire/src/patch.rs:71-89 | A frame that applies leaves the sanitized result; one that does not leaves the tree part-way |
| Hosts.Host.Follow | crates/view-wire/src/patch.rs:71-89 | The diff of a guest tree within the bounds brings the host to exactly that tree, sanitizer included |
| Hosts.Host.Endure | crates/view-wire/src/patch.rs:71-89 | After any frame that applies, the host tree has distinct keys, bounded depth and text, every other field in its bounds, and a bounded node count |
| Finding.Find | crates/duckfs/core/src/queries.rs:314-390 | One page of the plain walk by the rules of PageIsExact, with the limit brought between 1 and 256; None only at an unreadable object |
| Finding.PageIsExact | crates/duckfs/core/src/queries.rs:314-390 | A page holds the first so many wanted paths, and its cursor is the last of them exactly if there are more |
| Finding.WantedExactly | crates/duckfs/core/src/queries.rs:314-390 | A path is wanted exactly if an entry is there, a file where only files are asked for, and it starts with the prefix and comes after the cursor in segment order |
| Finding.Finder.WalkDir | crates/duckfs/core/src/queries.rs:352-390 | The pruned walk continues a page with everything wanted below a directory |
| Finding.PrunedHoldsNothing | crates/duckfs/core/src/queries.rs:352-390 | A directory either prune skips holds nothing wanted |
| Finding.ResumeContinues | crates/duckfs/core/src/queries.rs:314-390 | Resuming at the cursor of a page continues exactly behind its last path |
| Finding.PagingIsComplete | crates/duckfs/core/src/queries.rs:314-390 | Following cursors yields every wanted path exactly once, in the order of the plain walk, in full pages but for the last |
| Paths.CursorPruneLosesNothing | crates/duckfs/core/src/queries.rs:791-830 | A subtree the cursor test prunes lies at or before the cursor, in the order of segments |
| Trees.WalkOrder | crates/duckfs/core/src/queries.rs:352-390 | The plain walk lists paths in strictly ascending segment order |
| Trees.WalkIsComplete | crates/duckfs/core/src/queries.rs:352-390 | The plain walk holds exactly the entries there are, each under the path its names make |
| Order.BelowIsByteOrder | crates/duckfs/core/src/objects.rs:178-191 | Names are ordered as their bytes: a proper front first, else the smaller first differing byte |
| Grepping.GrepCall | crates/duckfs/core/src/queries.rs:416-491 | One call ends in exactly the state of scanning its candidate files in order (what its hits are: HitsAreExact) |
| Grepping.Grep.ScanFile | crates/duckfs/core/src/queries.rs:533-586 | One candidate: stopped before, passed over, or scanned whole, by the limit, the byte budget and the reply ceiling |
| Grepping.Grep.TakeLines | crates/duckfs/core/src/queries.rs:561-582 | The loop over the lines of one file takes those that hold the pattern as far as the reply has room |
| Grepping.LinesAreExact | crates/duckfs/core/src/queries.rs:561-563 | The lines of a file are its bytes between the newlines |
| Grepping.MatchingIs | crates/duckfs/core/src/queries.rs:561-582 | The line numbers found count from one, ascend, and are exactly those of the lines that hold the pattern |
| Grepping.Grep.WalkDir | crates/duckfs/core/src/queries.rs:493-531 | The recursive walk scans the candidates below a directory in order, and stops where one stops |
| Grepping.ScanStops | crates/duckfs/core/src/queries.rs:493-586 | A call that stops early stops in front of a candidate with the last one passed as its cursor; the bytes scanned are the bytes the budget lost |
| Grepping.FreshCallAdvances | crates/duckfs/core/src/queries.rs:533-586 | A fresh call gets past at least its first candidate |
| Grepping.StopsExactly | crates/duckfs/core/src/queries.rs:533-560 | A call stops exactly in front of the first candidate at which the limit is reached or which fits the whole budget but not what is left of it |
| Grepping.GrepResumes | crates/duckfs/core/src/queries.rs:416-586 | A stopped call has a cursor strictly after the incoming one, and resuming picks up at the file it stopped in front of |
| Grepping.GrepIsComplete | crates/duckfs/core/src/queries.rs:416-586 | Following cursors gets past every candidate exactly once, in order, no call scanning more than its budget |
| Grepping.HitsAreExact | crates/duckfs/core/src/queries.rs:533-586 | A call answers with all hits of the candidates it gets past and can scan, file by file and line by line, cut only at 4096 |
| Grepping.GrepReportsAll | crates/duckfs/core/src/queries.rs:416-586 | Calls that stay under that ceiling, followed to the end, report together every hit of every candidate that can be scanned, in order |
| Grepping.EachLineOnce | crates/duckfs/core/src/queries.rs:416-586 | Those hits are exactly the lines that hold the pattern, each once |
| TreeDiffs.Diff | crates/duckfs/core/src/queries.rs:613-775 | The pruned, prefixed, capped walk answers exactly the shown changes of the full comparison, and answers at all on a healthy pair exactly if they fit the cap |
| TreeDiffs.Differ.EmitSide | crates/duckfs/core/src/queries.rs:720-735 | An entry on one side only is emitted with everything below it |
| TreeDiffs.Differ.EmitChildren | crates/duckfs/core/src/queries.rs:737-756 | Every entry of a directory on one side only |
| TreeDiffs.Differ.WalkDirs | crates/duckfs/core/src/queries.rs:665-718 | Two directories are merged in name order, shared entries skipped |
| TreeDiffs.Differ.Pair | crates/duckfs/core/src/queries.rs:665-718 | One name, on at least one side |
| TreeDiffs.Differ.Flip | crates/duckfs/core/src/queries.rs:665-718 | A leaf that changed or a kind that flipped |
| TreeDiffs.Differ.Push | crates/duckfs/core/src/queries.rs:758-775 | A change under the prefix is recorded; the one past the cap refuses the reply |
| TreeDiffs.DiffIsExact | crates/duckfs/core/src/queries.rs:665-775 | A path under the prefix is in the reply as added, removed or modified exactly if its two entries call for it |
| TreeDiffs.ExpectedExactly | crates/duckfs/core/src/queries.rs:665-718 | A path counts as added where only the second tree has an entry, removed where only the first has, modified where both have one, not both directories, that differ in kind, object, executable bit or size |
| TreeDiffs.DiffInPathOrder | crates/duckfs/core/src/queries.rs:665-775 | The reply is in strict path order, so no path appears twice |
| TreeDiffs.CompareMeans | crates/duckfs/core/src/queries.rs:665-775 | The full comparison holds exactly the changes the two entries of each path call for, kind flips included |
| TreeDiffs.SharedHasNoChanges | crates/duckfs/core/src/queries.rs:665-700 | Subtrees of the same object id hold no change, so skipping them loses nothing |
| Chunks.ShapeIsExact | crates/duckfs/core/src/objects.rs:333-365 | The shape rule accepts exactly the one chunk count a size needs, and no count for a size in the last chunk below 2^64 |
| Chunks.GreatestSizeHasNoShape | crates/duckfs/core/src/objects.rs:333-365 | A file of the greatest u64 size has no chunk count the shape rule accepts |
| Chunks.LengthIsExact | crates/duckfs/core/src/objects.rs:291-331 | Under that shape the length rule accepts exactly one length per index |
| Chunks.CutIs | crates/duckfs/core/src/fs.rs:1688-1714 | Cutting makes the chunks the size needs, each the bytes of its place |
| Chunks.CutPassesTheRules | crates/duckfs/core/src/fs.rs:1688-1714 | What is cut passes the shape rule, and the length rule at every index |
| Chunks.ReadRange | crates/duckfs/core/src/queries.rs:897-939 | A read is exactly the clipped range, byte by byte, and fails exactly if a chunk in the range is not intact |
| Chunks.Fetch | crates/duckfs/core/src/queries.rs:902-939 | One chunk is used only if it is there, is a chunk and has the length its index calls for |
| Chunks.WrittenReadsBack | crates/duckfs/core/src/queries.rs:897-939 | Every byte of a written file is the byte read at its place |
| Chunks.WriteThenRead | crates/duckfs/core/src/queries.rs:897-939 | Reading any range of what was written returns exactly that slice |
| Reachability.ReachedIsLeast | crates/duckfs/core/src/gc.rs:22-43 | The reachable set holds the roots, is closed under what objects lead to, and is part of every such set |
| Reachability.SoundExactly | crates/duckfs/core/src/gc.rs:146-371 | What each role demands: chunks only presence, files, trees and snapshots that they decode, catalog directories no symlink, records one snapshot and no chunks |
| Reachability.ChildrenExactly | crates/duckfs/core/src/gc.rs:146-371 | What each object leads to: a file to its chunks, a tree to its entries, a snapshot to its root, the catalog to its directories, records and the snapshots they keep |
| Marking.VisitSees | crates/duckfs/core/src/gc.rs:198-371 | An ordinary visit that ends has seen its node and everything it leads to, except what it recorded as absent |
| Marking.CatalogSees | crates/duckfs/core/src/gc.rs:146-196 | The same for the catalog stack loop, with its own set of ids looked at |
| Collecting.MarkIsExact | crates/duckfs/core/src/gc.rs:44-77 | Where no id is reached as two things: a mark that succeeds returns exactly the reachable ids and everything reachable is sound; and in a catalog within its depth it succeeds if everything reachable is sound |
| Collecting.MissingIsExact | crates/duckfs/core/src/gc.rs:79-144 | The twin walk finds exactly the reachable ids that are absent, and fails only on corruption or depth |
| Sweeping.NothingMissingIffMarked | crates/duckfs/core/src/gc.rs:44-144 | On every store, confused or not: nothing is missing exactly if the mark succeeds |
| Sweeping.StrictTwin | crates/duckfs/core/src/gc.rs:198-371 | The walk that records what is absent and the one that fails on it go through the same objects as long as nothing is absent |
| Sweeping.SweepKeepsTheMark | crates/duckfs/core/src/fs.rs:1146-1158 | A mark right after a sweep finds the same live set, so a second sweep removes nothing |
| Sweeping.ConfusedGraphLosesAFile | crates/duckfs/core/src/gc.rs:307-354 | A concrete graph in which a file names the id of a tree as a chunk: the mark succeeds and the sweep takes a reachable file |
| Collectors.Walker.Visit | crates/duckfs/core/src/gc.rs:198-371 | The walker with its visited and missing sets does what the specified visit does |
| Collectors.Walker.VisitAll | crates/duckfs/core/src/gc.rs:198-371 | Children one after another, with the sets carried along |
| Collectors.Walker.Enter | crates/duckfs/core/src/gc.rs:146-196 | One catalog node met for the first time: recorded if absent, a fault if not what it should be, a record handed to the ordinary walk, a directory opened |
| Collectors.Walker.WalkCatalog | crates/duckfs/core/src/gc.rs:146-196 | The explicit stack loop does what the specified catalog walk does |
| Collectors.Walker.WalkRoots | crates/duckfs/core/src/gc.rs:44-144 | All roots in order, then the catalog |
| Collectors.MarkLive | crates/duckfs/core/src/gc.rs:44-77 | The imperative mark is the specified one |
| Collectors.FindMissing | crates/duckfs/core/src/gc.rs:91-144 | The imperative missing walk is the specified one |
| Collectors.Collector.Gc | crates/duckfs/core/src/fs.rs:1146-1158 | A sweep keeps exactly the reachable objects, counts what it removed and leaves the mark as it was; a failed mark removes nothing |
| Healing.ServeIsHonest | crates/duckfs/core/src/fs.rs:991-1058 | A reply answers in request order, only with what the server holds, and answers something if it holds any of it |
| Healing.ServeStaysInBudget | crates/duckfs/core/src/fs.rs:1001-1056 | The objects of a reply, 112 bytes each and four characters for every three bytes begun, stay within 1 572 864 bytes unless there is only one |
| Healing.ServeIsGenerous | crates/duckfs/core/src/fs.rs:1001-1056 | An object that is held and asked for is left out only if something was served and the budget has no room for it behind what went before |
| Base64.TextIsCanonical | crates/duckfs/core/src/fs.rs:1027-1032 | A text reads as some bytes exactly if it is what they are written as in base64, padding and unused bits included |
| Base64.LengthIs | crates/duckfs/core/src/fs.rs:1027-1032 | Base64 takes four characters for every three bytes begun |
| Healing.ServeSync | crates/duckfs/core/src/fs.rs:991-1058 | Too many ids or one that is not hex refuses the request; any other gets the specified reply, each body measured by its base64 text |
| Healing.IngestIsSafe | crates/duckfs/core/src/fs.rs:1111-1133 | Exactly the objects that hash to the id asked for and, if files, have the right shape are taken in; the store stays keyed by hash and nothing in it changes |
| Healing.ReachedIsPart | crates/duckfs/core/src/gc.rs:79-144 | What a node reaches is part of what a complete peer reaches, and none of it is corrupt |
| Healing.MissingIsThePeers | crates/duckfs/core/src/fs.rs:1081-1099 | What is missing is known exactly, and all of it is the peer to give |
| Healing.WantedAreMissing | crates/duckfs/core/src/fs.rs:1081-1099 | A request asks for as many of the missing ids as it may, each once and in order |
| Healing.NoGapIffNothingMissing | crates/duckfs/core/src/fs.rs:1081-1099 | Nothing is missing exactly once every object the refs need is here, exactly if the mark succeeds |
| Healing.RoundLands | crates/duckfs/core/src/fs.rs:985-1133 | Each round that asks for anything lands an object: the gap strictly shrinks and nothing is lost |
| Healing.Healer.IngestObject | crates/duckfs/core/src/fs.rs:1111-1133 | Verify, then store |
| Healing.Healer.TakeInAll | crates/duckfs/core/src/fs.rs:1121-1133 | A reply taken in object by object |
| Healing.Healer.Heal | crates/duckfs/core/src/fs.rs:1081-1133 | Rounds against a complete peer end after at most as many as objects were missing, and then the mark succeeds |
| Grammars.UintLawful | crates/duckfs/core/src/codec.rs:62-76 | Little-endian integers of any width read back and are canonical |
| Grammars.BytesLawful | crates/duckfs/core/src/codec.rs:92-106 | Length-prefixed bytes read back and are canonical; a length past the end is a truncation |
| Grammars.FlagLawful | crates/duckfs/core/src/codec.rs:82-90 | Only the bytes 0 and 1 are booleans |
| Grammars.StrLawful | crates/duckfs/core/src/codec.rs:108-111 | Strings are length-prefixed UTF-8 |
| Grammars.MaybeLawful | crates/duckfs/core/src/state.rs:92-101 | An optional value is a flag, and the value only where the flag is set |
| Grammars.CountedLawful | crates/duckfs/core/src/state.rs:201-208 | A capped count and that many values read back and are canonical |
| Grammars.WholeIsCanonical | crates/duckfs/core/src/codec.rs:113-120 | A frame decodes to a value exactly if it is the encoding of that value, with nothing left over |
| Sorting.EntriesOfCollect | crates/duckfs/core/src/state.rs:214-228 | A list with strictly ascending keys is the listing of the map it makes |
| Sorting.CollectOfEntries | crates/duckfs/core/src/state.rs:110-117 | The listing of a map ascends strictly and makes that map again |
| Layouts.SortedMapLawful | crates/duckfs/core/src/state.rs:210-228 | A capped map in strictly ascending key order reads back and is canonical |
| Layouts.SortedSetLawful | crates/duckfs/core/src/state.rs:256-271 | The same for a set |
| Actors.FrameLawful | crates/duckfs/core/src/actor.rs:29-74 | Actors read back and are canonical: account zero, empty keys, empty modules and unknown tags are refused |
| Objects.BodiesAreCanonical | crates/duckfs/core/src/objects.rs:75-289 | A file, tree or snapshot body decodes to an object exactly if the object is within its caps and the body is its encoding |
| Objects.FileIsWritten | crates/duckfs/core/src/objects.rs:76-89 | The file encoder, field by field, writes the layout |
| Objects.TreeIsWritten | crates/duckfs/core/src/objects.rs:178-191 | The tree encoder writes the layout, names ascending |
| RefsImage.ImageIsCanonical | crates/duckfs/core/src/state.rs:89-289 | A refs image decodes to a value exactly if the value fits its caps, the image fits the byte cap and the image is the encoding of the value |
| RefsImage.OneImageEach | crates/duckfs/core/src/state.rs:14-20 | No two images mean the same refs, and no two fitting refs share an image |
| RefsLength.LengthIsExact | crates/duckfs/core/src/state.rs:146-184 | The arithmetic length is the length of the encoding, for every value the types allow |
| ImageBytes.RefsAreWritten | crates/duckfs/core/src/state.rs:75-144 | The refs image byte by byte: head, window, pins by name, staged chunks by digest, watches in order, revision, retention root, with their flags, counts, widths and tags |
| ImageBytes.ObjectsAreWritten | crates/duckfs/core/src/objects.rs:76-260 | The file, tree and snapshot bodies byte by byte |
| ImageBytes.ActorIs | crates/duckfs/core/src/actor.rs:29-48 | The actor frame byte by byte: its tag and its number, key or name |
| Readers.Reader.Array | crates/duckfs/core/src/codec.rs:48-60 | So many bytes, or a truncation |
| Readers.Reader.Number | crates/duckfs/core/src/codec.rs:62-76 | A little-endian integer |
| Readers.Reader.Boolean | crates/duckfs/core/src/codec.rs:82-90 | A strict boolean |
| Readers.Reader.Blob | crates/duckfs/core/src/codec.rs:92-106 | A length and that many bytes |
| Readers.Reader.String | crates/duckfs/core/src/codec.rs:108-111 | A UTF-8 string |
| Readers.Reader.ReadActor | crates/duckfs/core/src/actor.rs:48-74 | The cursor reads an actor exactly as its layout does |
| Readers.Reader.OptionalBytes32 | crates/duckfs/core/src/state.rs:210-228 | A flag, and an id where it is set |
| Readers.Reader.Ids | crates/duckfs/core/src/objects.rs:91-133 | A capped count and that many ids |
| Readers.Reader.Finish | crates/duckfs/core/src/codec.rs:115-120 | Nothing may be left over |
| Decoders.DecodeFileObj | crates/duckfs/core/src/objects.rs:91-133 | The file decoder with its cursor and loops is the layout |
| Decoders.ReadMeta | crates/duckfs/core/src/objects.rs:91-133 | The metadata loop reads exactly the ascending maps within their caps |
| Decoders.DecodeTreeObj | crates/duckfs/core/src/objects.rs:193-229 | The tree decoder is the layout |
| Decoders.ReadEntries | crates/duckfs/core/src/objects.rs:193-229 | The entry loop with its last-name check reads exactly the ascending maps |
| Decoders.ReadEntry | crates/duckfs/core/src/objects.rs:193-229 | One entry: name cap, kind tag, id, exec flag, size |
| Decoders.DecodeSnapshotObj | crates/duckfs/core/src/objects.rs:262-288 | The snapshot decoder is the layout |
| Decoders.ReadPins | crates/duckfs/core/src/state.rs:210-228 | The pins loop with its last-key check reads exactly the ascending maps |
| Decoders.ReadStaging | crates/duckfs/core/src/state.rs:230-254 | The same for staging |
| Decoders.ReadWatches | crates/duckfs/core/src/state.rs:256-271 | The same for watches |
| Decoders.DecodeImage | crates/duckfs/core/src/state.rs:186-289 | The refs decoder is the layout, byte cap first |
| Decoders.EncodeImage | crates/duckfs/core/src/state.rs:89-144 | The refs encoder is the layout |
| Records.HexIsCanonical | crates/duckfs/core/src/wire.rs:596-626 | Every id has exactly one hex form |
| Records.HexIs | crates/duckfs/core/src/wire.rs:618-626 | Two lower-case digits for each byte, the high one first |
| Verbs.TransactIsAtomic | crates/duckfs/core/src/fs.rs:336-362 | A verb is accepted exactly if its sender is valid, the revision can still rise and the verb goes through; refused, it leaves refs, objects and index as they were; accepted, it leaves the refs it makes, a revision higher exactly if they differ, and its objects in the block and the index |
| Verbs.IndexedIs | crates/duckfs/core/src/fs.rs:336-362 | The index of a block lists what it did and the kind and size of every object added, and nothing else |
| Verbs.StagingAfter | crates/duckfs/core/src/fs.rs:470-563 | After an accepted verb nothing staged has expired; nothing else went but what a commit names, and the only newcomer is the chunk put |
| Verbs.SectionsAfter | crates/duckfs/core/src/fs.rs:633-892 | Every section of the refs but staging and window, after an accepted verb, exactly: what it was, but for what the one verb that is there for it asks; watches only by the module itself or the system |
| Verbs.WindowAfter | crates/duckfs/core/src/fs.rs:1487-1500 | After an accepted commit or projection its snapshot is the last of the window, and before it is the latest part of the window before, in order, as far as the cap has room; no other verb touches the window |
| VerbLaws.PutBlobIsAccepted | crates/duckfs/core/src/fs.rs:470-563 | A chunk is taken exactly if its length is in bounds and it is there already or fits the table, its owner's shares of entries and bytes, and the image |
| VerbLaws.PutBlobAdds | crates/duckfs/core/src/fs.rs:470-563 | A new chunk adds itself to staging and to the objects, one that is there already nothing |
| VerbLaws.PinIsAccepted | crates/duckfs/core/src/fs.rs:742-811 | A pin is set exactly if its name is new and in bounds, table and share have room, the snapshot is one that is kept anyway, and the image has room |
| VerbLaws.WatchIsAccepted | crates/duckfs/core/src/fs.rs:830-892 | A watch is set exactly by the module it is for or the system, on a canonical prefix, if it is new and table and image have room; and taken back exactly if it is there |
| VerbLaws.ContainedIsKept | crates/duckfs/core/src/fs.rs:1167-1192 | A snapshot counts as there exactly if it is a root of the mark or in the catalog |
| VerbLaws.RoomIsForTheFullest | crates/duckfs/core/src/fs.rs:1571-1600 | An entry is let in exactly if the image has room for it even with a head, a retention root and a full window added |
| VerbLaws.EnginesAdd | crates/duckfs/core/src/fs.rs:633-735 | Commits, projections and exchanges add the objects their engines built, and no other verb but the chunk put adds any |
| VerbLaws.RefsReplyFits | crates/duckfs/core/src/fs.rs:1050-1063 | The refs image of every run, in base64, fits the one reply it is sent in |
| Runs.StageChunkKeeps | crates/duckfs/core/src/fs.rs:470-563 | Staging keeps every cap and share |
| Runs.CommitPlanKeeps | crates/duckfs/core/src/fs.rs:1487-1500 | A commit grows head and window only into the room reserved for them |
| Runs.AddPinKeeps | crates/duckfs/core/src/fs.rs:742-809 | Pinning keeps every cap and share |
| Runs.WatchVerbsKeep | crates/duckfs/core/src/fs.rs:830-892 | Watching and unwatching keep every cap |
| Runs.TransactKeeps | crates/duckfs/core/src/fs.rs:336-362 | One transaction keeps the invariant of all refs at hand |
| Runs.EveryRunStaysWithin | crates/duckfs/core/src/fs.rs:336-930 | Over every run of verbs and block boundaries from empty refs: image length and reserved headroom within the byte cap, all count caps, all shares per owner, owners valid |
| Runs.EveryRunDecodes | crates/duckfs/core/src/fs.rs:1570-1599 | Hence every refs value a run commits, builds or hands out has an image that decodes to it |
| Runs.ControlledShare | crates/duckfs/core/src/fs.rs:522-540 | The byte quota is per owner: an authority that has both a key and an account controls at most twice the quota, any other at most the quota |
| Quotas.RunsPastTheQuota | crates/duckfs/core/src/fs.rs:470-563 | Every authority that owns by a key and by an account, under any caps with room for both shares, has a run after which it controls more than the quota |
| Quotas.QuotaHoldsExactly | crates/duckfs/core/src/fs.rs:522-540 | What an authority has staged stays within the quota over every run exactly if it does not own by a key and by an account at once |
| Quotas.ProductionFits | crates/duckfs/core/src/wire.rs:86-121 | The limits a node runs with have that room, for any key up to 900 000 bytes |
| FileSystems.Tally | crates/duckfs/core/src/fs.rs:522-530 | The saturating tally of what an authority has staged |
| FileSystems.HasRoom | crates/duckfs/core/src/fs.rs:1571-1599 | The growth gate measures length, entry and headroom |
| FileSystems.RefsLen | crates/duckfs/core/src/state.rs:164-184 | The length by arithmetic, table by table |
| FileSystems.Fs.RequirePending | crates/duckfs/core/src/fs.rs:251-261 | Opens a block over the committed refs unless one is open |
| FileSystems.Fs.Transact | crates/duckfs/core/src/fs.rs:336-362 | Editing in place and restoring on refusal is the specified transaction |
| FileSystems.Fs.PutBlobApply | crates/duckfs/core/src/fs.rs:470-563 | The putblob verb does to the block what is specified, or only sweeps |
| FileSystems.Fs.CommitApply | crates/duckfs/core/src/fs.rs:1487-1500 | The last step of a commit: head, window, reclaimed staging and objects land together |
| FileSystems.Fs.ProjectApply | crates/duckfs/core/src/fs.rs:675-688 | A projection enters the window only |
| FileSystems.Fs.RetainApply | crates/duckfs/core/src/fs.rs:692-735 | For modules only: the catalog root and objects of a finished exchange land together, and a refused one changes nothing |
| FileSystems.Fs.PinApply | crates/duckfs/core/src/fs.rs:742-809 | The pin verb and its checks |
| FileSystems.Fs.UnpinApply | crates/duckfs/core/src/fs.rs:811-826 | The unpin verb |
| FileSystems.Fs.WatchApply | crates/duckfs/core/src/fs.rs:830-867 | The watch verb and its checks |
| FileSystems.Fs.UnwatchApply | crates/duckfs/core/src/fs.rs:869-892 | The unwatch verb |
| FileSystems.Fs.CommitBlock | crates/duckfs/core/src/fs.rs:894-919 | Hands the block out without touching the committed refs |
| FileSystems.Fs.AdoptRefs | crates/duckfs/core/src/fs.rs:921-926 | The only place the committed refs move |
| FileSystems.Fs.AbortBlock | crates/duckfs/core/src/fs.rs:928-930 | Drops the block and leaves the committed refs |
| FileSystems.Fs.ApplyVerb | crates/duckfs/core/src/fs.rs:364-460 | Every verb run in place does what is specified of it |
| FileSystems.Fs.PushWindow | crates/duckfs/core/src/fs.rs:1487-1500 | The newest snapshot at the back, the oldest dropped until the window fits |
| TreeEdits.EditRefines | crates/duckfs/core/src/tree.rs:226-345 | Put, mkdir, rm and mv on the lazy overlay go through exactly if the edit is permitted on the plain map from paths to entries, and then leave exactly what the plain edit leaves, path by path |
| TreeEdits.RunRefines | crates/duckfs/core/src/tree.rs:226-345 | The same for every sequence of edits: accepted exactly if each edit is permitted where the ones before it leave the plain map |
| TreeEdits.SetIsExact | crates/duckfs/core/src/tree.rs:416-446 | Setting a node changes what is at the path and below it and nothing else, opening only the directories above |
| TreeEdits.SetSucceeds | crates/duckfs/core/src/tree.rs:416-446 | Setting a node succeeds exactly if every directory on the way is there or may be made |
| TreeEdits.FetchExactly | crates/duckfs/core/src/tree.rs:379-388 | A directory reads exactly if the object is there, is a tree, and its body is what these entries are written as |
| TreeEdits.BuildIsExact | crates/duckfs/core/src/tree.rs:360-377 | The built tree, read back from the store, holds at every path what the edited overlay showed there |
| TreeEdits.UntouchedStays | crates/duckfs/core/src/tree.rs:226-345 | A path no edit touches shows the very entry it did |
| TreeEdits.CopyOnWrite | crates/duckfs/core/src/tree.rs:226-377 | Edited and built, the tree holds what the plain edits give, and away from what they touch the very same object ids |
| TreeEdits.TreeEdit.PutEntry | crates/duckfs/core/src/tree.rs:251-260 | The in-place put is the specified edit; a refused one leaves the overlay as the code does |
| TreeEdits.TreeEdit.Place | crates/duckfs/core/src/tree.rs:416-446 | The loop down the directories, opening each or making it, and the rewriting of all of them from the innermost out, is the specified change at the path; it fails exactly where that does |
| TreeEdits.TreeEdit.MakeDir | crates/duckfs/core/src/tree.rs:262-275 | The in-place mkdir |
| TreeEdits.TreeEdit.Remove | crates/duckfs/core/src/tree.rs:277-301 | The in-place rm |
| TreeEdits.TreeEdit.Move | crates/duckfs/core/src/tree.rs:303-344 | The in-place mv |
| TreeEdits.TreeEdit.BuildDir | crates/duckfs/core/src/tree.rs:492-519 | The bottom-up build pushes exactly the specified objects, children first |
| Commits.PlanIs | crates/duckfs/core/src/fs.rs:1271-1411 | The plan is one edit per change, over pairwise different paths the sender may write (which those are: CommitRules.ClaimedExactly) |
| Commits.FileLands | crates/duckfs/core/src/fs.rs:1427-1433 | Every file of an accepted commit can be read to its end from the store it leaves |
| Commits.CommitIsExact | crates/duckfs/core/src/fs.rs:1204-1525 | The new snapshot, read back, holds at every path what the changes leave there on top of the head, keeps every untouched entry, and nothing it touches had moved since the base |
| Commits.CommitKeepsEntire | crates/duckfs/core/src/fs.rs:1204-1525 | If everything the refs reach was there and readable before an accepted commit, it is after: snapshot, tree, files and chunks |
| CommitRules.AcceptedExactly | crates/duckfs/core/src/fs.rs:1204-1525 | A commit is accepted exactly if its message and count are in bounds, base and head can be read, every change is right by itself, no two touch the same path, the inline bytes fit, the chunks listed are known, no touched path moved, each edit is permitted in turn and no directory overflows |
| CommitRules.BuildsExactly | crates/duckfs/core/src/tree.rs:492-519 | An overlay builds exactly if no directory of it holds more names than one may |
| CommitRules.StagedExactly | crates/duckfs/core/src/fs.rs:1749-1766 | An object is staged exactly if neither the commit, nor the block, nor the store has it |
| CommitRules.AvailableIs | crates/duckfs/core/src/fs.rs:1413-1433 | A chunk listed is available exactly if the staging table, else the block, else the commit itself knows a chunk of the length its place calls for |
| CommitRules.PlansExactly | crates/duckfs/core/src/fs.rs:1271-1411 | Changes make a plan exactly if each is right by itself, their paths differ and their inline bytes fit; it names every chunk of every file and lists for checking every file that came by chunks |
| CommitRules.ClaimedExactly | crates/duckfs/core/src/paths.rs:88-114 | A path is claimed exactly if it is canonical, untouched, and below /home/<label> or /shared or claimed by the system |
| CommitRules.MembersStayAtHome | crates/duckfs/core/src/paths.rs:80-114 | A commit by anyone but the system touches only paths below the homes and the shared root; everything else shows what the head showed, but for roots of those it opens, and outside of both holds the very same entries |
| CommitRules.SnapshotSays | crates/duckfs/core/src/fs.rs:1472-1485 | The new snapshot decodes to the new tree, the head it follows, the sender, the time, the height and the message |
| CommitRules.PlanNames | crates/duckfs/core/src/fs.rs:1447-1525 | A plan carries every chunk its files name, to be taken out of staging, and all it built, and ends with its snapshot |
| CommitLaws.VerdictIsExact | crates/duckfs/core/src/fs.rs:1749-1766 | A commit one node accepts, another on the same refs accepts exactly if its committed store holds none of the chunks the commit names besides those staged or in the block |
| CommitLaws.OrphanSplitsNodes | crates/duckfs/core/src/fs.rs:1749-1766 | Two nodes on the same refs, each holding all the refs reach, that decide the same commit differently: one has an unreferenced chunk in its store |
| CommitLaws.CommitIsUniform | crates/duckfs/core/src/fs.rs:1204-1525 | Nodes whose stores agree on the objects a commit asks for decide it alike, down to the objects built |
| CommitLaws.FetchedIffLinked | crates/duckfs/core/src/fs.rs:1368-1409 | Every file object an accepted commit puts passes the shape rule a peer checks it by, exactly if no symlink of it has an empty target |
| CommitLaws.EmptyLinkIsAccepted | crates/duckfs/core/src/fs.rs:1368-1409 | A symlink with an empty target is accepted, and its file object is one the shape rule refuses |
| Planners.Commit | crates/duckfs/core/src/fs.rs:1204-1525 | The imperative engine: planned, checked, replayed and built, it accepts and produces exactly what is specified |
| Planners.Planner.Stage | crates/duckfs/core/src/fs.rs:1749-1766 | Stages an object unless the store, the block or the plan has it |
| Planners.Planner.TakeInline | crates/duckfs/core/src/fs.rs:1691-1747 | Cuts inline bytes, stages chunks and file object, and plans the entry |
| Planners.Planner.StageChunks | crates/duckfs/core/src/fs.rs:1691-1714 | The chunks of inline bytes, staged in order |
| Planners.Planner.TakeFile | crates/duckfs/core/src/fs.rs:1272-1337 | A put: inline bytes within the budget, or chunks by digest with their shape |
| Planners.Planner.TakeEntry | crates/duckfs/core/src/fs.rs:1717-1739 | The file object is staged, its chunks noted, its entry planned |
| Planners.Planner.ClaimPath | crates/duckfs/core/src/fs.rs:1560-1566 | A path is claimed as specified: canonical, the sender may write it, and not touched before |
| Planners.Planner.TakeChange | crates/duckfs/core/src/fs.rs:1271-1411 | One change of each kind, with its checks in their order |
| Planners.Planner.TakeAll | crates/duckfs/core/src/fs.rs:1271-1411 | All changes, stopping at the first refused |
| Planners.Planner.CheckChunks | crates/duckfs/core/src/fs.rs:1427-1433 | Every chunk named is known at the length its place calls for |
| Planners.Planner.CheckUnmoved | crates/duckfs/core/src/fs.rs:1438-1442 | No touched path has moved between base and head |
| Planners.ReplayPlan | crates/duckfs/core/src/fs.rs:1447-1455 | The edits are replayed onto one overlay over the head |
| Projections.ProjectIsExact | crates/duckfs/core/src/fs.rs:633-690 | A projection holds its path exactly as its source does, directories above it, and nothing beside |
| Projections.ProjectIsAccepted | crates/duckfs/core/src/fs.rs:633-665 | A projection is accepted exactly if its path is canonical, its snapshot is kept and can be read, and the path is the root or has an entry there |
| Projections.ProjectionSays | crates/duckfs/core/src/fs.rs:666-675 | The projected snapshot decodes to the projected tree, the sender, the time and the height, without parent or message |
| Projections.ProjectKeepsEntire | crates/duckfs/core/src/fs.rs:633-690 | A projection of a snapshot in reach keeps everything in reach present and readable |
| Retention.PlacesAreDistinct | crates/duckfs/core/src/retention.rs:113-124 | Two different module and key pairs never share a place |
| Retention.CountsAreExact | crates/duckfs/core/src/retention.rs:165-184 | The stored count of a snapshot is the number of references that name it, so membership means that one does |
| Retention.ExchangeIsExact | crates/duckfs/core/src/retention.rs:234-319 | An accepted exchange sets exactly the reference asked for, keeps counts and references in step and advances the revision; neither underflow nor a wrong edge can occur |
| Retention.ExchangeIsAccepted | crates/duckfs/core/src/retention.rs:234-319 | An exchange is accepted exactly if name and references are right, the expected reference is the current one, a replacement gains a revision, and the newly named snapshot's count has room |
| Retention.Exchange | crates/duckfs/core/src/retention.rs:234-319 | The edit in place is the specified exchange, refusals included |
| Retention.EveryRunBalances | crates/duckfs/core/src/retention.rs:234-319 | Counts and references stay in step over every sequence of exchanges |
| Retention.MembershipMeansReferred | crates/duckfs/core/src/retention.rs:178-184 | After any sequence, a snapshot is a member exactly if some reference names it |
| Retention.OthersUntouched | crates/duckfs/core/src/retention.rs:265-277 | An exchange leaves every other key and module alone |
| Retention.RevisionOnlyRises | crates/duckfs/core/src/retention.rs:259-264 | As long as a key keeps a reference its revision only rises |
| Catalogs.RecordReads | crates/duckfs/core/src/retention.rs:36-90 | What is written for a record decodes to that record |
| Catalogs.NumberIsCanonical | crates/duckfs/core/src/retention.rs:84-95 | A text reads as a number exactly if it is that number in decimal, not zero and a u64: no sign, no leading zero |
| Catalogs.RecordsAgree | crates/duckfs/core/src/gc.rs:146-196 | The reachability walk and the catalog read the same snapshot from a record |
| Catalogs.PutShows | crates/duckfs/core/src/retention.rs:186-209 | Putting a record in the stored tree leaves exactly the catalog with that record |
| Catalogs.PathIs | crates/duckfs/core/src/retention.rs:113-128 | A record sits below references or snapshots, in a directory for each byte of its id, named by the byte in hex |
| Catalogs.RemoveShows | crates/duckfs/core/src/retention.rs:211-229 | Removing a record, pruning emptied directories, leaves exactly the rest of the catalog |
| Catalogs.ExchangeRefines | crates/duckfs/core/src/retention.rs:234-319 | An exchange on the stored tree leaves a stored tree of exactly the flat catalog after the same exchange |
| CatalogRuns.ExchangeAccepts | crates/duckfs/core/src/retention.rs:234-319 | The stored tree accepts an exchange exactly if the flat catalog does: directory caps are never what refuses one |
| CatalogRuns.CatalogBuilds | crates/duckfs/core/src/retention.rs:113-128 | No directory of a catalog ever holds more names than a directory may |
| CatalogRuns.EveryRunRepresents | crates/duckfs/core/src/retention.rs:234-319 | After every sequence of exchanges, refused ones included, the stored tree is the flat catalog of that sequence |
| CatalogReach.CatalogIsShallow | crates/duckfs/core/src/gc.rs:146-196 | A stored catalog never exceeds the depth at which the catalog walk gives up |
| CatalogReach.ReadIsReached | crates/duckfs/core/src/gc.rs:146-196 | The snapshot of any record read from the catalog is in reach of the refs |
| CatalogReach.NewCatalogEntire | crates/duckfs/core/src/retention.rs:234-319 | Refs moved to a new catalog of records in reach still reach only what is there and readable |
| Durability.CrashSafety | crates/duckfs/disk/src/commit.rs:26-107 | At every point of every run, crashes and failed writes included: the saved refs reach only durable objects, and the refs in memory are saved ones, the current ones but between save and adoption |
| Durability.StepIsSafe | crates/duckfs/disk/src/commit.rs:26-107 | Every single step keeps that |
| Durability.OneRecordedSweepPerPeriod | crates/duckfs/disk/src/commit.rs:15-24 | A sweep whose watermark was saved is followed by no other in its period |
| Durability.SweepIsDueExactly | crates/duckfs/disk/src/commit.rs:15-107 | In every run, another sweep is attempted exactly if the height has reached a period after the first and no attempt of that period has had its watermark saved |
| Durability.DueExactly | crates/duckfs/disk/src/commit.rs:15-24 | A sweep is due exactly if a multiple of 1024 lies above the watermark and not above the height |
| Durability.EveryWatermarkIsRecorded | crates/duckfs/disk/src/commit.rs:15-107 | In every run the watermark is zero or that of an attempt whose watermark was saved |
| Durability.CrashAfterSweepRepeatsIt | crates/duckfs/disk/src/commit.rs:15-24 | A concrete run with two sweeps in one period, a crash between the first and its watermark (when that can happen is SweepIsDueExactly) |
| Durability.OnlyTheNeededMatter | crates/duckfs/disk/src/commit.rs:59-61 | Which objects there are beyond the reachable ones makes no difference to what the refs reach |
| Grounding.RootsAre | crates/duckfs/core/src/gc.rs:44-77 | The roots of the mark are exactly the head, the window, the pins, the staged chunks and the retention root, the last both as a tree and as the catalog |
| Committing.Committer.PersistObjects | crates/duckfs/disk/src/commit.rs:37-50 | Every object is put and the directories synced before anything is saved, or the block is given up with nothing saved |
| Committing.Committer.SweepAll | crates/duckfs/core/src/fs.rs:1146-1158 | Removes what the mark left over one object at a time, up to the first removal that fails |
| Committing.Committer.CommitRefs | crates/duckfs/disk/src/commit.rs:65-107 | Save, adopt, sweep if due: it fails only where a save fails, and a sweep fault costs nothing but disk |
| Grounding.EntireIsUnconfused | crates/duckfs/core/src/gc.rs:44-77 | Where all that is reached is there and right, no id is reached as two things, because ids hash the kind |
| Grounding.EveryRangeReads | crates/duckfs/core/src/queries.rs:902-939 | Of a file that is there and readable, every chunk that a read of any range touches is intact |
| Histories.PutChunkKeeps | crates/duckfs/core/src/fs.rs:470-563 | Staging a chunk keeps all that is reached there and readable |
| Histories.CommitKeeps | crates/duckfs/core/src/fs.rs:1204-1525 | So does a commit |
| Histories.ProjectKeeps | crates/duckfs/core/src/fs.rs:633-690 | So does a projection |
| Histories.RetainKeeps | crates/duckfs/core/src/fs.rs:692-735 | So does an exchange of references |
| Histories.QuietVerbKeeps | crates/duckfs/core/src/fs.rs:742-892 | So do pins and watches |
| Histories.SweepHolds | crates/duckfs/core/src/fs.rs:1146-1158 | So does a sweep |
| Histories.VerbKeeps | crates/duckfs/core/src/fs.rs:336-930 | Every verb with its engine leaves refs that reach only what is there and readable, and a catalog |
| Histories.HistoryKeeps | crates/duckfs/core/src/fs.rs:336-930 | So does every history of verbs, blocks adopted or dropped, and sweeps, from any node where it holds |
| Histories.EveryHistoryHolds | crates/duckfs/core/src/fs.rs:336-930 | From an empty node, at every point of every history: the block and the committed refs reach only what is there and readable, and the mark succeeds and finds exactly what is reached |
| Histories.MarkIffSound | crates/duckfs/core/src/gc.rs:44-144 | For refs with a stored catalog: the mark succeeds exactly if everything reached is sound, and the missing walk succeeds exactly if nothing is corrupt |
| Histories.SettledMarks | crates/duckfs/core/src/gc.rs:44-77 | Such a mark is exactly the reached ids |
| Readings.EverySnapshotReads | crates/duckfs/core/src/queries.rs:902-939 | After every history, sweeps included: every path of every snapshot the committed refs still reach resolves, and every file found can be read over every range |
| Readings.SnapshotReads | crates/duckfs/core/src/queries.rs:902-939 | The same of any refs that reach only what is there: no path of a reached snapshot is broken, and its files read |
| Lifetimes.BlockIsSettled | crates/duckfs/disk/src/commit.rs:37-61 | A block the verbs built over the standing store meets what saving it asks for |
| Lifetimes.CrashSafetyOfVerbs | crates/duckfs/disk/src/commit.rs:26-107 | Whatever verbs build the blocks and wherever the node crashes: the saved refs reach only durable objects, each there and readable, and the refs in memory are ones that were saved |
| EditorLines.LinesAreExact | crates/view-wire/src/editor.rs:19-39 | Splitting into lines loses nothing and splits no terminator: no line holds a terminator byte, every terminator is one of the four, two one-byte terminators in a row are the same byte, and weaving them back gives the text |
| EditorLines.SplittingIsUnique | crates/view-wire/src/editor.rs:19-39 | No text can be taken apart that way but the one: CR LF and LF CR always count once |
| EditorLines.LineReader.Next | crates/view-wire/src/editor.rs:21-39 | The line iterator yields those lines |
| EditorLines.ClampFixesPlaced | crates/view-wire/src/editor.rs:41-67 | Each end of a cursor goes to the nearest placed position behind it: on its line or the last, at the last boundary up to its column; so exactly the placed cursors stay |
| EditorLines.ClampTo | crates/view-wire/src/editor.rs:42-57 | The clamping loops compute the specified position |
| EditorLines.LastBoundary | crates/view-wire/src/editor.rs:42-57 | The last place at or before a limit where a line can be cut |
| EditorPatches.NativeExactly | crates/view-wire/src/editor_document.rs:60-68 | Selectable are the grapheme and character boundaries that are not between a carriage return and a line feed, in either order |
| EditorPatches.PatchedEditorText | crates/view-wire/src/editor_transaction.rs:29-79 | A batch is accepted exactly if it is ordered, disjoint, on boundaries, within the limits and its cursor can stand in the result; the result is the patches applied last to first, and its length what was kept plus what was put in |
| EditorPatches.ScanIsExact | crates/view-wire/src/editor_transaction.rs:40-60 | The scan passes exactly the ordered, selectable batches within the insertion limit |
| EditorPatches.ScanAll | crates/view-wire/src/editor_transaction.rs:40-60 | The scanning loop |
| EditorPatches.Rebuild | crates/view-wire/src/editor_transaction.rs:65-72 | Building front to back gives what applying last to first gives |
| EditorPatches.ChangedSpan | crates/view-wire/src/editor_document.rs:70-120 | The one patch starts as late and leaves as much of the end as both texts and their boundaries allow |
| EditorPatches.BackToStart | crates/view-wire/src/editor_document.rs:83-95 | The start is the last place up to which both texts agree and both can be cut |
| EditorPatches.BackToSuffix | crates/view-wire/src/editor_document.rs:96-114 | The end kept is the longest both texts share behind the start and can both be cut before |
| EditorPatches.CommonPrefix | crates/view-wire/src/editor_document.rs:83-92 | The block-skipping loops find the whole common prefix |
| EditorPatches.CommonSuffix | crates/view-wire/src/editor_document.rs:96-109 | And the whole common suffix within the limit |
| EditorPatches.SpanPatchesBack | crates/view-wire/src/editor_document.rs:70-120 | The span between two documents patches the first into the second |
| EditorPatches.PatchAcross | crates/view-wire/src/editor_transaction.rs:29-79 | For every pair within the limits and every cursor that can stand in the second, patching with the computed span returns the second |
| Transfers.FrameCount | crates/view-wire/src/editor_document.rs:321-373 | A document takes one frame per chunk and two more |
| Transfers.OpenedExactly | crates/view-wire/src/editor_document.rs:134-147 | A transfer opens exactly on a reference in bounds under an id of the same document and reset |
| Transfers.TextFitsExactly | crates/view-wire/src/editor_document.rs:149-160 | A text fits a reference exactly if the reference is in bounds, the length is its own and its cursor can stand in the text |
| Transfers.Sender.NextFrame | crates/view-wire/src/editor_document.rs:321-373 | The sender sends those frames in order while its source is unchanged, an abort once it is another, an error where it breaks its promise |
| Transfers.ReceiverIsGuarded | crates/view-wire/src/editor_document.rs:458-474 | A foreign frame changes nothing, an error on its own ends the receiver with an empty buffer |
| Transfers.YieldsOnlyWhatWasSent | crates/view-wire/src/editor_document.rs:458-510 | A receiver yields a text only if the frames meant for it were exactly the frames of that text |
| Transfers.YieldsAtMostOnce | crates/view-wire/src/editor_document.rs:458-510 | It yields at most once |
| Transfers.YieldsExactly | crates/view-wire/src/editor_document.rs:458-510 | Among any frames whatever, it yields a text exactly if the frames meant for it are the frames of that text and the text is what the reference promises |
| Transfers.FramesYieldTheText | crates/view-wire/src/editor_document.rs:301-510 | The frames of a sender make the receiver yield the source text |
| Transfers.ChunkAssembler.PushChunk | crates/view-wire/src/editor_document.rs:397-408 | A chunk is taken in turn and at its length only |
| Transfers.Receiver.TakeFrame | crates/view-wire/src/editor_document.rs:458-510 | The receiver in place is the specified one |
| Transfers.Receiver.TakeCurrent | crates/view-wire/src/editor_document.rs:458-510 | A frame for the document at hand, taken in place |
| Presentations.ValidateRanges | crates/view-wire/src/editor_presentation.rs:330-380 | One merged scan accepts exactly if each stream on its own is ordered, apart and on character boundaries of lines there are, and counts the lines of the document where asked |
| Presentations.NotPassed | crates/view-wire/src/editor_presentation.rs:343-372 | A range in its place is never on a line the scan has left |
| Presentations.ValidExactly | crates/view-wire/src/editor_presentation.rs:330-380 | A stream is valid exactly if its ranges sit on character boundaries of lines there are and each lies wholly before every later one |
| Sanitizing.FreeFrom | crates/view-wire/src/lib.rs:888-896 | The first free suffix from the remembered one on |
| Sanitizing.Cut | crates/view-wire/src/lib.rs:1670-1679 | A string over its limit keeps its bytes up to the last character boundary at or before the limit, any other all of them |
| Sanitizing.ClaimIsFresh | crates/view-wire/src/lib.rs:877-901 | A claimed key is new and taken from then on; it is the key itself unless that was taken, and else the key, a # and the first number from 2 on that makes it new |
| Sanitizing.DigitsAreDecimal | crates/view-wire/src/lib.rs:888-896 | The number is written in decimal without leading zeros |
| Sanitizing.OwnFieldsFit | crates/view-wire/src/lib.rs:922-928 | What a node keeps of its text and what is left of the budget never exceed what there was |
| SanitizerLaws.SanitizedIsBounded | crates/view-wire/src/lib.rs:700-716 | Of any tree: keys pairwise distinct, nothing below the depth limit, text within the frame budget, every other field within its bounds, and at most the node budget and one stand-in per level and one more |
| SanitizerLaws.NodeKeysAreClaimed | crates/view-wire/src/lib.rs:939-1617 | The keys of a sanitized subtree differ from each other and from all taken before |
| SanitizerLaws.NodeIsShallow | crates/view-wire/src/lib.rs:939-946 | Nothing is left below the depth limit |
| SanitizerLaws.NodeTextFits | crates/view-wire/src/lib.rs:922-928 | What a subtree keeps of its text and what is left of the budget never exceed what there was |
| SanitizerLaws.NodeIsSettled | crates/view-wire/src/lib.rs:939-1617 | Every other field of every node kept is within its bounds |
| SanitizerLaws.NodeCountFits | crates/view-wire/src/lib.rs:1581-1616 | Nodes kept and nodes left never exceed the budget by more than the stand-ins below |
| SanitizerCounts.NodeIsAccounted | crates/view-wire/src/lib.rs:939-1616 | Below any node and under any budget: nodes kept, nodes left and charges for spans and characters come to the budget plus the places filled unpaid, and the charges are the spans and characters kept |
| SanitizerCounts.WithinBudgetExactly | crates/view-wire/src/lib.rs:700-716 | A sanitized tree is within the node budget exactly if no more places were filled unpaid than nodes are left over or went to spans and characters; what it is over by is the difference |
| SanitizerLaws.WellBehavedIsUnchanged | crates/view-wire/src/lib.rs:700-707 | A tree within every bound, other fields included, passes through unchanged |
| SanitizerKeeps.StringsKeepTheirHeads | crates/view-wire/src/lib.rs:922-928 | Every string of a sanitized tree is what was sent at its place, cut in walk order: to the last character boundary that its cap and the bytes left of the frame allow, and whole where they allow it; only the content of a tracked text may lose further whole characters |
| SanitizerKeeps.OwnFieldsKeep | crates/view-wire/src/lib.rs:922-928 | What one node keeps and pays, exactly: its strings or as many spans as nodes are left, and of a tracked content as many characters as nodes are left |
| SanitizerKeeps.SanitizedMirrors | crates/view-wire/src/lib.rs:939-1617 | A sanitized tree is the tree that was sent, node for node and place for place, within bounds; while nodes of the budget are left over no child, span or place was given up |
| SanitizerKeeps.PlacesExactly | crates/view-wire/src/lib.rs:1581-1616 | Which children count: the first two of a hover, tooltip or overlay, and otherwise all; and which kinds end their list with the budget instead of keeping places |
| SanitizerCounts.StandInsAreOverBudget | crates/view-wire/src/lib.rs:1580-1616 | A frame of the right shapes that comes out of the sanitizer, under its own budgets, with two nodes more than the node budget |
| Sanitizers.Sanitizer.ClaimKey | crates/view-wire/src/lib.rs:882-901 | The suffix search is the specified claim |
| Sanitizers.Sanitizer.SanitizeFields | crates/view-wire/src/lib.rs:922-928 | Text, spans and tracked characters are charged as specified |
| Sanitizers.Sanitizer.Walk | crates/view-wire/src/lib.rs:939-1617 | The walk that spends the budgets as it goes is the specified one; no budget is ever overdrawn |
| Sanitizers.Sanitizer.WalkAll | crates/view-wire/src/lib.rs:1581-1616 | Children one after another: lists end where the budget does, other places get an empty node |
| Sanitizers.Sanitizer.SpendText | crates/view-wire/src/lib.rs:922-928 | A string keeps the head that its cap and what is left of the text budget allow, and is charged for it |
| Sanitizers.TruncateTo | crates/view-wire/src/lib.rs:1670-1679 | The loop back to a character boundary keeps exactly that head |
| Unicode.BoundariesAreBetweenCharacters | crates/view-wire/src/lib.rs:1670-1679 | A place in a text is a character boundary exactly if whole characters are before it |
| Unicode.CharsAreCounted | crates/view-wire/src/lib.rs:1218-1230 | The characters a text is charged for are as many as it encodes |
| Unicode.Utf8Exactly | crates/duckfs/core/src/codec.rs:108-110 | Bytes pass the UTF-8 check of the decoders exactly if they are the encoding of some sequence of code points |
| Sanitizers.Sanitizer.SpendTexts | crates/view-wire/src/lib.rs:922-928 | Strings in order, each taking what it can |
| Sanitizers.SanitizeTree | crates/view-wire/src/lib.rs:700-716 | The whole walk with the frame budgets is the specified one |

## Left out

- Planners.Commit: per-operation object-read budgets (`ReadBudget`, `crates/duckfs/core/src/tree.rs:30-160`): a verb the code refuses because it reads too many objects may be accepted here; everything proved of accepted verbs holds of the fewer the code accepts.
- Path normalisation (absolute, NFC, byte caps) is a parameter from texts to segments; base64 and UTF-8 decoding of inline content happens before a change reaches the model.
- Watch notifications: which watches a commit wakes is not modelled; that watches are kept and capped is.
- TreeEdits.TreeEdit.Place: the overlay is a value in a field, so the descent remembers the directories it passed and rewrites them; that a refused edit leaves directories opened on the way is not captured, as the overlay is then dropped.
- FileSystems.Fs.RetainApply: the exchange and the check that the new snapshot is contained come in finished; they are `Catalogs.Exchange`, and `Histories.RetainKeeps` runs the verb with them.
- Hosts.Host.Apply: the refusal of a tree that would lose an editor document and the report of cut text are left out; nodes are values, so detaching and attaching children in place is not captured.
- Collecting.MarkIsExact: that the mark succeeds asks for a catalog within its depth and ids reached as one thing each; `Histories.MarkIffSound` and `Histories.EveryHistoryHolds` show that stored catalogs and verbs provide both.
- Histories.EveryHistoryHolds: of numbers below 2^64, UTF-8 texts, and objects without hash collisions.
- CommitLaws.VerdictIsExact: said of nodes whose refs have a catalog and reach only what is there, as `Histories.EveryHistoryHolds` shows of every history.
- Healing.Healer.Heal: a peer that holds everything and answers; partial peers, retries, timeouts, the lane that verifies chunks in passing and `possession_complete` are left out, as is bit rot of stored objects.
- Runs.EveryRunDecodes: of refs that runs make; an image installed from elsewhere is only known to decode.
- Retention.ExchangeIsExact: error messages are collapsed to kinds, here and in all other modules.
- Durability.CrashSafety: the file system underneath is three sets of objects (seen, durable, loose) and a save that happens or does not; fsync of single files and partial writes are left out.
- Committing.Committer.CommitRefs: the once-per-run warning about a sweep fault is left out.
- RefsImage.ImageIsCanonical: `encode_block_objects` and its decoder are a simpler image of the same kind and are left out; so is the outer bincode or JSON of messages.
- Grepping.GrepIsComplete: how a line is cut for display and matched inside lossy UTF-8 is a parameter.
- Finding.PagingIsComplete, history, list and stat queries: only find is paged over a walk; the others are single look-ups and would add easy members.
- TreeDiffs.DiffIsExact: entry names hold no slash, as the path rules give.
- Nodes: a node's sizes, colours, flags and styling are one opaque value with what bounding makes of it; the frame budgets for pictures, QR codes, canvas parts and surface values, keyed-column keys, flex items, rich-text links and fonts are left out.
- Sanitizers.SanitizeTree: the refusal of a tree whose editor document would be dropped, and the report of what was cut, are left out.
- Hosts.Host.Follow: asks for a guest tree within bounds and a diff within the patch cap, as the host does; larger diffs are sent as whole trees, which is the guest's choice.
- Patches: child indices are unbounded; the 32-bit index on the wire would need a list of 2^32 children to differ.
- Fields: floats are opaque, so NaN (which is unequal to itself, and makes a diff patch a node that has not changed) is left out.
- EditorPatches.PatchedEditorText: grapheme boundaries are a parameter that always includes both ends of a text.
- Transfers.YieldsExactly: the validation of the messages that open and close an editor document is left out.
- Presentations.ValidateRanges: the styles a range carries are left out.
