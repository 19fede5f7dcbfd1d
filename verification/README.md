# A model of the TypeScript rules generator

The repository generates Bazel rules for TypeScript. Its hardest code keeps a fast, incremental form of
something that a slow, simple form defines: counted supplies for recomputed ones, a patched listing for a
fresh one, memoised owners for a scan, hand-written readers for regular expressions. This project models
those pairs and proves that they agree, and models the closures, the worker pool and the scanners beside
them. Labels, rules, compiler output and file contents are plain values; a fatal error or an error return
is a result.

| file | models |
|---|---|
| `Graphs.dfy`, `Sets.dfy`, `Wrappers.dfy` | reachability, closures and optional values that the other files share |
| `Supply.dfy` | what a consumer's dependencies supply: the direct pass, scope claims, the walk past them, the verdict on a dropped one |
| `FixedSupply.dfy` | the counted supply: reference counts, reverse index, rollback, the blocked flag |
| `Minimize.dfy` | the minimization loop, which switches between counting and recomputing, and what its result promises |
| `Listing.dfy`, `ListingPatch.dfy` | a compiler listing as the least set closed under a resolver, and its patch in place |
| `Ownership.dfy`, `OutputIndex.dfy`, `ProgramStore.dfy` | which rule outputs a file: the ancestor scan, the package index, the versions, epochs and memos over it |
| `Deletion.dfy` | when the scan outlives the deletion of a rule that declared nothing, which no memo notices |
| `Emission.dfy` | the three-valued walk over a graph that may be cyclic, and the completion loop that rewires it |
| `Prefetch.dfy` | the listing prefetch as a transition system over its mutex, condition, run-once and reader/writer steps |
| `RequiredLiterals.dfy` | the literal prefilter of explain-files reasons, patterns, and what patterns match |
| `Comments.dfy`, `Scanner.dfy` | the JavaScript, JSX and template scanner, and the facts it records from tokens and comments |
| `TraceLines.dfy` | the resolution-trace matchers against the expressions they replace |
| `Manifest.dfy`, `ManifestPointers.dfy` | the package.json transducer, the recursive copy it comes to, and its pointers |
| `Targets.dfy` | star captures, and package targets rewritten onto runtime modules |
| `Tsconfig.dfy` | flattening a tsconfig's extends |
| `ProtoGraph.dfy` | the protobuf owner closure and the external observations |
| `Staging.dfy` | the one-parent scan over sorted runfiles entries |

## Where the code does not keep the simple promise

Each of these has a concrete input in the model, beside the exact condition under which the promise holds,
or, for the order guard, a sufficient one.

- A patched listing keeps an outside file that only a removed import listed: the patch takes every listed
  outside file for one that compiler options bring in (`gazelle/listing_patch.go:247-252`).
  It is fresh exactly when the entries still reach each of those files over the patched rows
  (`ListingPatch.PatchedIsFresh`); `ListingPatch.StaleOutsideFile` is the input.
- Deleting a stored rule that declares no outputs moves no generation, so a memoised "no producer" outlives
  it when the package's list still holds a rule of that name with files or a tree
  (`gazelle/emission.go:100-107`): `Deletions.DeletedRuleResurfaces`. The scan's producers stay what they were
  exactly when something scanned before the key's first listed place already answers for each file that rule
  brings back (`Deletions.DeletionKeepsFiles`), and its enclosing trees exactly when a tree of the same root is
  found before that rule's (`Deletions.DeletionKeepsTrees`); `Deletions.ShadowedRuleStaysHidden` is an input
  where both hold. A memo is kept through quiet stores as well, and they too change no tree exactly when that
  earlier tree is a stored rule's own (`Deletions.DeletionKeepsTreesOn`): a tree that is only listed shadows no
  longer once a quiet store takes its rule's place (`Deletions.LooseShadowIsLost`). All this is a fact about the
  store alone: it needs two different rules of one name, and neither of the calls of `deleteRule`
  (`gazelle/generate.go:431`, `gazelle/emission.go:542`) is shown to make them. The second moves the list epoch
  right after.
- A dependency that completing a program drops, after the walk required it, keeps its `emit`
  (`gazelle/emission.go:517-536`). Emit is reachability over the full graph: each rule's first dependencies
  and, for a completed program, what it asked about and was left with. It is reachability in the final graph
  exactly when no rule that takes emit was reached through a lost edge of a rule still reached, and is itself
  reached no more: `Emission.EmitTracksFinal`, `Emission.MarksTrackFinal`, and the input
  `Emission.DroppedKeepsEmission`.
- Without the order guard, two orders of the same dependencies give two verdicts: `Supply.GuardNeeded`. The loop
  may then also keep more than it must, as an early claim that kept one candidate is dropped after it:
  `Minimize.UnguardedNotMinimal` ends with two dependencies of which one alone supplies all the rest. The guard,
  which decides whether the loop may count at all (`gazelle/resolve.go:1103-1113`), is sufficient for minimality
  (`Minimize.MinimizedCoversMinimally`); it is not shown to be necessary for every consumer that fails it.
- An identity copy of a package.json is refused when its browser map repeats a key, and only then:
  `Manifest.IdentityReadsBack`, and `Manifest.RepeatedBrowserKeyFails` for such a map.
- Inside JSX at a negative depth, nothing can close an expression, so it takes the rest of the source, and an
  element that succeeds there holds no JavaScript at all (`gazelle/incremental/signature.go:367-375`):
  `Scanners.Scanner.JsxExpression`, `Scanners.Scanner.JsxElement`, and `Scanners.ExpressionBeforeText` for one
  text at every depth.

A predicate whose body reads `var x := ...; x` is meant to be proved and passed on whole. One stated of every
value equal to its argument, under a trigger predicate that is always true, is unfolded only where that
predicate is asserted.

## Model

| member | source | states |
|---|---|---|
| Supply.QuietPass | gazelle/resolve.go:892-973 | a pass that can ask no owner for the first time changes no mode and reads the ones it found |
| Supply.PassSupplies | gazelle/resolve.go:892-973 | whatever modes a pass reads as it asks, it supplies exactly the targets they give, and outside claimable scopes exactly the files they give, in any order |
| Supply.WalkDepsSettled | gazelle/resolve.go:928-970 | a walk inside a region of owners already asked, closed under their compiler dependencies, promotes and completes nothing |
| Supply.PassVerdict | gazelle/resolve.go:1129-1153 | under the guard and from any start, the recomputed pass finds a dropped dependency unsupplied exactly when the retained ones do not cover it, in the modes of every later run |
| Supply.PassSettles | gazelle/resolve.go:898-970 | a pass asks about every owner it reads, and changes no mode already asked for |
| Supply.PromotionSettles | gazelle/emission.go:459-476 | when a question only sets emit on managed owners it reaches, and on its own key at once, no mode changes again once its owner was asked |
| Supply.OrderChangesNoVerdict | gazelle/resolve.go:1103-1113 | under the guard and from any start, two orders of the same dependencies give every dropped one the same verdict, whatever each order promotes first |
| Supply.GuardNeeded | gazelle/resolve.go:1103-1113 | without the guard there are dependencies one order of which supplies a third and the other does not |
| FixedSupplies.RestrictedSupplies | gazelle/resolve.go:1299-1322 | each dependency's supply, filtered to the files and targets some requirement reads and the scopes it can claim |
| FixedSupplies.AddSet | gazelle/resolve.go:1323-1342 | counting a set of files in or out changes exactly their counts and reports exactly those that fall to zero |
| FixedSupplies.AddAll | gazelle/resolve.go:1323-1342 | counting a list of targets, repeats included, changes each count by its multiplicity and reports those that fall to zero |
| FixedSupplies.TalliedCovers | gazelle/resolve.go:1242-1262 | a count covers one dependency's own share, and exceeds it exactly when another retained one shares the item |
| FixedSupplies.FixedSupply.CountsAnswer | gazelle/resolve.go:1363-1404 | a positive count says that some retained dependency supplies the file or target, for everything a requirement reads |
| FixedSupplies.FixedSupply.constructor | gazelle/resolve.go:1269-1297 | counts and index over the retained dependencies, with blocked set exactly when a dropped one is already unsupplied |
| FixedSupplies.FixedSupply.Add | gazelle/resolve.go:1323-1342 | adding or removing one dependency's supply keeps the counts those of the retained set |
| FixedSupplies.FixedSupply.WalksWithout | gazelle/resolve.go:1343-1361 | true exactly when the direct pass without the candidate leaves a demanded scope unclaimed |
| FixedSupplies.FixedSupply.AddToIndex | gazelle/resolve.go:1367-1377 | the reverse index then lists the dropped dependency under every file and target it reads, and keeps every other entry |
| FixedSupplies.FixedSupply.IsUnsupplied | gazelle/resolve.go:1378-1404 | the counted verdict is the verdict over the retained dependencies' whole supply |
| FixedSupplies.FixedSupply.Strands | gazelle/resolve.go:1405-1429 | whether leaving the candidate out strands any dropped dependency, found from the lost files and targets alone |
| FixedSupplies.FixedSupply.Drop | gazelle/resolve.go:1405-1429 | drops the candidate exactly when the rest covers every dropped dependency; a kept one is rolled back, and blocked stays right |
| Minimize.DependencyMemo.IsWalkSettled | gazelle/resolve.go:1194-1221 | true exactly when every owner the scope walk reaches was already asked, remembered once it holds |
| Minimize.QuietStep | gazelle/resolve.go:1126-1154 | a step that asks nothing new drops the candidate exactly when the rest covers, and changes no mode |
| Minimize.StepDrops | gazelle/resolve.go:1126-1154 | under the guard, a recomputing step from any start drops the candidate exactly when the rest covers in the modes its pass reads |
| Minimize.MinimizeDependencies | gazelle/resolve.go:1096-1155 | the loop that counts where it can keeps exactly the set, and ends in exactly the modes, of the loop that recomputes the whole supply for every candidate |
| Minimize.MinimizedCoversMinimally | gazelle/resolve.go:1119-1154 | from any start, in the modes the loop ends in, the retained dependencies alone supply every dropped one, so dropped ones never support each other, and no proper subset does |
| Minimize.MinimizedSupplies | gazelle/resolve.go:1119-1154 | without the guard too and from any start, the pass over the final result supplies everything dropped |
| Minimize.UnguardedNotMinimal | gazelle/resolve.go:1096-1155 | without the guard, the loop over one consumer ends in two dependencies though the pass over one of them supplies everything else |
| ListingPatch.RemoveSpecs | gazelle/listing_patch.go:140-150 | removed imports take exactly their rows with them; it refuses exactly when a removed import's text is kept in another mode |
| ListingPatch.CopyImport | gazelle/listing_patch.go:167-191 | an added import gets exactly the rows its resolution writes, copied from a precedent, always if what it resolves to is listed |
| ListingPatch.AddSpecs | gazelle/listing_patch.go:151-193 | whatever precedent is chosen, a source's rows become those of its specs now; it succeeds if each added import has a precedent and listed resolution, and only if each has a precedent |
| ListingPatch.Reachable | gazelle/listing_patch.go:232-265 | the least set that holds the starts and is closed under the edges |
| ListingPatch.CachedListing.Changed | gazelle/listing_patch.go:106-125 | only listed sources whose edit left everything but imports alone are patched |
| ListingPatch.CachedListing.PatchRows | gazelle/listing_patch.go:138-194 | in whatever order sources and precedents come, every source's rows are those of the edited tree, and no other row changes |
| ListingPatch.CachedListing.PatchListing | gazelle/listing_patch.go:97-216 | a patch leaves faithful rows and exactly the files its starts reach; a refusal leaves the listing; a current listing is always patched for an edit of imports that keeps their modes and adds only imports with precedents and listed resolutions; without import-only outside files it stays current |
| ListingPatch.PatchedIsFresh | gazelle/listing_patch.go:195-216 | the patched files are a fresh listing's exactly when the entries reach every outside file of the old listing over the patched rows; the edges leaving them are the fresh ones regardless |
| ListingPatch.PatchedIsCurrent | gazelle/listing_patch.go:247-252 | when outside files stand by option only, a patched listing is a fresh listing of the edited tree |
| ListingPatch.StaleOutsideFile | gazelle/listing_patch.go:247-252 | an outside file that only a removed import listed stays |
| Ownership.LongestTreeWins | gazelle/resolve.go:1886-1930 | the scan returns the first of the longest trees around the file, nearest package and first rule winning |
| Ownership.KnownIsScanned | gazelle/resolve.go:1902-1930 | an answer read from a stored rule, or given by no rule at all, is what the scan finds |
| Deletions.KnownStays | gazelle/emission.go:117-135 | such an answer outlives every store that touches no output declaration |
| Ownership.ScanSameEffect | gazelle/config.go:111-113 | observing a package changes no answer |
| Deletions.DeletionKeepsFiles | gazelle/emission.go:100-107 | deleting a rule that declared nothing leaves every file's producer what it was exactly when, for each file the listed rule of that name brings back, something scanned before its place already answers |
| Deletions.DeletionKeepsTrees | gazelle/emission.go:100-107 | it leaves every file's enclosing tree what it was exactly when a tree with the root of the listed rule's is found before that one |
| Deletions.DeletionKeepsTreesOn | gazelle/emission.go:92-107 | it leaves them so now and after any later stores that declare nothing exactly when such a tree is a stored rule's own |
| Deletions.StandDeleted | gazelle/resolve.go:1937-1967 | trees memoised for a directory that give the scan's answers still do after such a deletion |
| ProgramStores.QuietKeepsMemo | gazelle/emission.go:92-99 | stores that touch no output declaration keep every memoised answer the scan's |
| ProgramStores.DeletionKeepsMemo | gazelle/emission.go:100-107 | so does deleting a rule that declared nothing, when what its list brings back is shadowed as above |
| Deletions.DeletedRuleResurfaces | gazelle/emission.go:100-107 | an input where a settled "no producer" becomes wrong without a generation moving |
| Deletions.ShadowedRuleStaysHidden | gazelle/emission.go:100-107 | an input whose relisted rule has a file, and comes back unseen because another rule answers for it first |
| Deletions.LooseShadowIsLost | gazelle/emission.go:92-107 | an input where an unstored rule's equal tree hides the relisted one at the deletion, and no longer after a later quiet store |
| OutputIndex.IndexAnswers | gazelle/resolve.go:1975-2029 | an up-to-date package index names the first rule of the list that outputs a file, and its trees in list order |
| OutputIndex.AddFiles | gazelle/resolve.go:1995-2029 | indexing a rule's files keeps the first rule of each file |
| OutputIndex.BuildOutputs | gazelle/resolve.go:1995-2029 | the index built from a list of stored rules is right for that list |
| ProgramStores.ProgramStore.StoreRule | gazelle/emission.go:92-99 | storing a rule changes that rule alone, and every index, registration and memo still answers rightly or is outdated |
| ProgramStores.ProgramStore.DeleteRule | gazelle/emission.go:100-107 | that rule alone goes, and the generation moves exactly when it declared outputs; every index and registration stays right or outdated, and a memo that stays fresh still answers as the scan |
| ProgramStores.ProgramStore.SetFile | gazelle/emission.go:109-115 | replacing a package's file keeps every cache right |
| ProgramStores.ProgramStore.EditLists | gazelle/emission.go:66-70 | rule lists change only across an epoch, which outdates what was read of them |
| ProgramStores.ProgramStore.ObserveBuild | gazelle/config.go:111-160 | observing stores, for the package and every one above it, exactly the first listed rule of each name nothing stored before, and changes no ownership answer |
| ProgramStores.ProgramStore.PackageOutputsAt | gazelle/resolve.go:1995-2029 | a cached index is returned only while it is right for the current rules |
| ProgramStores.ProgramStore.RefreshMemo | gazelle/manifest.go:73-93 | the memo is replaced when its stamp moved, so that it answers for the current rules |
| ProgramStores.ProgramStore.OutputProducer | gazelle/resolve.go:1861-1873 | the memoised producer of a file is what the unindexed ancestor scan finds |
| OutputIndex.IndexedIncomplete | gazelle/manifest.go:150-178 | a package index names the first rule with unreadable outputs that the scan of its list finds |
| ProgramStores.ProgramStore.IncompleteOutput | gazelle/manifest.go:150-178 | the nearest package's rule with unreadable outputs is the unindexed scan's |
| ProgramStores.ProgramStore.AncestorTreesAt | gazelle/resolve.go:1937-1967 | trees observed around a directory give the scan's answer for every file below it, now and after later quiet stores; freshly observed ones are the scan's own list, in its order; they are observed when every rule up to the root is stored and no memo from before says otherwise |
| ProgramStores.ProgramStore.TreeProducer | gazelle/resolve.go:1880-1935 | the longest enclosing output tree is the unindexed scan's, ties included |
| Emission.MarkingDescends | gazelle/emission.go:453-459 | every visit that goes on lowers the marks still missing, so the walk ends on cyclic graphs |
| Emission.EmissionClosure.Mark | gazelle/emission.go:459-495 | a mark is never lowered; a managed compiler is promoted to required and, unless kept, gets emit; an unpublishable required rule ends the run |
| Emission.EmissionClosure.Visit | gazelle/emission.go:451-503 | on return the key and all its successors outside open frames are marked as high as asked |
| Emission.EmissionClosure.RuleTarget | gazelle/emission.go:206-227 | finds a target exactly when the key's aliases lead to a key that is no alias, even on alias cycles |
| Emission.EmissionClosure.Rewire | gazelle/language.go:508-515 | a required program's new dependencies are required, and its old ones stay marked |
| Emission.EmissionClosure.Answer | gazelle/language.go:489-504 | a rooted program's question requires the owner and completes it first when it is pending |
| Emission.EmissionClosure.Complete | gazelle/language.go:485-519 | completing a program finishes it and exactly the pending ones it asks about, directly or through those; an unrooted one marks nothing |
| Emission.EmissionClosure.CompleteRooted | gazelle/emission.go:517-536 | afterwards no pending program is marked at all |
| Emission.EmissionClosure.Close | gazelle/emission.go:449-541 | in any order of origins and programs: marks are exactly reachability from the origins over the full graph, every runtime dependency of a required key is required, emit is set on exactly the reached rules that may take it, and the run ends early exactly when a demanded rule cannot be published |
| Emission.MarksAreFull | gazelle/emission.go:450-536 | once every program is completed, seen is what the origins reach over the full graph, required what consumers and reached managed compilers reach |
| Emission.MarksTrackFinal | gazelle/emission.go:517-536 | the marks are reachability in the final graph exactly when every lost edge of a rule still reached leads to one still reached |
| Emission.EmitTracksFinal | gazelle/emission.go:517-536 | emit is reachability in the final graph exactly when each rule that takes emit and was reached through a lost edge of a rule still reached is still reached |
| Emission.DroppedKeepsEmission | gazelle/emission.go:517-536 | a dropped dependency keeps its emit though the final graph no longer reaches it |
| Prefetch.KeepsSound | gazelle/prefetch.go:105-177 | every step of every thread keeps the pool's invariant |
| Prefetch.EachOnce | gazelle/prefetch.go:105-147 | in every run each config is queued at most once, each job popped at most once, and each listing run at most once |
| Prefetch.ReturnsDirectListing | gazelle/prefetch.go:149-162 | every listing returned is the direct one, whichever thread ran it |
| Prefetch.NoListingBesideProjection | gazelle/program.go:503-545 | no prefetched listing reads while a projection config exists |
| Prefetch.NoLostWakeup | gazelle/prefetch.go:118-147 | workers stay within the bound, and queued work before the stop always has a worker that is running or signalled |
| Prefetch.NothingAfterStop | gazelle/prefetch.go:164-177 | after the stop nothing is popped, queued or handed out again |
| Prefetch.NeverStuck | gazelle/prefetch.go:45-51 | in every reachable state some thread can go on exactly when some thread has something left to do, so locks and run-once guards never deadlock |
| Prefetch.StepsRunOut | gazelle/prefetch.go:128-147 | every step of the threads' own brings the pool nearer to quiet, so left alone it gets there |
| Prefetch.QuietHasRun | gazelle/prefetch.go:128-147 | a quiet pool has an empty queue and has run, cleanly, every job it still offers |
| RequiredLiterals.CompileLiterals | ts/tools/explainfiles/explainfiles.go:287-334 | the loop compiles what the scan of the pattern's characters comes to |
| RequiredLiterals.GroupScan | ts/tools/explainfiles/explainfiles.go:305-311 | a group, whatever it holds, ends the run before it and leaves none |
| RequiredLiterals.PieceScan | ts/tools/explainfiles/explainfiles.go:303-331 | a single literal extends the run; any other piece ends it, a quantified literal left out |
| RequiredLiterals.AlternationStops | ts/tools/explainfiles/explainfiles.go:312-313 | a pattern with a top-level bar requires nothing |
| RequiredLiterals.AnchoredWhole | ts/tools/explainfiles/explainfiles.go:344-348 | without such a bar, a find of the anchored expression matches the whole text |
| RequiredLiterals.RequiredLiteralsAreNecessary | ts/tools/explainfiles/explainfiles.go:284-334 | every text the anchored pattern matches has the prefix, the suffix and every literal compiled from it |
| RequiredLiterals.AdmitsReason | ts/tools/explainfiles/explainfiles.go:273-283 | the filter's test: prefix, suffix, and each literal somewhere |
| RequiredLiterals.ReadReason | ts/tools/explainfiles/explainfiles.go:249-261 | the filter never changes which form reads a reason: the first whose expression matches |
| Scanners.RememberToken | gazelle/incremental/signature.go:105-141 | a new token leaves facts and module flag those of everything heard, though only eight tokens are remembered |
| Scanners.Scanner.Emit | gazelle/incremental/signature.go:105-112 | emitting hears the token, which the source spells just there, and keeps window, facts and module flag right |
| Scanners.Scanner.Quoted | gazelle/incremental/signature.go:393-410 | a quoted text ends at the first quote of its kind that no backslash escapes, if that comes on its line, and otherwise fails |
| Scanners.Scanner.TemplateBody | gazelle/incremental/signature.go:412-430 | template text ends past the first unescaped backtick or substitution, and fails exactly when there is none |
| Scanners.Scanner.Regex | gazelle/incremental/signature.go:432-458 | a regular expression ends at the first unescaped slash outside every class, and its flags, if that comes on its line, and otherwise fails |
| Scanners.Scanner.GenericArrow | gazelle/incremental/signature.go:460-479 | true exactly for blanks, one whole identifier, blanks, and a comma or extends |
| Scanners.Scanner.CommentEnd | gazelle/incremental/signature.go:174-187 | a line comment ends at the first line end or with the source; a block comment past its first close, and fails exactly when none follows |
| Scanners.Scanner.Lexeme | gazelle/incremental/signature.go:172-243 | blanks are skipped; a comment, a string and a whole identifier are heard exactly as the source spells them |
| Scanners.Scanner.Punctuate | gazelle/incremental/signature.go:249-264 | an operator is heard as the source spells it; a brace changes the depth by one |
| Scanners.Scanner.Template | gazelle/incremental/signature.go:194-221 | a closed template leaves the stack, a substitution pushes the current depth and raises it |
| Scanners.Scanner.Step | gazelle/incremental/signature.go:171-263 | open templates stay strictly increasing below the current depth and above the brace to close, and every step advances |
| Scanners.Scanner.ScanJs | gazelle/incremental/signature.go:159-270 | ends on every source; success closes the given depth at its brace, or reads to the end; over words, blanks and braces alone it succeeds exactly when a brace closes that depth, and ends past the first that does |
| Scanners.Scanner.JsxElement | gazelle/incremental/signature.go:273-325 | success advances, stays in bounds and restores the depth; below depth zero, an element that succeeds held no JavaScript |
| Scanners.Scanner.JsxChildren | gazelle/incremental/signature.go:330-365 | success advances, stays in bounds and restores the depth; below depth zero, children that succeed held no JavaScript |
| Scanners.Scanner.JsxExpression | gazelle/incremental/signature.go:367-375 | success restores depth and previous token, or at a negative depth takes the rest of the source; over words, blanks and braces alone, when it succeeds and where it ends |
| Scanners.ExpressionBeforeText | gazelle/incremental/signature.go:367-375 | one expression before more text is read, at every depth: to its own brace from depth zero up, and to the end of the text below |
| Scanners.Scanner.Scan | gazelle/incremental/signature.go:149-157 | success reads the whole source back to depth zero; what was heard is spelled by the source, in order, and the facts are those of everything heard, comments included |
| Comments.ImportIsReading | gazelle/incremental/signature.go:18-19 | what is found at a place in a comment is exactly what the one reading of the JSDoc import expression there names |
| Comments.JsdocImportsRead | gazelle/incremental/signature.go:383-385 | the specifiers listed from a comment are the expression's leftmost reading, then the leftmost one past its quotes, until there is none |
| TraceLines.TraceField | gazelle/resolution_trace.go:91-97 | a value exactly when the line has both ends without overlap |
| TraceLines.ModuleTraceStart | gazelle/resolution_trace.go:28-36 | a match exactly when some reading of the line exists, with the longest name |
| TraceLines.ModuleTraceEnd | gazelle/resolution_trace.go:38-70 | a match exactly when some reading exists, with the longest name and for it the shortest file |
| TraceLines.CandidateTrace | gazelle/resolution_trace.go:72-89 | a match exactly when some reading with nonempty types exists, with the longest location |
| Manifest.WalkManifest | ts/tools/tsaction/manifest.go:404-524 | the frame-stack loop is the token transducer, its errors included |
| Manifest.ValueRun | ts/tools/tsaction/manifest.go:448-515 | over a value's tokens the transducer writes and visits the recursive copy, or fails where it does, and leaves the stack as it was |
| Manifest.DocumentRun | ts/tools/tsaction/manifest.go:404-524 | over a document it writes the copy's text, with the default module type when the type is missing |
| Manifest.WalkedReadsBack | ts/tools/tsaction/manifest.go:404-524 | the text written reads back as the copy's tokens |
| Manifest.IdentityReadsBack | ts/tools/tsaction/manifest.go:404-524 | an identity copy reads back as the input's tokens, and fails exactly when the browser map repeats a key |
| Manifest.RepeatedBrowserKeyFails | ts/tools/tsaction/manifest.go:452-462 | an unchanged copy of one browser map with a key twice is refused |
| ManifestPointers.UnescapeEscape | ts/tools/tsaction/manifest.go:472-472 | reading an escaped reference token back gives the key |
| ManifestPointers.ValueVisits | ts/tools/tsaction/manifest.go:448-500 | every visit's pointer names, in the copied document, the copy of what the visit announces, and that is what the input holds there, each key taken from the member it was copied from |
| ManifestPointers.SourceIsNamed | ts/tools/tsaction/manifest.go:448-500 | when the transform keeps keys, what a visit announces is what the input holds at its pointer |
| ManifestPointers.ValueIsVisited | ts/tools/tsaction/manifest.go:448-500 | every value of the copied document is visited at every pointer that names it |
| ManifestPointers.ValueChanges | ts/tools/tsaction/manifest.go:448-515 | a transform changes only strings it was handed, to what it answered |
| Targets.MatchesExportOutput | gazelle/emission.go:715-729 | true exactly when one capture put for every star gives the file |
| Targets.CaptureIsUnique | gazelle/emission.go:715-729 | with a star, at most one capture does |
| Targets.UnescapedEscaped | ts/tools/tsaction/manifest.go:129-139 | decoding an escaped path gives the path back |
| Targets.WithPartsRead | ts/tools/tsaction/manifest.go:89-139 | a target written from parts is read back as those parts, stars and suffix included |
| Targets.Candidate | ts/tools/tsaction/manifest.go:202-238 | finds the one capture that fits a source, and the moved parts exactly when they give the runtime module under it |
| Targets.ProjectLocal | ts/tools/tsaction/manifest.go:201-247 | succeeds exactly when every pair that fits can be represented and all ask for one target, and returns that |
| Targets.ProjectManifestTarget | ts/tools/tsaction/manifest.go:190-253 | a readable local target is projected exactly when the pairs that fit agree; then, decoded, it gives each fitting pair's runtime module under its source's own capture; constrained exactly when some pair fits |
| Tsconfig.OverrideAssociates | ts/tools/tsconfig/tsconfig.go:266-294 | overriding is associative |
| Tsconfig.Chain.Override | ts/tools/tsconfig/tsconfig.go:266-294 | each set option, with its directory, replaces the inherited one; the configs are appended |
| Tsconfig.Resolver.Resolve | ts/tools/tsconfig/tsconfig.go:210-264 | ends on cycles and comes to the recursive reading: cycles and unreadable bases are skipped, a rejected path ends the chain, ancestors are restored |
| Tsconfig.ReadingFlattens | ts/tools/tsconfig/tsconfig.go:210-264 | a chain's options are those of its configs read in order, the leaf last |
| Tsconfig.OptionIsLastSet | ts/tools/tsconfig/tsconfig.go:195-264 | every option, with its directory, is that of the last file of the configs that sets it |
| Tsconfig.SetPath | ts/tools/tsconfig/tsconfig.go:62-86 | a repeated key keeps its place and takes the last values; keys stay distinct |
| ProtoGraph.ProtoStore.DirectOwners | gazelle/proto_graph.go:110-129 | exactly the source-bearing targets reached through source-less ones, without repeats |
| ProtoGraph.ProtoStore.VisitOwners | gazelle/proto_graph.go:114-127 | the walk ends on cyclic graphs, and collects each bearing target it sees once |
| ProtoGraph.ProtoStore.Observe | gazelle/proto_graph.go:153-178 | an observation names exactly its owner's wrapped dependencies, each of them observed or about to be |
| ProtoGraph.ProtoStore.ExternalObservations | gazelle/proto_graph.go:140-196 | exactly the needed wrapped owners, each once for its identity, each naming only natives observed under it; an import with several owners is an error |
| Staging.Between | ts/tools/runtimeview/stage.go:207-209 | whatever sorts between a prefix and what it begins, begins so |
| Staging.RememberedParent | ts/tools/runtimeview/stage.go:207-229 | after the last entry kept, an entry is below another exactly when it is below that one |
| Staging.Stage | ts/tools/runtimeview/stage.go:206-229 | writes exactly the entries no entry is above; they form an antichain and cover the rest |
| Staging.ValidateOverlaps | ts/tools/runtimeview/stage.go:273-288 | accepts exactly when every entry below a topmost one agrees with it and is no module |

## Left out

- ProgramStores.ProgramStore.DeleteRule: while a memo is fresh, requires of a rule which declared nothing that what its list brings back is shadowed, because the code gives stale answers otherwise (Deletions.DeletedRuleResurfaces); a tree must be shadowed by a stored rule's, as the memo outlives later quiet stores (Deletions.LooseShadowIsLost).
- Minimize.MinimizedCoversMinimally: takes it that an owner's mode never changes again once the owner was asked about, which Supply.PromotionSettles derives from what a question promotes; the order guard is sufficient for minimality, which can fail without it (Minimize.UnguardedNotMinimal), and no exact condition is given for consumers that fail the guard.
- ListingPatch.CachedListing.PatchListing: says when it must succeed for a listing that is current, by what each added import resolves to, not by the order of its copied probes; models import edges, with each text in one mode per source; the numbering of copied candidate blocks, digests and stat lines are left out, and a refusal may leave sources rescanned.
- ProgramStores.ProgramStore.ObserveBuild: the order in which packages are observed shows only in version counts, which are not stated.
- Emission.EmissionClosure.Close: completing leaves new dependencies and changes no other attribute the walk reads; labels that do not parse are no edges, and workspace members are nodes with one edge. A program's questions and remaining dependencies are given with it, though resolving its edges reads the modes of their owners (`gazelle/language.go:485-519`).
- Supply.PassSettles: what asking about an owner changes is a function of the modes alone, `World.promote`; in the code it also depends on which rules the closure marked before.
- Prefetch.ReturnsDirectListing: a listing is a function of its request and the projection configs beside it; the main thread makes one call at a time, as the walk does.
- RequiredLiterals.RequiredLiteralsAreNecessary: patterns have no inline flags, under which literals would match in other cases.
- Scanners.Scanner.Scan: of a comment's facts only triple-slash directives are modelled, trimmed of ASCII space; JSDoc imports and pragmas are searched with expressions not modelled here.
- Manifest.WalkManifest: works on decoder tokens of one top-level value and on lexemes; decoding, number formatting and string quoting are single steps, and a second top-level value is not covered.
- Targets.ProjectManifestTarget: path cleaning is a parameter; main, module and browser targets have no captures, so their result is stated directly.
- Tsconfig.Resolver.Resolve: cleaning paths and resolving an extends value to a path are done when the world is given.
- ProtoGraph.ProtoStore.ExternalObservations: which imports need no owner, and which owners provide one, are inputs.
- Staging.Stage: the file tree is the set of placements written; creating parent directories, and the canonical module links made afterwards, are left out.
- The memos of metadata identities and indexed trees, the crawl memo and the rules generation: more caches under stamps already modelled.
- `removeSuppliedProgramInputs`, rule generation, visibility and package-scope publication: they depend on Gazelle and on rule merging.
- The resolution trace's line loop, `Parse` of the compiler's listing, and the source map of module sets: straight-line reading.
- File systems, processes, hashing, BUILD text, logging and message texts.
