# Verified core of the package documentation site

A Dafny 4.11 model of the algorithms behind the site: fuzzy search, README outlines and
heading ids, prefix sections, the fetching data source, package loading, the database layer,
the Go+ documentation transformation, the AST codec and pagination. Code that updates state
in place is modelled with classes, loops and `modifies` clauses; each such method is proved
against a specification on values, and the properties are proved of that specification. Runs
with several goroutines are state machines over their locked steps, and results hold for
every interleaving.

`dafny verify dfyconfig.toml` checks the whole project.

| files | what they model |
|---|---|
| `FuzzySpec.dfy`, `FuzzyMatcher.dfy`, `FuzzyLaws.dfy` | the three-phase symbol matcher over its reused 256-slot buffers, and the rules for its scores |
| `Ranking.dfy`, `Hits.dfy`, `Search.dfy` | searching one getter, and merging cut result lists of many |
| `HeadingIds.dfy`, `HeadingLaws.dfy`, `Outline.dfy`, `Decimals.dfy` | ids of README headings, and the outline as a forest |
| `SectionSpec.dfy`, `SectionObjects.dfy`, `AccountPrefix.dfy`, `AccountLaws.dfy`, `Paths.dfy`, `ByteStrings.dfy` | lines grouped into a tree by prefix; the account prefix of an import path |
| `LocalModules.dfy`, `ModuleCache.dfy`, `CacheReads.dfy`, `CacheRuns.dfy` | local files and the check for change; any number of callers of `getModule` sharing one cache; what each call returns; runs that go wrong, and exactly when |
| `LoadSpec.dfy`, `LoadLaws.dfy`, `LoadPackage.dfy` | loading a package for every build context, memoised by file names, with sharing |
| `PackageFiles.dfy`, `PackageLaws.dfy`, `PackageTasks.dfy` | finding the packages of a module: the walk, and one task per directory |
| `InsertText.dfy`, `InsertReader.dfy`, `InsertMeaning.dfy`, `BulkInsert.dfy`, `BulkUpdate.dfy` | the text of a statement and what it means to a reader; batched statements |
| `Transact.dfy`, `TransactLaws.dfy` | retried transactions |
| `GopNames.dfy`, `GopLaws.dfy`, `GopDoc.dfy`, `GopPackage.dfy` | overload expansion in Go+ documentation |
| `CodecBytes.dfy`, `CodecFormat.dfy`, `CodecGraph.dfy`, `CodecDecode.dfy`, `CodecSkip.dfy`, `CodecRoundTrip.dfy`, `CodecClosed.dfy`, `CodecFaithful.dfy`, `CodecPlain.dfy`, `CodecStream.dfy` | the AST codec on byte sequences, for graphs of structs with sharing and cycles, and for decoders that know other fields than the encoder |
| `CodecShift.dfy`, `CodecOrder.dfy` | references that go wrong after a skipped struct; round trips for every order of map entries |
| `CodecEncoder.dfy`, `CodecDecoder.dfy` | the encoder and decoder objects, proved to compute those functions |
| `Paginate.dfy` | page numbers and links |
| `Basics.dfy` | notions that several parts share |

Where the code and its documentation disagree the model follows the code:

- `Match` promises offset -1 for no match. For an empty input it scans all 256 slots as earlier
  calls left them, so the offset is -1 exactly when the pattern does not occur in that old
  content (`FuzzyMatcher.SymbolMatcher.Match`; example: `FuzzyMatcher.EmptyInputAfterMatch`).
  The offset that is returned is a rune index, not the byte offset its comment promises.
- The comments of `Match` say that whole segments are favoured over beginnings of segments. A
  segment in front of a separator is not: the separator after it starts nothing, so the last rune
  counts least (`FuzzyLaws.InnerSegment`).
- `Search` asks each getter for Offset+MaxResults results. With MaxResults 0 nothing cuts the
  merged page, yet each getter was cut to Offset results: `Search.DataSourceSearch` and
  `Ranking.UnlimitedPagesAgree` say exactly when the page is still right.
- The codec gives a graph back exactly when no reachable struct is all zero, no list holds a nil
  interface and no map has a nil value after a non-nil one (`CodecStream.StreamRoundTrip`). Go
  meets map entries in any order; for every order it works exactly when, in place of the last
  condition, no reachable map of pointers, slices or maps has both nil and other values
  (`CodecOrder.EveryOrder`).
- The codec's design asks that a decoder can skip a field it does not know. `skip` does not number
  the structs it passes over, so a later reference can lead to another struct or panic
  (`CodecShift.SkippedStructShifts`). `CodecStream.StreamReads` says exactly when the rest comes
  back; skipping what holds no pointers does no harm (`CodecStream.StreamDropsFields`), nor does a
  decoder that knows more fields (`CodecStream.StreamAddsFields`).
- A cached entry under the local version answers every version of its path. If a caller asks for
  the local version of a module that is not local, others then get its result
  (`CacheRuns.LocalVersionPoisons`).
- A cached error is returned without any check for change: one failure to read a local module is
  then the answer for every version (`CacheRuns.ErrorSticks`). A finished call for a local module
  gets an error exactly if a check or fetch of its own failed, or such an error was cached
  (`CacheReads.CacheIsTransparent`).
- The check for change looks at the latest time of the compiled files alone, so deleting a file
  and adding or editing one that is not compiled is missed (`LocalModules.MissedEdits`) and stale
  content is served (`CacheRuns.MissedEditShows`). Exactly the edits that raise that time, leave
  both it and the content alone, or keep it while it is recent or unknown are safe
  (`CacheRuns.SafeExactly`).
- The memo of `loadPackage` goes by file names joined with spaces. It changes nothing, however
  packages are loaded, exactly when contexts with the same key match the same files
  (`LoadSpec.MemoExactly`), which names with spaces can break (`LoadSpec.SpacesShow`).
- Empty lines are never grouped, although they have the same first prefix
  (`AccountPrefix.SameSectionExactly`).
- The status for invalid package contents is overwritten by the one for an unsupported build
  context; only the message stays (`PackageTasks.EverySchedule`).
- The document of a package that is too large is marked for all build contexts while its symbols
  keep the context being loaded (`LoadSpec.OversizedExample`); apart from that all documents carry
  their own contexts throughout (`LoadSpec.TagsExactly`).
- A page number that is too large for an integer is reported in the log as an error, and the
  largest integer is used, not the default (`Paginate.PositiveParam`).
- The comment of `pagesToLink` says that all page numbers are below the number of pages; the last
  page itself can be linked.

## Model

| member | source | states |
|---|---|---|
| `FuzzyMatcher.SymbolMatcher.constructor` | internal/fuzzy/fuzzy.go:56-67 | the matcher looks for the lower-cased first 255 runes of the pattern; all slots of the three buffers start at zero |
| `FuzzyMatcher.SymbolMatcher.Fill` | internal/fuzzy/fuzzy.go:94-131 | the first slots hold the lower-cased first 255 runes of the concatenated chunks and their roles; later slots of both buffers keep what earlier calls left; no index wraps |
| `FuzzyMatcher.SymbolMatcher.Backward` | internal/fuzzy/fuzzy.go:136-162 | the greatest position at which any embedding of the pattern can begin, or -1 if there is none; segments are counted from the right |
| `FuzzyMatcher.SymbolMatcher.Forward` | internal/fuzzy/fuzzy.go:193-238 | the scan uses up the whole pattern, at every rune as early as any embedding from that start, and the score is that of this match |
| `FuzzyMatcher.SymbolMatcher.Match` | internal/fuzzy/fuzzy.go:80-239 | for non-empty input the documented result of pattern and concatenated input; for empty input exactly when the offset is not -1 |
| `FuzzyMatcher.ResultUnique` | internal/fuzzy/fuzzy.go:69-80 | pattern and concatenated runes alone determine the result: chunking and history do not matter |
| `FuzzyMatcher.ScoreRange` | internal/fuzzy/fuzzy.go:78-79 | a match scores between 0.24 and 1, and 0 means no match |
| `FuzzyLaws.ScoreObeysRules` | internal/fuzzy/fuzzy.go:169-236 | the score is the average of what the three documented rules, said of the input itself, give the matched runes |
| `FuzzyLaws.WholeLastSegment` | internal/fuzzy/fuzzy.go:171-183 | a pattern that is the whole last segment is found there and scores exactly 1 |
| `FuzzyLaws.OneRune` | internal/fuzzy/fuzzy.go:171-229 | a pattern of one rune: its last occurrence; 1, 0.8 or 0.6 by what it starts and what follows it, times 1, 0.8, 0.6 or 0.4 by the separators from there on |
| `FuzzyLaws.WeighedBySeparators` | internal/fuzzy/fuzzy.go:181-229 | what follows the segment of a match changes the score only by the weight for its number of separators |
| `FuzzyLaws.InnerSegment` | internal/fuzzy/fuzzy.go:174-178 | a whole segment before a separator scores 0.48 where the beginning of a longer segment scores 0.6 |
| `FuzzyLaws.TypedAsWritten` | internal/fuzzy/fuzzy.go:56-67 | pattern and input are lower-cased alike |
| `FuzzyMatcher.EmptyInputAfterMatch` | internal/fuzzy/fuzzy.go:144-167 | a concrete history after which an empty input yields offset 0 |
| `FuzzySpec.EarliestUnique` | internal/fuzzy/fuzzy.go:169-236 | there is one earliest match from a start |
| `Search.GetterSearch` | internal/fetch/getters.go:481-505 | one reused matcher ranks the packages by the score each would get on its own, and the top `limit` are returned |
| `Search.HitsUnique` | internal/fetch/getters.go:489-496 | the hits of a getter are determined by the query and its package paths |
| `Search.HitExactly` | internal/fetch/getters.go:489-496 | a package is a hit if and only if the pattern occurs in its path, and then once, under its own path, with the score of the match |
| `Ranking.TopOfTops` | internal/fetchdatasource/fetchdatasource.go:367-383 | the first k of the merged cut lists score like the first k of everything, for any number of lists |
| `Ranking.PagesAgree` | internal/fetchdatasource/fetchdatasource.go:384-394 | paging over the cut lists shows the scores of paging over everything, for every page size of at least one |
| `Hits.PageOfAll` | internal/fetchdatasource/fetchdatasource.go:371-394 | the page of the merged cut lists is, packages included, the page of some ranking of all hits |
| `Ranking.UnlimitedPagesAgree` | internal/fetchdatasource/fetchdatasource.go:371-392 | without a page size they agree if and only if nothing was cut off that the page would show |
| `Ranking.UnlimitedPageExample` | internal/fetchdatasource/fetchdatasource.go:371-392 | a concrete case in which they differ |
| `Search.DataSourceSearch` | internal/fetchdatasource/fetchdatasource.go:365-395 | an error exactly when a getter fails; otherwise ranked hits that were found, none more often than found; they score like the page of all hits ranked together if and only if there is a page size or no getter has more hits than the offset, and then they are the page of such a ranking, packages included |
| `HeadingIds.SlugShape` | internal/frontend/markdown.go:408-415 | the text becomes lower-case words joined by single dashes, never empty |
| `HeadingLaws.SlugKeepsAll` | internal/frontend/markdown.go:404-415 | the letters and digits of a slug are all those of the text, in order and lower case; without any it is "heading" |
| `HeadingLaws.SlugOfWords` | internal/frontend/markdown.go:408-411 | at any other character a text falls into parts whose slugs are joined by one dash, or left out if empty |
| `HeadingLaws.WalkIsDocumentOrder` | internal/frontend/markdown.go:427-433 | the walk visits all headings in document order if it knows all blocks, and otherwise a first part of them |
| `HeadingIds.CandidatesDistinct` | internal/frontend/markdown.go:416-423 | the keys str, str-1, str-2 and so on are pairwise different |
| `HeadingIds.TakenCandidates` | internal/frontend/markdown.go:417-423 | as many taken candidates are as many ids, so a free one comes within the number of ids plus one |
| `HeadingIds.GenerateID` | internal/frontend/markdown.go:403-425 | the loop ends within that many probes, at the first free candidate, which is then taken |
| `HeadingIds.KeysDistinct` | internal/frontend/markdown.go:400-434 | the keys of all headings of a document are different |
| `HeadingIds.AssignIDs` | internal/frontend/markdown.go:427-433 | every visited heading gets its prefixed key; all ids are different |
| `HeadingIds.RewriteHeadingIDs` | internal/frontend/markdown.go:400-434 | the same for a whole document |
| `Outline.PreorderIsDocumentOrder` | internal/frontend/markdown.go:194-212 | the preorder traversal of the level forest is the list of headings |
| `Outline.ShownOrder` | internal/frontend/markdown.go:213-220 | with the title removed the outline lists the other headings, and the title was the first |
| `Outline.FindParent` | internal/frontend/markdown.go:202-205 | climbing the parent chain finds the nearest earlier heading of smaller level |
| `Outline.Nest` | internal/frontend/markdown.go:196-212 | parent pointers, child lists and roots are those of the forest |
| `Outline.Collect` | internal/frontend/markdown.go:173-189 | new entries with the level, text and id of each heading |
| `Outline.ExtractFrom` | internal/frontend/markdown.go:172-221 | the whole extraction, with and without title removal |
| `Outline.RewriteAndExtract` | internal/frontend/markdown.go:172-221 | after both passes the outline carries the distinct new ids |
| `SectionSpec.CollectCorrect` | internal/frontend/section.go:52-67 | the loop takes the longest run of lines with the prefix, in order, as well-built subsections |
| `SectionSpec.BuildCorrect` | internal/frontend/section.go:50-73 | a section's leaves are the lines it took; collapsing keeps this |
| `SectionSpec.SectionsCorrect` | internal/frontend/section.go:38-46 | for any lengthening prefix function: the leaves are the lines; every inner section has at least two children, the right line count and leaves that start with its prefix |
| `SectionObjects.Section.Add` | internal/frontend/section.go:25-32 | the subsection is appended and the line count goes up by its leaves |
| `SectionObjects.BuildSection` | internal/frontend/section.go:50-73 | loop and recursion end, and the objects built form a tree with the specified value |
| `SectionObjects.SectionList` | internal/frontend/section.go:43-46 | the objects of the top level hold the specified sections |
| `AccountPrefix.PastAccount` | internal/frontend/section.go:102-106 | a path that is not its own first prefix has an element past the account |
| `AccountPrefix.AccountPrefixLengthens` | internal/frontend/section.go:91-139 | every result is empty or a strictly longer prefix of the path |
| `AccountPrefix.FirstPrefixStable` | internal/frontend/section.go:118-139 | a first prefix that is not the whole path is the first prefix of every path it begins |
| `AccountPrefix.AccountTogether` | internal/frontend/section.go:38-73 | of byte-sorted lines two non-empty paths with the same first prefix are in the same top-level section |
| `AccountPrefix.EmptyLinesApart` | internal/frontend/section.go:38-73 | in sorted lines any two empty ones are in different top-level sections |
| `AccountPrefix.SameSectionExactly` | internal/frontend/section.go:38-73 | two sorted lines with the same first prefix are in the same top-level section if and only if they are not empty |
| `AccountLaws.FirstPrefixIs` | internal/frontend/section.go:118-139 | the first prefix ends after the second element on the listed hosts, after the third on hub.jazz.net, and after the host elsewhere |
| `AccountLaws.FirstPrefixOfAccount` | internal/frontend/section.go:135-137 | a path that ends with its account is its own first prefix |
| `AccountLaws.SecondPrefixIs` | internal/frontend/section.go:91-114 | the second prefix is one element longer, without a slash if it is the whole path, and there is no third |
| `ModuleCache.ProvenanceAlways` | internal/fetchdatasource/fetchdatasource.go:69-135 | in every run each entry for (path, v) is the outcome of a completed, not cancelled fetch of it, or of latest resolved to v |
| `ModuleCache.AgreementAlways` | internal/fetchdatasource/fetchdatasource.go:86-135 | in every run, with evictions and edits that a check can notice, cache and calls agree with uncached fetching |
| `CacheReads.CacheIsTransparent` | internal/fetchdatasource/fetchdatasource.go:86-135 | from an empty cache a finished call, unless cancelled, returned what its getter reports for the version; for a local module, the version and content on disk when the call last looked, if and only if nothing failed; it returned an error exactly if something did: that look, with the same code, or an earlier fetch of the module whose error was cached |
| `CacheReads.TransparentWithoutFailures` | internal/fetchdatasource/fetchdatasource.go:86-135 | if reading local modules never fails, every finished call that was not cancelled returned just that |
| `CacheReads.CurrentWas` | internal/fetchdatasource/fetchdatasource.go:92-134 | in every run, whatever the edits, a finished call has looked, and its result is tied to what was there then and to what went wrong |
| `CacheRuns.SecondCallHits` | internal/fetchdatasource/fetchdatasource.go:92-131 | a second call for the same version gets the same result without another fetch |
| `CacheRuns.ResolvedVersionHits` | internal/fetchdatasource/fetchdatasource.go:126-131 | so does a call for the version that latest was resolved to |
| `CacheRuns.LocalVersionPoisons` | internal/fetchdatasource/fetchdatasource.go:70-79 | without the condition on the local version there is a wrong answer, for every module that differs between versions |
| `CacheRuns.ErrorSticks` | internal/fetchdatasource/fetchdatasource.go:86-93 | after one failed fetch of a local module a caller for any other version gets that error, although the files are fine |
| `LocalModules.Mtime` | internal/fetch/getters.go:366-402 | the loop finds the latest time of the compiled files that exist, or none if there are none or it is less than two seconds old |
| `LocalModules.MissedEdits` | internal/fetch/getters.go:366-402 | deleting any file, and adding or editing one that is not compiled, is not noticed |
| `CacheRuns.MissedEditShows` | internal/fetch/getters.go:534-547 | for every edit that is not noticed there is a run in which a caller gets a stale module |
| `CacheRuns.StaleExactly` | internal/fetch/getters.go:534-547 | a stale answer is one that differs from the disk as it was when the call last looked |
| `CacheRuns.NoticedIsSafe` | internal/fetch/getters.go:534-547 | after an edit that is noticed no run of careful steps gives anyone a stale module |
| `CacheRuns.SafeExactly` | internal/fetch/getters.go:534-547 | an edit of a module whose latest time is not recent is safe in all runs if and only if it is noticed |
| `ModuleCache.DiskStep` | internal/fetch/getters.go:366-402 | time and noticed edits keep the agreement: an entry that falls behind has a time that shows it |
| `LoadPackage.MatchingFiles` | internal/fetch/load.go:411-454 | exactly the files that the context includes, with their contents, or an error if and only if matching fails for one |
| `LoadPackage.MapKeyForFiles` | internal/fetch/load.go:253-263 | the key is the sorted names joined with spaces |
| `LoadSpec.KeyInjective` | internal/fetch/load.go:253-263 | names that are not empty and hold no spaces: equal keys mean equal sets |
| `LoadSpec.KeyCollision` | internal/fetch/load.go:253-263 | with a space in a name two sets share a key |
| `LoadSpec.MemoMeansReference` | internal/fetch/load.go:76-183 | if contexts with the same key match the same files, the memoised run gives what loading every context afresh gives |
| `LoadSpec.GoodNamesDistinguish` | internal/fetch/load.go:253-263 | file names that are not empty and hold no spaces ensure that |
| `LoadSpec.ClashShows` | internal/fetch/load.go:81-104 | where contexts with one key match different files, some way of loading gives a different answer |
| `LoadSpec.MemoExactly` | internal/fetch/load.go:76-183 | memoised and fresh runs agree for all ways of loading if and only if contexts with the same key match the same files |
| `LoadSpec.SpacesShow` | internal/fetch/load.go:253-263 | three concrete files, two contexts and a loader for which the memo hides an error |
| `LoadLaws.LoadsIncluded` | internal/fetch/load.go:82-107 | for each context exactly the files that it includes are loaded |
| `LoadLaws.DifferentFiles` | internal/fetch/load.go:88-92 | two contexts load different things only if some file matches one and not the other |
| `LoadLaws.EndsExactly` | internal/fetch/load.go:82-155 | the first context that fails to match or load, is too large or has another package name decides the answer |
| `LoadLaws.PackageExactly` | internal/fetch/load.go:140-183 | without one, a package with the name and imports of its first context and one document for each context that has one, or a single one for all; or no package |
| `LoadLaws.ExcludedByAll` | internal/fetch/load.go:438-451 | a file that all contexts exclude changes nothing |
| `LoadLaws.AllMatch` | internal/fetch/load.go:76-183 | if all files match all contexts the answer is what loading all of them gives, once for all contexts |
| `LoadPackage.CopyDoc` | internal/fetch/load.go:89-104 | the copy carries the new context throughout, and the original stays as it is |
| `LoadPackage.RetagInPlace` | internal/fetch/load.go:174-181 | document and symbols get the new context in place, and nothing else changes |
| `LoadPackage.LoadContexts` | internal/fetch/load.go:81-170 | the loop with its map of shared documents does what the memoised run on values does, for all file names; early returns are its answers |
| `LoadPackage.Load` | internal/fetch/load.go:76-183 | outcome and documents, in order and on objects of their own, are those of the memoised run, and those of loading every context afresh if keys distinguish the matched files |
| `LoadSpec.AnswerTags` | internal/fetch/load.go:171-183 | in a package every document's symbols carry its own context; one for all contexts exists exactly when all contexts load with the same files |
| `LoadSpec.TagsExactly` | internal/fetch/load.go:120-183 | all documents carry their own contexts throughout if and only if the run does not stop at a context whose rendering is too large and has symbols |
| `LoadSpec.OversizedExample` | internal/fetch/load.go:120-150 | a concrete package that is too large, whose symbol keeps the context |
| `PackageFiles.IgnoredByGoTool` | internal/fetch/package.go:371-378 | true exactly when some path element begins with a dot or is testdata |
| `PackageFiles.IgnoredJoin` | internal/fetch/package.go:371-378 | a joined path is ignored exactly when one of its parts is |
| `PackageLaws.VendoredExactly` | internal/fetch/package.go:380-388 | a path is vendored if and only if an element of it, but not the last, is "vendor" |
| `PackageLaws.CandidateExactly` | internal/fetch/package.go:213-226 | a file counts if and only if its name ends in .go and no element of its import path begins with a dot or is testdata, and none but the last is vendor |
| `PackageFiles.Phase1` | internal/fetch/package.go:205-268 | the walk fails at the first entry that makes it fail; otherwise kept files, incomplete directories and one state for each of those |
| `PackageFiles.Phase1Complete` | internal/fetch/package.go:205-268 | a directory is kept or bad exactly when it holds a .go file and is not skipped; one that is not bad keeps all its files |
| `PackageLaws.WalkedThrough` | internal/fetch/package.go:205-268 | a walk that ends well met no broken entry, kept files of at most 10000 directories and read every size it needed |
| `PackageLaws.WalksThrough` | internal/fetch/package.go:205-268 | without broken entries, with readable sizes and at most 10000 eligible directories the walk ends well |
| `PackageTasks.InvAlways` | internal/fetch/package.go:286-346 | what holds after every schedule of the tasks' locked steps |
| `PackageTasks.EverySchedule` | internal/fetch/package.go:286-355 | every complete schedule finds the same packages and states, each once, and fails exactly when some load fails unexpectedly |
| `PackageTasks.ScheduleIndependent` | internal/fetch/package.go:286-355 | two complete schedules give the same multisets |
| `PackageTasks.EnoughTurns` | internal/fetch/package.go:286-350 | five turns finish any task, whatever the others do |
| `PackageTasks.AccountedOnce` | internal/fetch/package.go:205-355 | both phases: each eligible directory is a package or a failed state, exactly once, and no other directory is |
| `InsertText.BuildInsertQuery` | internal/database/database.go:426-458 | the text is that of a statement with one group of placeholders per row, numbered through |
| `InsertText.TextTellsRows` | internal/database/database.go:426-458 | statements with different numbers of rows have different texts |
| `InsertMeaning.TextReads` | internal/database/database.go:426-458 | read back after its head, the text has the rows asked for, each with one parameter per column, numbered 1, 2, 3 and so on throughout, and the rest |
| `InsertMeaning.StatementReads` | internal/database/database.go:426-458 | read back as a whole, for names that need no quoting, it gives table, columns, those rows and the clauses after them |
| `BulkInsert.EveryParameterOnce` | internal/database/database.go:431-449 | of parameters numbered through each has exactly one place |
| `BulkInsert.RowsAreChunks` | internal/database/database.go:426-458 | the rows that a statement inserts, with the parameters read from its text, are its arguments cut by the number of columns |
| `BulkInsert.InsertedIsChunk` | internal/database/database.go:366-419 | the rows that the texts of all batches insert are the sent values cut by the number of columns |
| `BulkInsert.InsertBatches` | internal/database/database.go:384-417 | statements of whole rows, at most 1000 arguments each, at most two prepared; the first prepare or statement that fails decides the result and how many rows were sent |
| `BulkInsert.BulkInsert` | internal/database/database.go:366-419 | each error condition exactly, success exactly when every call that is due works; on success every value is sent once and the table gets the rows of row-by-row insertion, on failure the rows before the failing batch, and with it those of a batch whose result cannot be read |
| `BulkInsert.OutcomeUnique` | internal/database/database.go:384-417 | which prepares and statements fail determines the result and the batch where it stops |
| `BulkInsert.DoneExactly` | internal/database/database.go:384-417 | success if and only if every prepare and statement of a batch that is due works |
| `BulkUpdate.BulkUpdate` | internal/database/database.go:488-519 | each error condition exactly, success exactly when every statement that is due works; on success each row is updated once and in order, in arrays of equal length up to the limit, on failure a first part that the failing statement determines |
| `BulkUpdate.UpdateOutcomeUnique` | internal/database/database.go:504-519 | which statements fail determines the result and the slice where it stops |
| `BulkUpdate.UpdatedExactly` | internal/database/database.go:504-519 | success if and only if every statement for a slice that is due works |
| `BulkUpdate.SliceRows` | internal/database/database.go:504-515 | slicing all columns alike slices the rows |
| `Transact.EndedOnce` | internal/database/database.go:275-311 | in a well-formed history every begun transaction ended once and every connection was closed |
| `Transact.DB.Once` | internal/database/database.go:275-311 | one attempt: nil exactly with one commit, otherwise none; a panic rolls back; nothing stays open |
| `Transact.DB.WithRetry` | internal/database/database.go:228-260 | result of the first attempt that does not fail to serialize, within 11; a commit exactly on success, by the last transaction begun; 125*(2^k-1) ms slept after k failures |
| `Transact.DB.Run` | internal/database/database.go:208-226 | repeatable-read and serializable are retried, every other level is tried once |
| `Transact.LeadingIs` | internal/database/database.go:234-247 | the number of leading serialization failures is determined by the attempts |
| `TransactLaws.FailsExactly` | internal/database/database.go:262-311 | an attempt is tried again if and only if its first error, in connecting, beginning, the function or committing, carries the code for either driver |
| `TransactLaws.SucceedsExactly` | internal/database/database.go:228-260 | retrying ends well if and only if one of the first eleven attempts works and all before it are ones to try again |
| `TransactLaws.FailsWith` | internal/database/database.go:245-258 | otherwise the first attempt that is not tried again decides: its panic, or an error with its text |
| `TransactLaws.NeverWorks` | internal/database/database.go:259 | after eleven such attempts there is an error that is not itself one to try again |
| `TransactLaws.NestedRefused` | internal/database/database.go:276-278 | a nested transaction is refused and not tried again |
| `GopNames.PlainFunc` | internal/gopdoc/z_gop.go:60-77 | a function name without underscore reads back |
| `GopNames.MarkedFunc` | internal/gopdoc/z_gop.go:60-77 | exactly when a marked function name reads back |
| `GopNames.PlainMethod` | internal/gopdoc/z_gop.go:60-77 | exactly when a plain method name reads back |
| `GopNames.MarkedMethod` | internal/gopdoc/z_gop.go:60-77 | exactly when a marked method name reads back |
| `GopNames.ToIndexInjective` | internal/gopdoc/z_transform.go:162-170 | different suffix characters stand for different positions |
| `GopLaws.SuffixPositions` | internal/gopdoc/z_transform.go:162-170 | the suffixes 0 to 9 and a to z stand for the positions 0 to 35, in this order |
| `GopNames.SplitJoined` | internal/gopdoc/z_transform.go:206 | splitting at commas loses nothing |
| `GopNames.AddGopo` | internal/gopdoc/z_transform.go:204-219 | the table gains exactly the entries of one constant, in order |
| `GopNames.BuildTable` | internal/gopdoc/z_transform.go:221-247 | the table of all overload constants; a panic exactly when one has no value |
| `GopLaws.MethodConstant` | internal/gopdoc/z_transform.go:204-219 | a constant for a method: every name of its list that is not empty stands behind that method, under its number, as a method of the type if it begins with a dot and as a function otherwise |
| `GopLaws.FuncConstant` | internal/gopdoc/z_transform.go:204-219 | the same for a function |
| `GopLaws.EntriesExactly` | internal/gopdoc/z_transform.go:221-247 | the entries are those of the constants whose first name has the prefix and whose first value is a string, in groups where some name has the prefix |
| `GopDoc.MethodClone` | internal/gopdoc/z_transform.go:102-137 | receiver and parameters together are the original fields; receiver text and names are set |
| `GopDoc.NewMethod` | internal/gopdoc/z_transform.go:128-137 | a new function with its own identifier that has the value of the method clone |
| `GopDoc.NewFunc` | internal/gopdoc/z_transform.go:139-145 | the same for a function clone |
| `GopDoc.BuildFunc` | internal/gopdoc/z_transform.go:152-160 | one clone, added to the list of its target if that exists; a panic exactly for a method clone without a first parameter |
| `GopLaws.CloneIs` | internal/gopdoc/z_transform.go:94-145 | a clone has the name asked for, and documentation and all fields of its source; only for a type does the first field become the receiver |
| `GopDoc.Rename` | internal/gopdoc/z_transform.go:183-188 | an overload suffix is cut off in place in both names; clones made so far are untouched; a panic exactly for a bad suffix |
| `GopLaws.PanicsExactly` | internal/gopdoc/z_transform.go:100-189 | looking at a function panics if and only if its name ends in two underscores and no suffix, or a method is to be made of it and nothing can be the receiver |
| `GopLaws.RenamedIs` | internal/gopdoc/z_transform.go:183-188 | a name with an overload suffix loses it in both places, and nothing else changes |
| `GopDoc.TransformFunc` | internal/gopdoc/z_transform.go:172-189 | all clones that are due for one function, named by the function's old name |
| `GopDoc.TransformFuncs` | internal/gopdoc/z_transform.go:191-195 | the same for a list |
| `GopPackage.TransformTypes` | internal/gopdoc/z_transform.go:197-202 | the same for the functions and methods of all types |
| `GopPackage.MergeFuncs` | internal/gopdoc/z_transform.go:61-75 | a permutation of both lists ordered by name and order, or the first list if the second is empty |
| `ByteStrings.BeforeExactly` | internal/gopdoc/z_transform.go:66-73 | names sort before their extensions, and otherwise by the first difference |
| `GopPackage.SortedKeysUnique` | internal/gopdoc/z_transform.go:66-73 | the sorted sequence of names and orders is determined |
| `GopPackage.Finish` | internal/gopdoc/z_transform.go:50-59 | in whatever order targets are met, each list is merged with its own clones and no other list changes |
| `GopPackage.Transform` | internal/gopdoc/z_transform.go:249-261 | other packages stay as they are; when it panics, exactly; clones, originals and lists afterwards |
| `GopPackage.OneClonePerEntry` | internal/gopdoc/z_transform.go:172-219 | a function has one clone for each entry that names it and whose target exists, and no others |
| `GopPackage.PickedOnce` | internal/gopdoc/z_transform.go:152-160 | a clone is in the list of its target once and in no other |
| `GopPackage.OriginalsStay` | internal/gopdoc/z_transform.go:50-75 | an original stays in its list as often as it was there |
| `CodecBytes.UintRoundTrip` | internal/godoc/codec/codec.go:186-225 | decoding an encoded uint64 gives it back and leaves the rest |
| `CodecBytes.IntRoundTrip` | internal/godoc/codec/codec.go:228-247 | the same for signed integers |
| `CodecBytes.StringRoundTrip` | internal/godoc/codec/codec.go:250-284 | the same for strings |
| `CodecBytes.ListHeaderRoundTrip` | internal/godoc/codec/codec.go:323-343 | the same for list headers, with nil told apart from empty |
| `CodecFormat.UintFormat` | internal/godoc/codec/doc.go:38-44 | one byte below 243, else 247, 4 or 8, and the number in as many bytes, least significant first |
| `CodecFormat.UintForms` | internal/godoc/codec/codec.go:207-225 | exactly which bytes are read as an unsigned integer |
| `CodecFormat.IntFormat` | internal/godoc/codec/codec.go:228-238 | signed numbers alternate: 0, -1, 1, -2 are 0, 1, 2, 3 |
| `CodecFormat.DocumentedExamples` | internal/godoc/codec/doc.go:31-50 | the two examples of the documentation, byte by byte |
| `CodecFormat.PointerFormat` | internal/godoc/codec/codec.go:350-401 | nil is 255, a struct met before 245 and its number, a new one starts with 244 and ends with 243 |
| `CodecFormat.FieldFormat` | internal/godoc/encode_ast.gen.go:21-33 | fields that are zero are left out, others follow their number |
| `CodecGraph.Encode` | internal/godoc/encode_ast.gen.go:17-34 | encoding a value of any type only adds to the memo of structs and types met, and ends for cyclic graphs |
| `CodecRoundTrip.Simulation` | internal/godoc/encode_ast.gen.go:17-64 | for every graph, decoding the encoder's bytes, by a decoder that may know other fields, gives exactly the outcome foretold without bytes, panics included |
| `CodecFaithful.Exact` | internal/godoc/encode_ast.gen.go:17-64 | the outcome is a copy, as far as the decoder knows the fields, if and only if value and structs allocated have none of the three defects and every reference followed means the same struct to both sides |
| `CodecFaithful.ExactList` | internal/godoc/encode_ast.gen.go:3551-3573 | the same for slices |
| `CodecFaithful.ExactEntries` | internal/godoc/encode_ast.gen.go:3799-3826 | the same for maps, whose value variable outlives each turn of the loop |
| `CodecStream.MetIsReachable` | internal/godoc/codec/codec.go:350-368 | the encoder meets exactly the structs reachable from the roots |
| `CodecStream.NamesRoundTrip` | internal/godoc/codec/codec.go:501-530 | the type names at the head of a stream lead back to the types |
| `CodecStream.StreamRoundTrip` | internal/godoc/codec/codec.go:34-100 | a stream gives back the roots and a copy of every reachable struct, with sharing and cycles, if and only if none of the defects is reachable |
| `CodecOrder.EveryOrder` | internal/godoc/encode_ast.gen.go:3799-3826 | the round trip works for every order of the entries of all maps if and only if nothing reachable is all zero, a nil interface in a list, or a map of pointers, slices or maps with both nil and other values |
| `CodecStream.StreamReads` | internal/godoc/codec/codec.go:370-449 | a decoder that may know other fields gives back the roots and copies, as far as it knows the fields, of all structs it allocates, if and only if none of them has a defect and every reference it follows means the same struct to both sides |
| `CodecPlain.AllMet` | internal/godoc/codec/codec.go:388-449 | if skipped values hold no pointers, the structs allocated are those that the encoder met, and all references mean the same |
| `CodecStream.StreamDropsFields` | internal/godoc/codec/doc.go:16-19 | if skipped values hold no pointers, the result is a copy of every reachable struct, as far as the decoder knows the fields, if and only if none of the defects is reachable |
| `CodecStream.StreamAddsFields` | internal/godoc/encode_ast.gen.go:36-64 | a decoder that knows more fields reads an old stream if and only if the old decoder does, with zero in the new fields |
| `CodecShift.SkippedStructShifts` | internal/godoc/codec/codec.go:373-449 | a struct first met in a skipped field: a later reference to it panics, or comes back as another struct, for all contents |
| `CodecShift.ShiftIsNotAligned` | internal/godoc/codec/codec.go:373-449 | on these graphs the condition on references fails although all others hold |
| `CodecSkip.SkipExact` | internal/godoc/codec/codec.go:417-449 | `skip` passes over exactly one encoded value |
| `CodecEncoder.Encoder.WriteUint` | internal/godoc/codec/codec.go:186-204 | appends the encoding |
| `CodecEncoder.Encoder.StartStruct` | internal/godoc/codec/codec.go:350-368 | numbers a new struct pointer, or writes a reference to the number of one met before |
| `CodecEncoder.Encoder.StartAny` | internal/godoc/codec/codec.go:455-476 | numbers a new type and writes the pair's head |
| `CodecEncoder.Encoder.EncodeValue` | internal/godoc/encode_ast.gen.go:17-34 | appends exactly the bytes of `Encode`, and the tables number what its memo has met |
| `CodecEncoder.Encoder.EncodeStructFields` | internal/godoc/encode_ast.gen.go:21-33 | the same for the fields that are not zero |
| `CodecEncoder.Encoder.EncodeSlice` | internal/godoc/encode_ast.gen.go:3551-3560 | the same for the elements of a slice |
| `CodecEncoder.Encoder.EncodeMap` | internal/godoc/encode_ast.gen.go:3799-3809 | the same for the entries of a map |
| `CodecEncoder.Encoder.Bytes` | internal/godoc/codec/codec.go:70-75 | type names by number, then the data |
| `CodecEncoder.EncodeToBytes` | internal/godoc/codec/codec.go:34-75 | a new encoder used for all roots returns the specified stream |
| `CodecDecoder.Decoder.ReadUint` | internal/godoc/codec/codec.go:207-225 | reads, fails or panics as specified |
| `CodecDecoder.Decoder.SkipValue` | internal/godoc/codec/codec.go:418-449 | the recursive skip does what the function says |
| `CodecDecoder.Decoder.DecodeValue` | internal/godoc/encode_ast.gen.go:36-64 | value, position and allocated structs are those of `Decode`, and so are failures |
| `CodecDecoder.Decoder.DecodeStructFields` | internal/godoc/encode_ast.gen.go:47-63 | the same for the field loop, filling the struct in place |
| `CodecDecoder.Decoder.DecodeSlice` | internal/godoc/encode_ast.gen.go:3562-3573 | the same for slices |
| `CodecDecoder.Decoder.DecodeMap` | internal/godoc/encode_ast.gen.go:3811-3826 | the same for maps |
| `CodecDecoder.Decoder.ReadTypes` | internal/godoc/codec/codec.go:516-530 | the types of the stream by number, or the error |
| `CodecDecoder.DecodeFromBytes` | internal/godoc/codec/codec.go:89-100 | a new decoder called for each root returns what the stream specifies |
| `CodecDecoder.EncodeThenDecode` | internal/godoc/codec/codec.go:14-100 | encoder and decoder together give the graph back if and only if none of the defects is reachable |
| `Paginate.PositiveParam` | internal/frontend/paginate.go:95-108 | a text that is a positive number is kept, or becomes the largest integer if it is larger; anything else, missing or malformed, becomes the default |
| `Paginate.LinkedPage` | internal/frontend/paginate.go:38-43 | the page number that a link carries is the one its request reads |
| `Paginate.NumPagesLeast` | internal/frontend/paginate.go:140-142 | the least number of pages that holds all results |
| `Paginate.PagesPartition` | internal/frontend/paginate.go:140-151 | each result is on exactly one page, which is among those counted |
| `Paginate.PagesFull` | internal/frontend/paginate.go:140-151 | no counted page is empty and all but the last are full |
| `Paginate.FollowVisits` | internal/frontend/paginate.go:164-169 | the next links visit page 1 and then each further page once, in order, then end, also when there are no results |
| `Paginate.NextThenPrev` | internal/frontend/paginate.go:155-169 | next and previous undo each other |
| `Paginate.PagesToLink` | internal/frontend/paginate.go:122-136 | a run of consecutive valid pages, as many as asked for or as there are, with the current page in it, in the middle where there is room |
| `Paginate.NumPagesFits` | internal/frontend/paginate.go:140-142 | in 64-bit arithmetic the number of pages is right if and only if the sum fits |

## Left out

- HTTP handlers, templates, configuration, logging, metrics and commands: input, output and wiring.
- The fetch loop over getters and `findModule`: each returns the first result that is not "not found"; the cache model takes the outcome of a fetch as given.
- The cache's replacement policy: the model evicts anything at any time, which covers it.
- `LatestModuleVersions`: the deprecation and retraction fields it fills in are not part of the cached value.
- Markdown parsing, HTML rendering, link extraction and rewriting of links and heading levels.
- UTF-8 decoding and `unicode.ToLower`: strings for search are rune sequences, and lower-casing beyond ASCII is a parameter.
- Floating point: scores are reals, so rounding in the sum is not modelled.
- The synopsis that `Search` parses for each result.
- Build constraint matching, parsing and rendering of packages: parameters that depend on the matched files alone, as the code assumes.
- `loadPackageMeta`: the memo-free variant of `loadPackage`; the task model takes its result as a function of the directory.
- Package paths for the standard library: packages and states are identified by directory, while the code reports states under the joined path.
- PackageFiles.Phase1: `path.Join` and `path.Dir` are taken on clean paths, so an entry is a directory and a name.
- Transact.DB.Once: a commit that reports an error counts as not committed; the network may have lost only the answer.
- Transact.DB.WithRetry: the lock around the retry statistic and other users of it are not modelled.
- BulkUpdate.BulkUpdate: the text of its query is a parameter.
- Upserts and the reading of returned rows: only whether reading fails.
- GopPackage.Transform: each declaration has its own function object and identifier, as go/doc makes them; syntax trees below a field are opaque.
- The transformation of the builtin package, which the code has switched off.
- The codec's code generator, floats, byte slices and the encoding of token.FileSet; unregistered types, which fail at once.
- The allocation that a hostile length in a stream asks for.
- URL, the rest of a page's address, and the fields of `newPagination` that copy its arguments.
- Fields of the codec's structs whose type has changed under the same number.
