# Transfer Scout: verified model

A Dafny model of the parts of the Transfer Scout API that decide what ends up in its
database, with proofs of what they promise:

- **The club roster** (`Text`, `LetterTables`, `LeagueOrder`, `Permutations`, `Roster`,
  `RosterChecks`, `RosterLoading`, `RosterLookup`, `AffixSpelling`, `SpellingResolution`): normalising a club spelling, loading the league files, and
  resolving a spelling by exact key, unambiguous alias, then affix-stripped key.
- **The roster sync** (`ClubTables`, `RenamePlan`, `RosterStatements`, `RosterSync`,
  `RosterConvergence`, `LeagueMembership`, `SyncReport`, `ClubIdentity`): planning renames of stored clubs, the
  league upsert, the club upsert and the detach, on tables with the unique indexes on
  `lower(name)`; one pass converges, and which row a spelling leads to never changes.
- **Its SQL text** (`SqlText`, `RosterSql`): every generated `VALUES` list reads back as the
  entries it was built from.
- **The extract stage** (`ExtractQueue`, `Pipeline`, `ExtractOutcomes`): draining the article queue batch by batch
  when marking an article can fail, articles keep arriving, and the run can be capped or
  interrupted.
- **Rumour clustering** (`Rumours`, `Clustering`, `RumourHistory`, `StoredReports`,
  `NudgeHistory`, `RumourStore`): one extracted report at a time, any store call of which may fail before or after
  it took effect; closed forms over whole histories, which reports share a rumour, absorption of
  replays, and when source scores move.
- **The reclassify command** (`Reclassify`): grouping the join rows, one verdict per article, and
  a cascading delete of exactly the condemned rumours.
- **Small text functions** (`ArticleText`, `Utf8`): joining and splitting an article's text,
  cutting UTF-8 between characters.

`dafny verify dfyconfig.toml` checks everything.

## How the model is built

Code that changes things in place is a class or a method with loops; its contract ties the new
state to a specification function of the old one, and the properties are lemmas about that
function. `RosterSync.ClubStore` and `RumourStore.Store` hold the tables, with the unique indexes
and foreign keys in their `Valid`; `RumourStore.Clusterer`, `Pipeline.ArticleStore` and
`Reclassify.ReclassifyStore` run the store calls in the source's order. Code made of expressions
(normalisation, lookup, status transitions, SQL literals) is functions. What such a function means
is stated without it: `SpellingResolution` speaks of names and aliases, `RosterChecks` of the league
files, `SyncReport` of the tables before and after, `ExtractOutcomes` of thresholds and stored
extractions, `StoredReports` of a report's own columns, and `LetterTables` lists the letters.

Tables are sequences in `(created_at, id)` order. An insert appends a row with a fresh id: the
clock does not go back. Ids are numbers. Fees are whole cents and scores are reals. Go's and
Postgres's `lower` are one function, a per-character case mapping in which equal lower-case forms
imply equal upper-case forms.

What the model leaves open is a parameter, and every theorem holds for all its values: how
each store call of an upsert ends, a failing one before or after it took effect
(`Clustering.Faults`), what the extractor and the classifier answer, which marks fail, when other
articles arrive and when the run is cancelled (`ExtractQueue.Env`), and what the article classifier
answers on each call (`Reclassify.Classifier`).

## What the proofs found

- `RunExtract`'s comment says it drains the queue until it is empty or the cap is reached
  (internal/pipeline/pipeline.go:124-125). It does so exactly when fewer than `batchSize` articles
  ahead of the last one cannot be marked (`Pipeline.AllWithinReach`,
  `Pipeline.NeverAttemptedLeft`); otherwise it stops early with articles never attempted, without
  an error and without `Capped`, as it does on 51 articles none of which can be marked
  (`Pipeline.SomeRunStopsEarly`).
- `justResolved` is meant to trigger the score nudge once (internal/store/rumours.go:260-265).
  The nudge is made exactly when the resolving report's upsert and event insertion report no error
  and the nudge takes effect. Otherwise it is lost for good, since no later report resolves the
  rumour again (`NudgeHistory.NudgedIffReached`): a first report that confirms a transfer and whose
  event cannot be stored is one case (`NudgeHistory.NudgeLost`).
- Accents are optional in a club spelling (internal/store/roster_test.go:182) except in the affix
  that is cut: two spellings with one key resolve alike exactly when the key itself decides, or the
  keys left without the affixes agree or lead nowhere (`AffixSpelling.AccentsAreOptional`), and so
  whenever they carry the same affix or none (`AffixSpelling.SameAffixResolvesAlike`). With a club
  `X`, `X FC` resolves and `X FÇ` does not (`AffixSpelling.AffixNeedsItsLetters`).
- Splitting an article's text undoes the joining (internal/extract/gated.go:43-45) exactly when
  the title has no blank line and, if there is a body, does not end in a newline
  (`ArticleText.JoinSplitRoundTrip`, `ArticleText.TitlesThatDoNotSurvive`).

## Model

| member | source | states |
|---|---|---|
| `Text.TidyIdempotent` | internal/store/roster.go:175-177 | tidying a tidy name changes nothing |
| `Text.TidyIgnoresWhitespaceRuns` | internal/store/roster.go:175-177 | any whitespace run may be replaced by any other, and leading and trailing ones dropped |
| `Text.KeyIgnoresCase` | internal/store/roster.go:179-181 | spellings that agree up to case have one key |
| `Text.KeyOfFolded` | internal/store/roster.go:179-191 | a key is the tidied folded lower-case text, so it depends on that text only |
| `Text.StripIgnoresCase` | internal/store/roster.go:193-206 | stripping affixes from spellings that agree up to case leaves spellings that agree up to case |
| `LetterTables.AsciiCase` | internal/store/roster.go:180 | lower- and upper-casing turn the listed ASCII letters into each other and change no other ASCII character |
| `LetterTables.LatinCase` | internal/store/roster.go:180 | the same for the accented letters of Latin-1 |
| `LetterTables.ExtendedCase` | internal/store/roster.go:180 | lower-casing turns the listed capitals of the first part of Latin Extended-A, and no other character there, into small letters |
| `LetterTables.ExtendedCaseBack` | internal/store/roster.go:194 | upper-casing turns those small letters back |
| `LetterTables.ExtendedCaseToo` | internal/store/roster.go:180 | the same lower-casing for the rest of Latin Extended-A |
| `LetterTables.ExtendedCaseBackToo` | internal/store/roster.go:194 | and the same upper-casing |
| `LetterTables.PlainIsFolded` | internal/store/roster.go:183-191 | exactly the listed accented letters are folded, each to its plain letters |
| `LetterTables.AccentsDropped` | internal/store/roster.go:179-191 | a text and the same text with its accents dropped have one key, the tidied plain text |
| `LetterTables.SpacesAre` | internal/store/roster.go:176 | white space is exactly the listed characters |
| `LetterTables.TrimIs` | internal/store/roster.go:197-203 | trimming takes white space off both ends and leaves none there |
| `LeagueOrder.LessIs` | internal/store/roster.go:110 | a string comes before another exactly when it is a proper prefix of it or smaller at the first difference |
| `Roster.LoadIgnoresFileOrder` | internal/store/roster.go:57-112 | neither whether the league files load nor the roster they give depends on the order of the files |
| `Roster.SortedOrderIsUnique` | internal/store/roster.go:110 | leagues with distinct names have exactly one sorted order |
| `Roster.SortSorts` | internal/store/roster.go:110 | the sort leaves the leagues in order of name |
| `RosterChecks.LoadableIs` | internal/store/roster.go:62-139 | files load exactly when there are some, every league and club is named and tidy, no two leagues and no two clubs collide, and no alias is empty, repeated within its club, or any club's name |
| `RosterLoading.ClaimAliases` | internal/store/roster.go:88-96 | a club's aliases are accepted exactly when none is empty, repeated or its own name, and then its claims, and no others, are recorded |
| `RosterLoading.ResolveAliases` | internal/store/roster.go:101-108 | loading fails here exactly when some alias is a club's name; otherwise the alias index keeps exactly the keys one club claims, in whatever order the map is visited |
| `RosterLoading.LoadRoster` | internal/store/roster.go:57-112 | the loops succeed exactly on loadable files and build the roster's two indexes and sorted leagues |
| `RosterLookup.LoadedRoster` | internal/store/roster.go:57-112 | the roster the files give is itself loadable, holds the files' leagues, and its indexes are those of its sorted entries |
| `RosterLookup.OwnNameResolves` | internal/store/roster.go:151-166 | every club name resolves to its own entry |
| `RosterLookup.LookupFindsEntries` | internal/store/roster.go:151-166 | what a spelling resolves to is a club of the roster |
| `RosterLookup.AliasResolvesIffUnshared` | internal/store/roster.go:101-108 | an alias key is in the alias index exactly when one club alone claims it, leads to that club, and is no club's name |
| `SpellingResolution.AliasResolves` | internal/store/roster.go:159-161 | every spelling with the key of an alias that one club alone has resolves to that club |
| `SpellingResolution.LookupIs` | internal/store/roster.go:151-166 | a spelling resolves to a club exactly when it is the club's name, or else an alias of that club alone, or else the club's name with one of the five affixes |
| `RosterLookup.LookupIgnoresCase` | internal/store/roster.go:151-173 | spellings that agree up to case resolve alike, and their canonical names agree up to case |
| `RosterLookup.LookupIgnoresWhitespaceRuns` | internal/store/roster.go:151-177 | whitespace runs do not matter to what a spelling resolves to, nor to its canonical name |
| `RosterLookup.CanonicalNameIdempotent` | internal/store/roster.go:168-173 | the canonical name of a canonical name is itself, and it resolves like the spelling |
| `RosterLookup.EntryNamesDistinct` | internal/store/roster.go:82-86 | roster clubs whose names agree up to case are one club |
| `AffixSpelling.AccentsAreOptional` | internal/store/roster.go:151-166 | spellings with one key resolve alike exactly when the key is empty or indexed, or the keys left without their affixes agree or are both no club's |
| `AffixSpelling.SameAffixResolvesAlike` | internal/store/roster.go:151-206 | spellings with one key that carry the same affix, or none, resolve alike |
| `AffixSpelling.AffixIsOneOfFive` | internal/store/roster.go:193-206 | the affix found is one of the five, and none is found exactly where none of them is |
| `AffixSpelling.AffixedNameResolves` | internal/store/roster.go:162-206 | a club's name with any of the five affixes added leads to the club, unless the whole text is a name or an alias, or a prefix was added to a name ending in an affix |
| `AffixSpelling.AffixNeedsItsLetters` | internal/store/roster.go:193-206 | there is a roster for which two spellings with one key do not resolve alike: affixes are matched before accents are folded |
| `RenamePlan.PlanRenames` | internal/store/roster_sync.go:95-113 | the loop over the holder map renames exactly the elected rows and reports every other misnamed row as unmerged, both in table order |
| `RenamePlan.Holders` | internal/store/roster_sync.go:95-98 | the first loop maps every lower-cased name to the row stored under it and nothing else |
| `RenamePlan.HolderDecides` | internal/store/roster_sync.go:105-109 | finding the name free, or held by the row itself, means exactly that the row is elected |
| `RenamePlan.OneRowPerClub` | internal/store/roster_sync.go:95-113 | each roster club gets at most one renamed row |
| `RenamePlan.ClubGetsARow` | internal/store/roster_sync.go:95-113 | a club some row resolves to and no row holds exactly gets a renamed row: its case variant if there is one, otherwise the oldest row resolving to it |
| `RenamePlan.ExactRowBlocksRenames` | internal/store/roster_sync.go:105-109 | a club that a row holds exactly gets no other row |
| `RenamePlan.EverySubsetIsUnique` | internal/store/roster_sync.go:95-113 | whichever of the planned renames have happened, lower-cased names are distinct |
| `RenamePlan.RenamesSafeInAnyOrder` | internal/store/roster_sync.go:116-128 | applying planned renames one at a time, in any order and with repetitions, keeps the unique index after every step |
| `RosterStatements.UpsertClubsStep` | internal/store/roster_sync.go:150-169 | inserting or updating one more entry on conflict takes the set-wise result of n entries to that of n + 1 |
| `RosterStatements.UpsertLeaguesStep` | internal/store/roster_sync.go:138-148 | the same for one more league |
| `RosterStatements.SyncedValid` | internal/store/roster_sync.go:27-73 | a sync keeps the unique indexes, the ids and the league references |
| `RosterStatements.GetOrCreateValid` | internal/store/clubs.go:11-34 | so does getting or creating a club |
| `RosterSync.ClubStore.GetOrCreateClub` | internal/store/clubs.go:11-34 | the tables and the id returned are those of the specification, and the constraints hold |
| `RosterSync.ClubStore.RenameClubs` | internal/store/roster_sync.go:116-128 | updating row by row, each rename checked against the table as the statement found it, renames exactly the elected rows, keeps the unique index at every step and returns every planned id |
| `RosterSync.ClubStore.UpsertLeagues` | internal/store/roster_sync.go:138-148 | the loop leaves existing leagues stamped, missing ones added in roster order, and affects one row for each league |
| `RosterSync.ClubStore.UpsertClubs` | internal/store/roster_sync.go:150-169 | the loop leaves every existing roster club stamped, adds the missing ones in roster order, and affects one row for each entry |
| `RosterSync.ClubStore.DetachDeparted` | internal/store/roster_sync.go:171-191 | exactly the rows in a roster league that are no roster club lose their league, and their number is returned |
| `RosterSync.ClubStore.SyncRoster` | internal/store/roster_sync.go:27-73 | the plan and the batch together give the synced tables and the report, and the constraints hold |
| `RosterSync.ElectedFound` | internal/store/roster_sync.go:124-125 | the rename statement finds a planned rename for a row exactly when it is elected, and its NOT EXISTS lets every planned rename through |
| `RosterSync.AllReported` | internal/store/roster_sync.go:55-68 | once the statement reports every planned id, every rename is listed as renamed and none as unmerged |
| `RosterSync.CollectEntries` | internal/store/roster_sync.go:193-201 | the nested loops list every club with its league, league by league |
| `RosterConvergence.SyncSettles` | internal/store/roster_sync.go:27-73 | after a sync the tables say what the roster says |
| `RosterConvergence.SettledIsFixed` | internal/store/roster_sync.go:27-73 | a sync of such tables changes nothing, renames nothing and detaches nothing |
| `RosterConvergence.SyncConverges` | internal/store/roster_sync.go:27-114 | for every valid table and every loadable roster, a second sync changes no row, renames and detaches nothing and reports the same unmerged list |
| `RosterConvergence.MisnamedAfter` | internal/store/roster_sync.go:95-113 | a row is misnamed after a sync exactly when it was before and was not elected, and then keeps its name |
| `RosterConvergence.NoRowLost` | internal/store/roster_sync.go:116-191 | a sync deletes no row and keeps every id |
| `SyncReport.DetachedRows` | internal/store/roster_sync.go:71 | the detached figure is the number of rows that had a league before the sync and have none after |
| `SyncReport.ClubRowsCounted` | internal/store/roster_sync.go:70 | the clubs figure is the number of rows named like a roster club after the sync |
| `SyncReport.LeagueRowsCounted` | internal/store/roster_sync.go:69 | the leagues figure is the number of rows named like a roster league after the sync |
| `SyncReport.RenamedRows` | internal/store/roster_sync.go:60-66 | the renamed list holds exactly the rows whose name the sync changed, with the name each had and has |
| `SyncReport.UnmergedRows` | internal/store/roster_sync.go:39-41 | the unmerged list holds exactly the rows that after the sync still resolve to a club of another name, with both names |
| `SyncReport.ReportInOrder` | internal/store/roster_sync.go:76-113 | both lists are in table order, each row once |
| `LeagueMembership.RosterClubHasItsLeague` | internal/store/roster_sync.go:150-169 | after a sync a row named like a roster club, up to case, has exactly that club's name, short name and league |
| `LeagueMembership.RosterClubHasItsCrest` | internal/store/roster_sync.go:154-167 | such a row shows the roster's crest, or keeps the one it had if the roster has none |
| `LeagueMembership.OtherRowsDetached` | internal/store/roster_sync.go:171-191 | every other row is as before, but has lost its league exactly when it was in a roster league |
| `LeagueMembership.AddedRowsAreRosterClubs` | internal/store/roster_sync.go:150-169 | every row a sync adds is a roster club's |
| `LeagueMembership.RosterLeaguesNamed` | internal/store/roster_sync.go:138-148 | after a sync a league row named like a roster league, up to case, has its spelling and short name; every other league row is as before |
| `ClubIdentity.StepKeepsLeader` | internal/store/clubs.go:11-34 | getting another club or syncing the roster keeps the row a spelling leads to |
| `ClubIdentity.GetReturnsLeader` | internal/store/clubs.go:11-34 | getting a club returns the row its spelling already led to, if any, and afterwards the spelling leads to it |
| `ClubIdentity.IdentityIsStable` | internal/store/clubs.go:11-34 | over any run of gets and syncs, a later spelling returns the id an earlier one returned exactly when their canonical names agree up to case |
| `ClubIdentity.UnknownSpellingsKeepOff` | internal/store/clubs.go:20-32 | a spelling outside the roster never lands on a row that is, or resolves to, a roster club, and never gives its row a league |
| `ClubIdentity.KnownSpellingsFillTheRow` | internal/store/clubs.go:12-32 | a spelling of a roster club leaves its row with the roster's short name, crest (if the roster has one) and league (if it is stored) |
| `ClubIdentity.GetAddsRow` | internal/store/clubs.go:12-32 | getting a club whose canonical name is not stored adds one row bearing exactly that name, with the roster's short name, crest and stored league for a roster club and nothing otherwise |
| `ClubIdentity.GetFillsRow` | internal/store/clubs.go:12-32 | getting a club whose canonical name is stored returns that row and changes no other; an unknown spelling changes nothing, a roster club takes the roster's short name, and its crest and league where there is one |
| `ClubIdentity.GetKeepsRows` | internal/store/clubs.go:25-32 | getting a club touches no other row, renames nothing and blanks no column |
| `SqlText.LiteralRoundTrip` | internal/store/roster_sync.go:210-212 | reading a quoted literal under the quote-doubling rule of section 5.3 of ISO/IEC 9075-2 gives back the text, whatever characters it holds |
| `SqlText.ValuesRoundTrip` | internal/store/roster_sync.go:156-160 | reading the rows of a generated VALUES list gives back the rows, in order, and what follows the list |
| `RosterSql.ListEndsHere` | internal/store/roster_sync.go:123-126 | text that starts, after blanks, with anything but a comma ends a VALUES list, as the fixed text after every list does |
| `RosterSql.RenameLine` | internal/store/roster_sync.go:121 | a rename's row casts the id and not the name |
| `RosterSql.RenameClubsSQL` | internal/store/roster_sync.go:116-128 | the statement is its head, a VALUES list that reads back as the ids and new names, and its tail |
| `RosterSql.UpsertLeaguesSQL` | internal/store/roster_sync.go:138-148 | the statement is its head, a VALUES list that reads back as the leagues, and its tail |
| `RosterSql.UpsertClubsSQL` | internal/store/roster_sync.go:150-169 | the statement is its head, a VALUES list that reads back as the entries, and its tail |
| `RosterSql.DetachDepartedClubsSQL` | internal/store/roster_sync.go:171-191 | the statement is its head, a list that reads back as the league names, its middle, a list that reads back as the club names, and its tail |
| `ArticleText.JoinSplitRoundTrip` | internal/extract/gated.go:46-49 | splitting the joined text gives back title and body exactly when the title has no blank line and, if there is a body, does not end in a newline |
| `ArticleText.TitlesThatDoNotSurvive` | internal/extract/gated.go:46-49 | a title ending in a newline and a title with a blank line are given back changed |
| `Utf8.EncodedIsValid` | internal/extract/jev.go:115-124 | every sequence of Unicode scalar values, encoded as section 3 of RFC 3629 says, is valid |
| `Utf8.ValidIsEncoded` | internal/extract/jev.go:115-124 | every valid text is such an encoding |
| `Utf8.CutBetweenCharacters` | internal/extract/jev.go:120 | a prefix of valid UTF-8 (section 3 of RFC 3629) is valid exactly when the cut is at the end or in front of a start byte |
| `Utf8.TruncateUtf8` | internal/extract/jev.go:116-124 | the result is a prefix within the limit; of valid text it is valid, at most 3 bytes short of the limit, and no longer valid prefix fits |
| `ExtractQueue.QueueAfter` | internal/store/articles.go:33-65 | once the first p queued articles are attempted, the queue is those that could not be marked, then the rest |
| `ExtractOutcomes.QueuePlace` | internal/store/articles.go:36-41 | every unprocessed row is queued at the place given by the unprocessed rows before it |
| `ExtractOutcomes.QueueRow` | internal/store/articles.go:36-41 | every place in the queue is such a row's |
| `ExtractOutcomes.OutcomeIs` | internal/extract/gated.go:22-41 | an article below the threshold is rejected whatever the extractor would say; one at or above it is what its extraction makes of it; a failed classification or extraction is a failure |
| `ExtractOutcomes.RowAfterRun` | internal/pipeline/pipeline.go:215-240 | after a run an attempted row whose mark worked holds nothing if it failed or could not be marshalled, the rejection below the threshold, and otherwise exactly what was extracted; every other row is as it was |
| `ExtractOutcomes.CountersAre` | internal/pipeline/pipeline.go:215-268 | each counter of a run is the number of attempted articles that failed, were rejected, were incomplete, were not stored, were stored, or could not be marked |
| `ExtractQueue.ReachIs` | internal/pipeline/pipeline.go:147-156 | an article is within reach of an uncapped run exactly when fewer than batchSize articles before it cannot be marked |
| `Pipeline.ArticleStore.ListUnprocessed` | internal/store/articles.go:35-56 | the first limit unprocessed articles, oldest first |
| `Pipeline.ArticleStore.MarkExtracted` | internal/store/articles.go:62-65 | exactly the article's row becomes processed with its extraction, or nothing changes when the call fails |
| `Pipeline.ArticleStore.ClusterOne` | internal/pipeline/pipeline.go:242-268 | exactly the counter of the article's outcome goes up by one |
| `Pipeline.ArticleStore.ExtractOne` | internal/pipeline/pipeline.go:215-240 | the counters and the table move on by this one article, which is marked whatever its outcome if the mark works |
| `Pipeline.ArticleStore.Attempt` | internal/pipeline/pipeline.go:170-172 | one step of the loop adds the next queued article to those attempted, counted and extracted |
| `Pipeline.ArticleStore.RunBatch` | internal/pipeline/pipeline.go:161-173 | a batch is attempted in order up to the cap or the cancellation; what a cancellation leaves is counted as skipped |
| `Pipeline.ArticleStore.Round` | internal/pipeline/pipeline.go:137-178 | one round attempts at least one article or ends the run; it ends drained exactly at the reach, and capped only with an article left within reach |
| `Pipeline.ArticleStore.AwaitList` | internal/pipeline/pipeline.go:138-145 | before a round: interrupted exactly by a cancellation, failed exactly by a failing list call; arrivals leave the attempted articles the front of the queue |
| `Pipeline.BatchIs` | internal/pipeline/pipeline.go:147-156 | the fresh part of a listed batch is the next stretch of the queue; an empty one means the reach is attempted, a short listing that the whole queue is taken |
| `Pipeline.ArticleStore.RunExtract` | internal/pipeline/pipeline.go:132-200 | for every pattern of failures and arrivals the run ends, attempts each article at most once, in queue order and within the cap, makes at most cap + 1 list calls, and its counters add up at every exit; it is interrupted only by the first cancellation it sees and fails only at the first list call that fails |
| `Pipeline.ArrivalsKeepPlace` | internal/store/articles.go:40 | new articles join the queue behind what has been attempted |
| `Pipeline.QueueLeft` | internal/pipeline/pipeline.go:236-239 | processed articles grow by exactly the attempted ones less the unmarked ones; the unmarked ones head the queue left |
| `Pipeline.AllWithinReach` | internal/pipeline/pipeline.go:124-131 | an uncapped run reaches the whole queue exactly when fewer than batchSize articles before the last cannot be marked |
| `Pipeline.CappedMeansWorkLeft` | internal/pipeline/pipeline.go:162-184 | with fewer than batchSize unmarked articles, Capped says exactly whether a never-attempted article is queued; if not, all that is left failed its mark in this run |
| `Pipeline.NeverAttemptedLeft` | internal/pipeline/pipeline.go:153-156 | in general a never-attempted article is left exactly when the run was capped or batchSize articles before the last cannot be marked |
| `Pipeline.LastArticleNotReached` | internal/pipeline/pipeline.go:153-156 | whenever no mark goes through, a run over batchSize + 1 articles that returns without error attempts exactly batchSize of them, uncapped |
| `Pipeline.SomeRunStopsEarly` | internal/pipeline/pipeline.go:31-156 | a concrete run environment and queue of 51 articles of which every such run reaches 50, leaving one never attempted without being capped |
| `Pipeline.NoArrivals` | internal/pipeline/pipeline.go:142 | without arrivals every list call sees the rows the run started with |
| `Rumours.HistoryClosedForm` | internal/store/rumours.go:273-313 | after any history a key has a row exactly when some report named it, and the row is the closed form of the key's reports: status, fee range, last selling club, latest summary and confidence |
| `Rumours.FinalStatusUnique` | internal/models/models.go:26-58 | the first terminal status reported, or else the highest-ranked one, is one status |
| `Rumours.ProgressIs` | internal/models/models.go:26-58 | a status moves forward along rumoured, talks, advanced, medical, or to one of the two that resolve the rumour, and from those nowhere |
| `Rumours.StatusIgnoresOrder` | internal/models/models.go:42-58 | without a terminal report the order of the reports does not matter to the status |
| `Rumours.StatusNeverRegresses` | internal/store/rumours.go:280-287 | an upsert keeps a terminal status and never lowers a status's rank |
| `Rumours.FeesIgnoreOrder` | internal/store/rumours.go:301-302 | the order of the reports never matters to the fee range |
| `Rumours.FeeRangeCovers` | internal/store/rumours.go:301-302 | the stored range covers every report's, and is well ordered once one report gave both ends in order |
| `Rumours.AbsorbedUpdate` | internal/store/rumours.go:298-305 | storing a report a row has absorbed moves only its selling club, summary and confidence |
| `Rumours.UpsertRowValid` | internal/store/rumours.go:298 | an upsert keeps the unique key on player, destination club and window |
| `Clustering.PlayerValid` | internal/store/players.go:15-23 | getting a player returns the row its name led to, if any, matched up to case and surrounding whitespace, and otherwise adds one under exactly the trimmed name; the unique index holds |
| `Clustering.PlayerKept` | internal/store/players.go:15-23 | getting another player keeps the row a name leads to |
| `Clustering.UpsertValid` | internal/cluster/cluster.go:49-122 | whichever store calls fail, before or after taking effect, an upsert keeps every unique index and foreign key of players, clubs, leagues, rumours, events and sources (articles apart), and no source appears or disappears |
| `Clustering.ResolveValid` | migrations/0001_init_schema.up.sql:53-85 | resolving names leaves a row for the player and each club that the rumour will refer to, and keeps every constraint |
| `RumourHistory.RumoursAreEffects` | internal/cluster/cluster.go:80-93 | the rumours table after a history is that of the upserts that went through, in order |
| `RumourHistory.HistoryIsClosedForm` | internal/cluster/cluster.go:49-122 | from an empty rumours table, whatever fails on the way and whatever syncs run in between, each rumour is the closed form of the reports stored for it |
| `StoredReports.UpsertResultIs` | internal/cluster/cluster.go:49-122 | an incomplete report is refused and changes nothing; a complete one is stored if every call works and its source is known, and only if every call up to the event worked |
| `StoredReports.StoredRow` | internal/cluster/cluster.go:73-90 | a stored report is in its rumour's row, which alone is new or changed: a first report column by column; a later one moves the status forward only, widens the fee range to its own, and sets summary, confidence and a named selling club |
| `StoredReports.StoredEvent` | internal/cluster/cluster.go:95-104 | its event is added with the report's status, fees, summary, confidence, article and source, unless the article has one on the rumour |
| `StoredReports.HistoryOfReports` | internal/cluster/cluster.go:49-122 | from an empty rumours table, whatever fails on the way, a key has a rumour exactly when a report naming it went in, and the row is the closed form of what those reports say, in order |
| `RumourHistory.SharedRumour` | internal/cluster/cluster.go:54-93 | two reports stored in one history, whatever happens between them, return one rumour exactly when their players agree up to case and surrounding whitespace, their canonical destination clubs agree up to case, and their windows are equal |
| `RumourHistory.StoredIsAbsorbed` | internal/cluster/cluster.go:80-106 | a report all of whose store calls succeeded has its names, its event and its figures in the store |
| `RumourHistory.ReplayAbsorbed` | internal/cluster/cluster.go:49-122 | replaying such a report changes no event, score or player and adds no club; if its upsert goes through, one rumour's selling club (if named), summary and confidence become that report's, and otherwise no rumour changes |
| `RumourHistory.ReplayChangesNothing` | internal/cluster/cluster.go:49-122 | so does replaying it after any later history of reports, failures and syncs, whichever calls of the replay fail; if none does, the three columns move back to that report's values and it returns the same rumour |
| `NudgeHistory.NudgeIs` | internal/cluster/cluster.go:108-119 | scores move only when a rumour resolves, by 2 up if confirmed and 2 down if collapsed, stopping at 0 and 100, for exactly the sources with an event on it at that moment |
| `NudgeHistory.ResolvingResult` | internal/cluster/cluster.go:80-121 | an upsert that resolves its rumour returns it when none of its last three calls reports an error and its source is known, and an error otherwise |
| `NudgeHistory.NudgedAtMostOnce` | internal/store/rumours.go:260-265 | over every history, whichever calls fail, a rumour moves scores at most once |
| `NudgeHistory.ResolvedWereNudged` | internal/store/rumours.go:260-265 | while no operation fails between its rumour's upsert and the nudge, the rumours nudged for are exactly the rumours resolved |
| `NudgeHistory.NudgedIffReached` | internal/cluster/cluster.go:80-119 | a resolved rumour is ever nudged for exactly when the resolving report's upsert and event insertion reported no error and its nudge took effect |
| `NudgeHistory.NudgeLost` | internal/cluster/cluster.go:95-119 | a concrete first report, confirmed, whose event cannot be stored: its rumour is resolved and no later history moves a score for it |
| `NudgeHistory.ScoresAreNudges` | internal/store/rumours.go:319-326 | every score is its start with the history's nudges applied in order, each clamped |
| `NudgeHistory.SourceScoreClosedForm` | internal/store/rumours.go:319-326 | a score that never meets a bound is its start plus 2 for each confirmed and minus 2 for each collapsed rumour it reported on |
| `NudgeHistory.ScoresStayInRange` | internal/store/rumours.go:322 | scores stay in [0, 100] |
| `RumourStore.Store.GetOrCreatePlayer` | internal/store/players.go:15-23 | the row found or added is the specification's, and nothing changes when the call fails before taking effect |
| `RumourStore.Store.UpsertRumour` | internal/store/rumours.go:273-313 | reading the row, deciding the status and upserting gives the specification's table, row and justResolved |
| `RumourStore.Store.InsertRumourEvent` | internal/store/rumours.go:343-350 | the event is added unless the article has one on the rumour; an unknown source, or a failure before taking effect, adds nothing |
| `RumourStore.Store.NudgeSourceReliability` | internal/store/rumours.go:319-326 | exactly the sources with an event on the rumour move by delta, clamped |
| `RumourStore.Clusterer.UpsertReport` | internal/cluster/cluster.go:49-122 | the store calls in order, with an early exit at each failure, leave exactly the state, result and nudge of the specification, and every unique index and foreign key holds |
| `Reclassify.ReclassifyStore.QueryRows` | internal/store/reclassify.go:34-42 | every row of the join before the cutoff once, ordered by rumour, then by event time and article |
| `Reclassify.OldestFirst` | internal/store/reclassify.go:42 | the rows run from the oldest rumour to the newest, and within a rumour from the oldest event to the newest; ties go by id |
| `Reclassify.ListRumoursForReclassify` | internal/store/reclassify.go:48-68 | the loop appending to the last group builds the grouping function's groups |
| `Reclassify.GroupingKeepsOrder` | internal/store/reclassify.go:48-68 | writing the groups out again, article by article, gives the rows' rumours and articles in their order |
| `Reclassify.GroupingIsComplete` | internal/store/reclassify.go:33-69 | grouping the query's rows yields each rumour before the cutoff once, with exactly the articles on its timeline |
| `Reclassify.JudgeArticles` | cmd/reclassify/main.go:93-111 | asks only about articles without a verdict, one call each and about no others; says whether all are below the threshold; a failure names the article whose call failed |
| `Reclassify.Judge` | cmd/reclassify/main.go:80-128 | one call per article over the whole run and only for articles of the groups, every article judged, the doomed rumours listed in order, and every rumour counted as kept, without articles or doomed |
| `Reclassify.WithoutArticlesAre` | cmd/reclassify/main.go:84-90 | the rumours counted as kept for want of articles are those with none |
| `Reclassify.VerdictsAreExact` | cmd/reclassify/main.go:83-123 | a rumour is listed for deletion exactly when it is old, has an article, and all its articles are below the threshold |
| `Reclassify.DeletionLeavesNothingDangling` | internal/store/reclassify.go:95-120 | a deletion takes exactly the listed rumours and their events, comments and likes, leaves nothing dangling and keeps every article |
| `Reclassify.ReclassifyStore.CountRumourDeletion` | internal/store/reclassify.go:80-93 | the counts are exactly what a deletion would take from each table, and nothing changes |
| `Reclassify.ReclassifyStore.DeleteRumours` | internal/store/reclassify.go:98-120 | the tables are those after the cascading delete, and the counts reported are what went |
| `Reclassify.ReclassifyStore.Run` | cmd/reclassify/main.go:53-154 | a failed classification or a dry run changes nothing; with apply exactly the condemned rumours go; reported counts are exact; no constraint breaks |

## Left out

- HTTP handlers, authentication, rate limiting, feeds, likes, follows, comments, users, configuration, migrations and ingest polling: plumbing or one-row upserts.
- Calls to Claude and Jev, prompts, JSON encoding and the two jevState size limits: answers are parameters.
- Rumour feed filtering and paging: the order of the query has no tie-break.
- Reading the league files: JSON decoding and the crest address check (internal/store/roster.go:114-140) are not modelled; of decodeRosterLeague the non-empty and tidy-name checks are. Which of several load errors is reported is not stated.
- Case mapping beyond ASCII, Latin-1 and Latin Extended-A, special casing (dotted capital I, sharp s, the micro sign) and disagreements between Go's and Postgres's lower: one simple mapping is used for both.
- Club names as bytes: affixes are cut by characters, which is the same cut because affixes are ASCII and the mapping keeps the number of characters.
- Column widths, updated_at and created_at values, NUMERIC rounding.
- More than one extraction worker: the source says UpsertRumour is not safe under that (internal/store/rumours.go:267-272).
- Writes by other sessions between planning the renames and running the batch: the branch that reports a rename the statement skipped (internal/store/roster_sync.go:63-65) is modelled in ReportRenames but not reached.
- A failed batch of a roster sync: the statements run as one transaction, so nothing changes; only the successful batch is modelled.
- Pipeline.ArticleStore.MarkExtracted: a failing mark is taken to have changed nothing, so an unmarked article is still queued.
- rumour_events.article_id: articles are not among the tables clustering works on, so this one foreign key is not modelled there.
- Ties in fetched_at: the article queue's order has no tie-break (internal/store/articles.go:40), so two list calls may order ties differently; the model fixes one order.
- The log lines and printed reports; renamed and unmerged rows are reported as records rather than as formatted text.
- Pipeline.ArticleStore.RunExtract: what becomes of an article is a function of its id, since a run attempts it at most once; arrivals come between list calls and join the end of the queue. A positive cap is not required: a cap of zero or less allows no article.
- Reclassify.ReclassifyStore.QueryRows: stands for the database's join and ordering.
- Reclassify.ReclassifyStore.Run: a failed query, count or delete is not modelled; the delete's comparison of counted and deleted rows is shown never to differ instead of being a branch.
- RosterSql.UpsertClubsSQL: as in the other statement builders, the fixed text around the lists is a parameter; what the statements do to the tables is modelled in ClubTables and RosterSync.
