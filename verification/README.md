# CookOps: verified core

CookOps is an offline-first planner for cooking events. This project models the parts of it that must be right without a
server: the client replica and its clocks, the outbox, the receipt upload queue, the archive format and its checks, the
ingredient search, the cost figures and the operator's backup scripts. The model is written in Dafny; `dafny verify dfyconfig.toml`
checks it.

| modules | what they model |
|---|---|
| Text, Digits, Shapes, Wrappers, Bytes, Lists | JavaScript strings as UTF-16 code units, decimal digits, the texts regular expressions accept, optional values, octets, lists up to order |
| Entries, JsonLexical, JsonText, Canonical, JsonReader | the canonical JSON text an archive is hashed by, and a reader that inverts it (string escapes as in section 7 of RFC 8259, key order as in section 3.2.3 of RFC 8785) |
| ArchiveRelations, ArchiveRules, ArchiveClosure | the relation checks of an archive, record by record, and what follows along chains of references |
| EditDistance, FuzzyScore | the ingredient search: edit distance on a rolling row, and the score bands |
| LastWriter, Replica, EventMetadata, EventQueue, EventRules, EventConvergence, CatalogConfiguration, CatalogRules, CatalogConvergence | pending commands replayed field by field under (time, id) clocks, and why the order does not matter |
| MealRoles, RoleRules | meal roles of an event over whole runs of changes |
| Outbox, OutboxStore, OutboxRules | the durable command queues and their numbering |
| ReceiptUploads, ReceiptQueue, ReceiptRules | the upload state machine with arbitrary replies |
| Calendar, CalendarRules | civil dates by rollover (section 21.4.1 of ECMA-262) and the two range checks |
| Fractions, EventCosts, CostRules, CostTotals, CostOrder, CostAllocation, CostDisplay | exact fractions, the cost projection, its independence of record order, what it conserves, and how far displayed amounts add up |
| Paths, BackupArchive, MediaBackup, MediaRestore, BackupRoundTrip, PublishMedia, StagedTree, RestoreArchive, RestoreRules | backing up a media tree, validating and unpacking the archive, publishing it with a rollback, and what the target holds after a whole restore |
| CopyMappings, CopyRules | mapping the dependencies of a copied ingredient |

What changes in place in the source is a class or a method with loops here, proved against a function of its inputs; what is
computed by expressions is a function, and its properties are lemmas. The modules whose names end in Rules, with JsonText and
CostTotals, say what those functions compute in terms of the texts, records and replies themselves, both ways, so that a
function that accepted another command, left out a condition or stored another value would no longer verify. Everything the
program takes from its host (Unicode normalisation, `localeCompare`, time zones, SHA-256, JSON libraries, network replies,
failing file system steps) is a parameter, and the theorems hold for every choice of it that their `requires` allow.

Four places where the code does less than one might expect are stated as such. A payload with a numeral too large for a
double shares its canonical text, and so its hash, with one that has null there, because an infinite number prints as null
(`JsonReader.InfinitePrintsNull`, with the exact conditions in `JsonReader.CanonicalUnambiguous` and
`JsonReader.TextDetermines`). A token within the tolerance of a long query need not match, because forty plus the distance
must stay below one hundred (`FuzzyScore.ToleranceIsNotEnough`, with the exact condition in `FuzzyScore.MatchesExactly`).
The version 7 upgrade counts queues under a joined text, so two queues can share a count (`OutboxStore.SharedCount`, exactly
characterised by `OutboxStore.NumberingExact`); the user ids the application stores are UUIDs or the empty text, which hold
no colon and so keep the counts apart (`OutboxStore.PlainUsersApart`). A backup with a backslash in a file name, or made
with a blank schema version or application revision, is written but not accepted by the restore; apart from the size limits
these are the only such cases (`BackupRoundTrip.BackupWrittenExactly`, `BackupRoundTrip.AcceptedExactly`).

## Model

| member | source | states |
|---|---|---|
| JsonReader.CanonicalUnambiguous | frontend/src/archive-cache.ts:143-151 | two parsed payloads get the same canonical text exactly when they show the same, that is, are equal up to the order of object members at any depth once infinite numbers are taken for null (the two zeros count as one number) |
| JsonReader.FiniteUnambiguous | frontend/src/archive-cache.ts:143-151 | for payloads without an infinite number, the texts are the same exactly when the payloads are equal up to member order and the sign of zero |
| JsonReader.InfinitePrintsNull | frontend/src/archive-cache.ts:143-151 | the three different payloads read from `{"a":1e400}`, `{"a":-1e400}` and `{"a":null}` have one text, and so one hash |
| JsonReader.TextDetermines | frontend/src/archive-cache.ts:143-151 | no other payload shares the text of a payload, up to member order, exactly when it holds no null and no infinite number |
| JsonReader.CanonicalRecovers | frontend/src/archive-cache.ts:143-151 | a reader recovers from the canonical text of any parsed payload the normal form of what it shows: the payload up to member order, with null in place of infinite numbers |
| JsonReader.ReadStringify | frontend/src/archive-cache.ts:143-151 | the reader inverts the printer on every value without a negative zero or an infinite number, whenever the following text is empty or begins with a comma or a closing mark |
| JsonLexical.ReadNumberText | frontend/src/archive-cache.ts:150 | reading the printed form of a finite number (plain, padded or scientific) gives the number back; only the sign of zero is lost |
| JsonLexical.ReadEscaped | frontend/src/archive-cache.ts:147-150 | reading an escaped string gives back every code unit, including quotes, control characters and lone surrogates |
| Canonical.SameJsonNormalizes | frontend/src/archive-cache.ts:144-149 | equality up to member order, defined by matching members, is equality of normal forms |
| Canonical.CanonicalIsNormalized | frontend/src/archive-cache.ts:144-149 | sorting keys while printing gives the print of the value whose members were sorted first |
| Entries.SortCanonical | frontend/src/archive-cache.ts:146-147 | two lists with the same distinct-keyed members sort to one and the same list |
| JsonText.StringTextIs | frontend/src/archive-cache.ts:147-150 | a string prints between quotes, character by character: seven characters as two-character escapes, the other control characters and lone surrogates as `\u` with four lower-case digits, every other one as itself |
| JsonText.NoShorterText | frontend/src/archive-cache.ts:147-150 | no text that reads as a string without lone surrogates is shorter than its printed text |
| JsonText.ReadStringIs | frontend/src/archive-cache.ts:147-150 | the reader takes a string text apart into pieces that each denote one code unit (itself, one of the eight two-character escapes, or `\u` with four hexadecimal digits of either case), up to the closing quote, and in no other way |
| JsonText.MarksAndWords | frontend/src/archive-cache.ts:143-151 | the punctuation and `null`, `true` and `false`, spelled as ASCII text |
| JsonText.NumberLayout | frontend/src/archive-cache.ts:150 | where a printed number has its sign, its decimal point, its padding zeros and its exponent: plain from 0.000001 up to below 10^21, scientific otherwise |
| JsonText.ObjectTextIs | frontend/src/archive-cache.ts:144-149 | the members of an object print in rising order of their keys, by the first code unit that differs, each once |
| EditDistance.ComputeDistance | frontend/src/ingredient-fuzzy.ts:15-35 | the rolling row, overwritten in place, ends with the recursive edit distance of the two strings taken by code point |
| EditDistance.DistanceIsLeastCost | frontend/src/ingredient-fuzzy.ts:15-35 | the distance is attained by an edit script turning one word into the other, and no script is cheaper |
| EditDistance.ZeroDistance | frontend/src/ingredient-fuzzy.ts:15-35 | the distance is zero exactly for equal words |
| EditDistance.DistanceSymmetric | frontend/src/ingredient-fuzzy.ts:15-35 | the distance is symmetric |
| EditDistance.DistanceTriangle | frontend/src/ingredient-fuzzy.ts:15-35 | the distance obeys the triangle inequality |
| FuzzyScore.SwapTestMeaning | frontend/src/ingredient-fuzzy.ts:80-93 | the test on the list of differing positions holds exactly for words one swap of neighbours apart |
| FuzzyScore.NearestIsPositive | frontend/src/ingredient-fuzzy.ts:94-100 | once the substring tests have failed, no token is at distance zero |
| FuzzyScore.TokensAreWords | frontend/src/ingredient-fuzzy.ts:76 | the tokens of a name are exactly its words: the longest runs of code units outside the white space code points, which are listed, and the empty runs beside them at the two ends |
| FuzzyScore.TokensOfWord | frontend/src/ingredient-fuzzy.ts:76 | a text without white space is its own only token |
| FuzzyScore.TokensSplit | frontend/src/ingredient-fuzzy.ts:76 | a separator of white space between two texts that neither end nor begin with any splits their tokens |
| FuzzyScore.ScoreIs | frontend/src/ingredient-fuzzy.ts:72-101 | the score over words: 0 for equality, 10, 20 and 30 for beginning with, having a word that begins with and containing the query, 40 for one swap, 40 plus the least distance within the tolerance, else 100 |
| FuzzyScore.MatchesExactly | frontend/src/ingredient-fuzzy.ts:72-101 | which names score below 100, for queries of every length: containing the query, one swap away, or with a word, standing between white space, within max(1, length/4) and fewer than sixty edits |
| FuzzyScore.SearchMatchesExactly | frontend/src/ingredient-fuzzy.ts:103-109 | the search matches exactly those names, after normalizing both texts, and nothing for a query that normalizes to the empty text |
| FuzzyScore.MatchesWithinTolerance | frontend/src/ingredient-fuzzy.ts:72-101 | for queries of 3 to 239 code units the tolerance max(1, length/4) is the whole condition |
| FuzzyScore.ToleranceIsNotEnough | frontend/src/ingredient-fuzzy.ts:94-100 | from 240 code units on the tolerance alone is not enough: a concrete pair of each length within it that does not match |
| FuzzyScore.BandsAreOrdered | frontend/src/ingredient-fuzzy.ts:72-101 | every name containing the query scores better than every swap, and every swap better than every match by edit distance |
| LastWriter.ReplayConverges | frontend/src/event-metadata.ts:28-43 | cells under (time, id) stamps end the same after any order, with any repeats, of the same writes with distinct ids |
| LastWriter.ReplayWinner | frontend/src/event-metadata.ts:28-43 | after a replay each cell holds the newest write that beats the base, or the base |
| LastWriter.WinnerUnique | frontend/src/event-metadata.ts:36-42 | that outcome is unique when ids are distinct |
| LastWriter.RunsConverge | frontend/src/event-metadata.ts:229-308 | whatever the records hold, when every command either performs its write on the cells or changes nothing, two runs of the same commands in any order and with any repeats end in the same cells, and one changes something exactly when the other does |
| EventMetadata.EventReplica.Apply | frontend/src/event-metadata.ts:84-139 | the loop over the selected fields puts exactly the winning fields and clocks into the overlay, and reports whether any won |
| EventMetadata.EventReplica.ReplayEventMetadataUpdate | frontend/src/event-metadata.ts:229-308 | a legacy or modern command changes only the overlay of its event, and only if it is well formed |
| EventRules.AcceptedIs | frontend/src/event-metadata.ts:229-308 | a command is accepted exactly when its payload has one of the two key sets, its ids are UUIDs, its time is readable, each text is normal as it stands and within its limit, the budget is a plain decimal and, for the larger key set, the dates are real and span at most 365 days; what it writes is what the payload says |
| EventRules.ReplayOnOpen | frontend/src/event-metadata.ts:84-139 | on an open event an accepted command, legacy or modern, sets exactly the fields it carries whose clocks it beats, and their clocks, and nothing when it beats none |
| EventRules.LegacySetsFour | frontend/src/event-metadata.ts:242-269 | a legacy command with absent or older clocks sets its four values on an open event and leaves both dates and their clocks |
| EventRules.ReplayElsewhere | frontend/src/event-metadata.ts:84-110 | on an event that is retired, not shown as active or of another id or organization the command does nothing, and it touches no other event |
| EventRules.ReplayRefused | frontend/src/event-metadata.ts:229-308 | a command of any other shape changes nothing |
| EventConvergence.EventReplayConverges | frontend/src/event-metadata.ts:111-139 | for every base and commands with distinct ids, legacy and modern mixed, every order of replay with any repeats ends with the same fields, clocks and lifecycle |
| EventConvergence.EventFieldIsNewest | frontend/src/event-metadata.ts:28-43 | each field then holds the accepted write with the greatest (time, id) that beats the base, or the base |
| EventConvergence.DatesStayTogether | frontend/src/event-metadata.ts:111-187 | when the clocks of the two dates begin equal they stay equal, both dates come from the base or from one command, and a range with end at or after start and a span under 366 days stays one |
| EventQueue.QueueEventMetadataUpdate | frontend/src/event-metadata.ts:189-227 | an update is queued exactly when its input is accepted, the event is open and some field wins; it then writes the normalized values into that one overlay and hands over its command, otherwise it throws; no other overlay changes |
| EventRules.QueuedIs | frontend/src/event-metadata.ts:141-227 | an input gives a command exactly when the event id is a UUID and the normalized texts, the budget and the dates are good; the payload of the command, written out |
| EventQueue.QueuedIsAccepted | frontend/src/event-metadata.ts:229-308 | when normalization is idempotent, the replay accepts every command the page queues and takes from it exactly the values written |
| EventQueue.ReplayRepeatsQueue | frontend/src/event-metadata.ts:189-308 | replaying a queued command on the overlay as it was gives what queueing it gave |
| CatalogConfiguration.CatalogReplica.ReplayCatalogConfiguration | frontend/src/catalog-configuration.ts:187-324 | one command of any kind and operation changes only its record (the winning clocked fields, its identity and its lifecycle), for commands whose kind and operation are strings |
| CatalogRules.AcceptedIs | frontend/src/catalog-configuration.ts:187-292 | a command is accepted exactly when its ids, time, kind, operation and payload keys and values are one of the listed shapes |
| CatalogRules.ReplayIs | frontend/src/catalog-configuration.ts:12-68 | an accepted command changes exactly the clocked fields of its kind and operation whose clocks yield: which payload value each field gets (a unit definition takes its name as `custom_name`), the identity, the clocks, the lifecycle and the retirement date |
| CatalogRules.ReplayElsewhere | frontend/src/catalog-configuration.ts:187-324 | no other record changes, and a command of another shape changes none |
| CatalogConvergence.CatalogReplayConverges | frontend/src/catalog-configuration.ts:44-68 | every order of replay with any repeats ends with the same record, whether it existed before or is created by the commands |
| CatalogConvergence.CatalogFieldIsNewest | frontend/src/catalog-configuration.ts:44-68 | each clocked field then holds the accepted write with the greatest (time, id) that beats the base, or the base |
| CatalogConvergence.PresetNamesExclusive | frontend/src/catalog-configuration.ts:83-103 | a meal-role preset whose two name clocks begin equal keeps them equal, and either keeps its first names or has exactly one of custom name and built-in key |
| Calendar.ParseAcceptsGregorian | frontend/src/event-create.ts:30-41 | parsing by rollover and comparison accepts exactly the real Gregorian dates of the years 1 to 9999 |
| Calendar.DaysFollowText | frontend/src/event-create.ts:43-46 | milliseconds are strictly monotone in the text order of recognised dates |
| Calendar.RangeChecksAgree | frontend/src/event-metadata.ts:158-177 | the range check on texts and the range check on milliseconds accept the same pairs of dates |
| CalendarRules.AcceptedIs | frontend/src/event-create.ts:23-41 | a text is a date exactly when it is four, two and two digits with hyphens that name a day of a month of the years 1 to 9999, leap years by the Gregorian rule |
| CalendarRules.DaysCount | frontend/src/event-create.ts:43-46 | days are counted from 1 January 1970 one by one, month by month and year by year, also where months and dates roll over |
| CalendarRules.MillisecondsAre | frontend/src/event-create.ts:43-46 | a date stands for 86400000 milliseconds times its number of days |
| EventCosts.ReadEventCosts | frontend/src/event-cost-projections.ts:154-634 | the loops over recipes, shopping rows and receipts compute the specified projection: totals, displayed amounts, the set of missing names and the map of recipe costs |
| EventCosts.PriceLines | frontend/src/event-cost-projections.ts:371-413 | the loop over the lines of a recipe adds up the priced ones and names the others |
| EventCosts.ScheduleCosts | frontend/src/event-cost-projections.ts:307-424 | the loop over scheduled recipes accumulates the overall total, the missing names and the map of displayed costs |
| CostRules.LineCostIs | frontend/src/event-cost-projections.ts:371-413 | a line of no quantity costs nothing; any other costs, in value, its quantity times amount times source factor over target factor times priced quantity exactly when its ingredient version, price snapshot, price, quantity and both units are found in one dimension and in the currency of the event, and otherwise its ingredient (or the version id when that is unknown) is missing |
| CostRules.PricesAre | frontend/src/event-cost-projections.ts:230-269 | the current price of an ingredient is the last valid one of the event, with its snapshot, state and currency |
| CostRules.VersionsAre | frontend/src/event-cost-projections.ts:205-218 | which ingredient versions are found, and with which ingredient, name and unit |
| CostRules.UnitsAre | frontend/src/event-cost-projections.ts:219-229 | which units are found, and with which factor and dimension |
| CostRules.ContributionsAre | frontend/src/event-cost-projections.ts:454-466 | which contributions are found |
| CostRules.IngredientsAre | frontend/src/event-cost-projections.ts:200-204 | which ingredients are known |
| CostRules.ImmutableVersionsAre | frontend/src/event-cost-projections.ts:295-299 | which ingredient versions are immutable |
| CostRules.EventPricesAre | frontend/src/event-cost-projections.ts:270-291 | which prices and price snapshots of the event a shopping snapshot may refer to |
| CostRules.RecipeVersionsAre | frontend/src/event-cost-projections.ts:292-294 | the recipe version of an id is the last record with it |
| CostRules.CurrentRevisionsAre | frontend/src/event-cost-projections.ts:426-453 | the current revision of a list is the one it names, when that names the list |
| CostRules.AdditionIs | frontend/src/event-cost-projections.ts:359-370 | an active addition of the scheduled recipe is a line of its own, in the quantity written |
| CostRules.ReplacementsAre | frontend/src/event-cost-projections.ts:325-336 | a line is replaced by the last active replacement of the scheduled recipe that targets its key |
| CostTotals.ItemIs | frontend/src/event-cost-projections.ts:307-324 | which scheduled recipes count: active ones of the event with a known version, readable amounts, a base other than zero and a whole number of diners |
| CostTotals.ItemCostIs | frontend/src/event-cost-projections.ts:307-424 | a scheduled recipe costs in value what its resolved lines and its additions cost, per diner a share of that, and misses exactly their missing names |
| CostTotals.ProjectionIs | frontend/src/event-cost-projections.ts:154-634 | the projection shows, to the hundredth, the costs of the counted recipes, the budget, the cost of the shopping rows, what the receipts spend and what remains; it names exactly the missing ingredients and shows each counted recipe |
| EventCosts.GroupSnapshots | frontend/src/event-cost-projections.ts:481-558 | the Map filled with the valid snapshots, and its groups of one, are the valid snapshots whose contribution has no other one, in order |
| EventCosts.GroupsAreSingles | frontend/src/event-cost-projections.ts:552-558 | keeping the groups of one in key order keeps exactly the snapshots without a sibling, in list order |
| EventCosts.PriceRow | frontend/src/event-cost-projections.ts:559-610 | the loop over the snapshots of a row ends with the full row cost or with no cost |
| EventCosts.ShoppingCosts | frontend/src/event-cost-projections.ts:467-611 | the loop over shopping rows adds whole row costs to the forecast and names the others |
| CostTotals.RowScopeIs | frontend/src/event-cost-projections.ts:467-480 | which shopping rows count: of an active row of the event, its list, the current revision of that list and a known ingredient |
| CostTotals.SnapshotIs | frontend/src/event-cost-projections.ts:482-551 | which contribution snapshots of a row are valid, written out |
| CostTotals.SingleIs | frontend/src/event-cost-projections.ts:552-558 | of the valid snapshots those are priced whose contribution has no other one |
| CostTotals.PurchaseIs | frontend/src/event-cost-projections.ts:559-570 | what is bought: the manual target, or what was generated less the supply and never below nothing |
| CostTotals.SnapshotPriceIs | frontend/src/event-cost-projections.ts:573-608 | a snapshot has a unit price exactly when its amount, quantity, currency and both units are found in one dimension |
| CostTotals.RowNameIs | frontend/src/event-cost-projections.ts:609-610 | a missing row is named by its ingredient name, or by its own id without one |
| CostOrder.CostsIgnoreOrder | frontend/src/event-cost-projections.ts:200-621 | when each lookup key occurs once (prices: in the currency of the event), permuting any of the sixteen record lists changes no displayed amount and no missing name |
| Fractions.SumPermuted | frontend/src/event-cost-projections.ts:44-50 | a fraction sum is the same pair of numerator and denominator in every order |
| CostAllocation.AllocationConserves | frontend/src/event-cost-projections.ts:556-600 | the quantities allocated to the snapshots of a row add up to exactly the purchase quantity |
| CostAllocation.ListedRowAtOnePrice | frontend/src/event-cost-projections.ts:467-611 | when all valid snapshots of a listed row that enters the forecast have one price, the row costs the purchase quantity times the unit price, however it is split |
| CostAllocation.SplitDoesNotShow | frontend/src/event-cost-projections.ts:467-611 | two listed rows that enter the forecast, buying the same quantity at the same price, display the same cost, whatever their snapshots |
| CostAllocation.ListedRowWholeOrNothing | frontend/src/event-cost-projections.ts:467-611 | a listed row enters the forecast exactly when something is bought and generated and every one of its valid snapshots has a usable price; it then costs the sum of its shares, which make up the purchase quantity, each at the unit price of its snapshot; its name is missing exactly when it buys something and does not enter |
| CostAllocation.ValidSnapshotsGenerate | frontend/src/event-cost-projections.ts:529-558 | every snapshot a row is priced from states a generated quantity |
| CostAllocation.LineScales | frontend/src/event-cost-projections.ts:323-358 | a line is resolved exactly when it is of the version and has a readable written (or replaced) quantity and ingredient; a fixed line then needs that quantity, any other line that quantity times selected over base amount, in value |
| Fractions.MoneyOfValue | frontend/src/exact-decimal.ts:19-28 | fractions of equal value with positive denominators display alike |
| Fractions.CentsIsNearest | frontend/src/exact-decimal.ts:19-28 | the hundredths are the one whole number within a half of the magnitude, ties away from zero |
| Fractions.MoneyReads | frontend/src/exact-decimal.ts:19-28 | the displayed text reads back as the signed rounded hundredths |
| Fractions.RoundingError | frontend/src/exact-decimal.ts:19-28 | the display is within 1/200 of the value |
| CostDisplay.RecipeTotalsAddUp | frontend/src/event-cost-projections.ts:371-634 | when scheduled recipes have distinct ids, the n amounts in the displayed map of recipe costs add up to the displayed overall total within (n + 1)/200, in the projection itself |
| MediaBackup.CollectMediaDirectory | scripts/backup_archive.py:81-132 | the recursive walk extends its list to the specified collection, or raises on a link, a special file or an unsafe name |
| MediaBackup.CollectFinds | scripts/backup_archive.py:81-132 | a tree of regular files is collected, and exactly the files it holds are found |
| MediaBackup.CollectsExactlyRegular | scripts/backup_archive.py:81-132 | collecting is refused exactly when a symbolic link or a special file lies somewhere below |
| MediaBackup.CollectApart | scripts/backup_archive.py:81-132 | no collected path equals another one or is a directory of another one |
| BackupRoundTrip.MediaCollected | scripts/backup_archive.py:135-164 | collecting both kinds finds exactly the files below them, pairwise apart; a missing directory is skipped |
| BackupRoundTrip.BackupWrittenExactly | scripts/backup_archive.py:135-164 | a backup is written exactly when the root is a directory and each of its two kinds is missing or holds directories and regular files only |
| MediaRestore.ParseManifestFiles | scripts/restore_archive.py:92-124 | the loop over manifest entries accepts what the specification accepts: safe distinct paths of the right kind with a size and a digest |
| MediaRestore.ValidateArchive | scripts/restore_archive.py:130-176 | the accumulating loops accept an archive exactly as specified: names, limits, manifest, declared and actual sizes and digests |
| RestoreRules.AcceptedIs | scripts/restore_archive.py:38-176 | for every archive, whoever made it: it is accepted with these entries exactly when the member names are safe, distinct and those of the manifest and the manifest itself, every limit holds, the manifest is well formed, and the content of each entry reads and has the size and the digest the entry states |
| RestoreRules.PartsAre | scripts/restore_archive.py:38-44 | a path is taken apart at its slashes, empty parts and dots left out |
| RestoreRules.PublishedIsDigested | scripts/restore_archive.py:130-244 | the published tree holds a file exactly where an entry lies below `media`, and every file in it has the size and the digest of its entry |
| RestoreRules.ExtractsExactly | scripts/restore_archive.py:198-218 | unpacking succeeds exactly when every entry can be read and no path equals another one, lies below another one or is one of the directories made first |
| RestoreRules.RestorableIs | scripts/restore_archive.py:187-276 | nothing but a failing step prevents a restore exactly when the target is missing or a directory that is empty or may be replaced, its parent is a directory, the archive is good and its paths stay apart |
| MediaRestore.Stage.ExtractMedia | scripts/restore_archive.py:198-218 | unpacking step by step builds the specified tree, or stops when a directory or a new file cannot be made |
| BackupRoundTrip.AcceptedExactly | scripts/restore_archive.py:130-176 | a fresh backup is accepted exactly when its schema version, application revision and procedure text are not blank and its time is in UTC (the script writes the last two itself), no name has a backslash, each member is at most one GiB, all are at most ten GiB and the manifest is at most one MiB; then its entries are the files backed up |
| BackupRoundTrip.BackupThenRestore | scripts/backup_archive.py:216-243 | for every media tree that can be backed up, the archive is accepted exactly when the header texts and the limits allow, and unpacking it then gives back the dump and exactly the same path-to-bytes map |
| Paths.PartsJoin | scripts/restore_archive.py:38-44 | joining valid names and taking the path apart again gives the names back |
| Paths.JoinInjective | scripts/backup_archive.py:27-31 | different paths of valid names have different texts |
| PublishMedia.FileSystem.Publish | scripts/restore_archive.py:221-244 | with every step allowed to fail: if it raises before the last cleanup the target holds what it held before, otherwise the staged tree, and it returns exactly when no step failed, having taken every step of setting aside, moving, syncing and cleaning up |
| PublishMedia.FileSystem.Place | scripts/restore_archive.py:230-242 | moving the staged tree into place either takes effect or puts back what was set aside |
| StagedTree.StagedIsUnpacked | scripts/restore_archive.py:198-218 | the directory tree unpacking builds for media holds, path by path, exactly the files of the staging directory, and its names are valid and distinct |
| StagedTree.GrowFiles | scripts/restore_archive.py:202-217 | making a file, with the directories on the way, adds exactly that file to the tree |
| RestoreArchive.Restore | scripts/restore_archive.py:247-282 | with every step allowed to fail: it succeeds exactly when the archive is accepted and unpacks, the target is safe and no step fails; the target then holds the media of the archive; unless unpacking and the database step went well, the target is untouched; however it ends, the target holds what it held or the media of the archive, and nothing else is touched |
| RestoreArchive.RestoreGivesBack | scripts/backup_archive.py:216-243 | the tree published for an accepted backup holds exactly the files of the media root backed up, and a backup of it collects the same files again |
| OutboxStore.LocalOutbox.Append | frontend/src/local-db.ts:374-393 | the new command gets one more than the largest number of its queue; a known id changes nothing |
| OutboxStore.LocalOutbox.DiscardFailed | frontend/src/local-db.ts:405-421 | only a failed command of this user and organization is deleted, and the answer says so |
| OutboxStore.LocalOutbox.Settle | frontend/src/sync-dispatcher.ts:260-269 | rejected commands stay as failed, the others are deleted |
| OutboxRules.SettledIs | frontend/src/sync-dispatcher.ts:260-269 | after a push the rejected commands are held as failed, those answered otherwise are gone, and the others are as they were |
| OutboxRules.AppendedIs | frontend/src/local-db.ts:374-393 | the added row, with the number after the largest of its user and organization |
| OutboxRules.DiscardedIs | frontend/src/local-db.ts:405-421 | a row is discarded exactly when it is failed and of this user and organization |
| OutboxRules.ComparedIs | frontend/src/local-db.ts:449-459 | two numbered commands compare by number, any others by time and then by id |
| OutboxRules.UpgradeIs | frontend/src/local-db.ts:191-205 | the upgrade numbers a row by how many rows up to it share the text of user, colon and organization |
| OutboxStore.LocalOutbox.Upgrade | frontend/src/local-db.ts:191-205 | each row gets the count of rows so far under its counting text, and nothing else changes |
| Outbox.RunInOrder | frontend/src/local-db.ts:374-421 | over any run of appends, discards and settled pushes, each queue keeps distinct numbers that rise in append order |
| Outbox.SortIsAppendOrder | frontend/src/local-db.ts:449-459 | an arrangement of a queue sorts by the comparison exactly when it is the append order |
| Outbox.NumberReused | frontend/src/local-db.ts:384-392 | when the newest command of a queue is gone, the next one gets the same number exactly when that was 1 or the number before it is still held in the queue |
| OutboxStore.UpgradeInOrder | frontend/src/local-db.ts:193-204 | after the upgrade the numbers of every queue rise along the order used |
| OutboxStore.UpgradeKeepsOrder | frontend/src/local-db.ts:191-205 | the order that sorted a legacy queue is the only one that sorts it afterwards |
| OutboxStore.NumberingExact | frontend/src/local-db.ts:200-203 | the numbers of every queue run 1 to n exactly when no two queues share their counting text |
| OutboxStore.PlainUsersApart | frontend/src/local-db.ts:200 | user ids without a colon keep the counting texts apart, so every queue runs 1 to n |
| OutboxStore.SharedCount | frontend/src/local-db.ts:200 | two concrete queues that share a counting text, the second of which starts at 2 |
| MealRoles.RunKeepsNamesUnique | frontend/src/event-meal-role.ts:40-540 | every run of create, rename, move, retire and restore, queued or replayed, keeps the normalized names of different roles of one event distinct over both tables together |
| MealRoles.ShownNamesUnique | frontend/src/visible-records.ts:5-62 | so no two roles of an event that the page shows share a name, by its own choice between a canonical row and an overlay, over every run that begins with distinct names |
| MealRoles.ReplayRepeatsQueue | frontend/src/event-meal-role.ts:110-619 | every action the page queues is the one its command replays, when normalization is idempotent and its id and time are readable |
| MealRoles.PutKeepsUnique | frontend/src/event-meal-role.ts:233-253 | storing a row keeps names unique when it keeps the name of its role or takes one that no other row of the event has |
| MealRoles.RetiredEventIsFrozen | frontend/src/event-meal-role.ts:49-64 | requests about an event that is authoritatively retired change nothing |
| MealRoles.RestoreUndoesRetire | frontend/src/event-meal-role.ts:484-540 | after a retirement a restore is accepted exactly when it is about the same event and later than the retirement; it gives the role back as it was, but for its clock, its time and the retirement date |
| MealRoles.RoleReplica.Perform | frontend/src/event-meal-role.ts:40-540 | each change is refused or stored as specified, after looking through both tables for the name |
| MealRoles.RoleReplica.Serve | frontend/src/event-meal-role.ts:110-619 | a request that is not well formed changes nothing, any other performs its change; it succeeds, rather than throws, exactly when it is well formed and its change can be stored |
| RoleRules.AfterIs | frontend/src/event-meal-role.ts:40-540 | a change is stored exactly when the event is open, the role is of the event and in the right part of its life, its clock is beaten and the name is free in both tables; the stored row is written out field by field (a new role with `z` and its id without hyphens as position, a rename with the name and its lower-case form) |
| RoleRules.QueuedIs | frontend/src/event-meal-role.ts:110-591 | which requests of the page are accepted, and the action each becomes |
| RoleRules.ReplayedIs | frontend/src/event-meal-role.ts:159-619 | a replayed command is accepted exactly when its payload is the one that asks for its change, with three UUIDs, a usable time and a name that is normal as it stands |
| RoleRules.NameIs | frontend/src/event-meal-role.ts:6-14 | a valid name is 1 to 200 code units without U+0000 and surrogates |
| Shapes.UuidIs | frontend/src/event-meal-role.ts:4 | the text of a UUID: 8, 4, 4, 4 and 12 hexadecimal digits of either case with hyphens between |
| RoleRules.ShownIs | frontend/src/visible-records.ts:5-62 | which row of a role the page shows: the pending one, unless the authoritative one is no longer active and the pending one does not restore a retired role |
| ReceiptQueue.UploadQueue.DispatchReceiptUploads | frontend/src/receipt-media.ts:240-348 | the loop over pending uploads, with its exits, ends in the specified table, requests and error |
| ReceiptQueue.UploadQueue.TryUpload | frontend/src/receipt-media.ts:258-335 | the body of the attempt, with a ticket, a replacement ticket and reconciliations, updates the row as specified |
| ReceiptQueue.UploadQueue.ReconcileReceiptUpload | frontend/src/receipt-media.ts:209-237 | the row is deleted when a status proves the bytes, failed on a mismatch, and left otherwise |
| ReceiptUploads.AttemptSettles | frontend/src/receipt-media.ts:250-346 | however an attempt ends, its row is pending or failed, never uploading, and it is deleted only after a reply matching type, size and hash |
| ReceiptUploads.PassSettles | frontend/src/receipt-media.ts:240-348 | at every exit of a pass, normal or thrown, the rows before it are settled, the row that threw is pending again and the rest are untouched |
| ReceiptQueue.NoImageIsLost | frontend/src/receipt-media.ts:104-355 | over any run of queueing, dispatching with arbitrary replies and retrying, every queued image is still stored or was confirmed, and no row stays uploading |
| ReceiptRules.AttemptedIs | frontend/src/receipt-media.ts:250-346 | from the replies: the row is deleted exactly when the status asked for at the end proves the bytes, failed as a mismatch exactly when it contradicts them, failed as rejected exactly when what is thrown is a status 400 to 499 but 409, given back as pending exactly when anything else is thrown, and failed without a request when it is not valid |
| ReceiptRules.ProvesIs | frontend/src/receipt-media.ts:209-230 | which replies prove the bytes: a successful status of the attachment, ready, of the type, the size and the hexadecimal digest in either case |
| ReceiptRules.RefusingStatuses | frontend/src/receipt-media.ts:337-338 | of the statuses exactly 400 to 499 without 409 refuse an upload |
| ReceiptRules.NewUploadIs | frontend/src/receipt-media.ts:104-143 | which images are queued, and the row each becomes |
| ReceiptRules.RetriedIs | frontend/src/receipt-media.ts:350-355 | a retry makes a row pending again, without its reason, and changes no other row |
| CopyMappings.InitialMappings | frontend/src/ingredient-copy-panel.tsx:333-355 | the two loops leave each requirement with its first candidate; the second loop changes nothing |
| CopyMappings.MappingsAreComplete | frontend/src/ingredient-copy-panel.tsx:152-186 | the check by groups decides completeness |
| CopyMappings.AutoCompleteIffPossible | frontend/src/ingredient-copy-panel.tsx:152-186 | the automatic mapping is complete exactly when some complete mapping exists |
| CopyMappings.SelectionsKeep | frontend/src/ingredient-copy-panel.tsx:580-613 | every sequence of selections from the offered candidates keeps groups equal and values among their candidates |
| CopyMappings.CompleteWhenFilled | frontend/src/ingredient-copy-panel.tsx:162-183 | a mapping made in the form is complete exactly when everything required has a value |
| CopyMappings.KeyDetermines | frontend/src/ingredient-copy-panel.tsx:60-62 | a requirement key determines kind and source |
| CopyRules.UnitsOffered | frontend/src/ingredient-copy-panel.tsx:64-101 | for a unit the form offers, in catalog order, exactly the units of the dimension of its source, for a mass those whose factor is a mass some version gives the source unit; also within a group |
| CopyRules.OthersOffered | frontend/src/ingredient-copy-panel.tsx:102-110 | for a section all sections are offered, for a tag those with its seed key, or all without one |
| CopyRules.UnknownOffered | frontend/src/ingredient-copy-panel.tsx:70-73 | a unit whose source is unknown is offered nothing |
| CopyRules.CompleteIs | frontend/src/ingredient-copy-panel.tsx:152-186 | a mapping is complete exactly when everything but a tag without a seed key has a value, every value is an offered one and counted or custom units of one dimension have one value |
| ArchiveRelations.ValidateRelations | frontend/src/archive-cache.ts:266-571 | the loops over collections, rows and checks accept exactly the archives in which every modelled check holds |
| ArchiveRules.AcceptedIs | frontend/src/archive-cache.ts:266-571 | an archive is accepted exactly when every record of every collection points where it must: for each of the 22 collections, the fields that must or may name a record of another one, the fields the two must share, the event and the links back |
| ArchiveClosure.SnapshotInOneList | frontend/src/archive-cache.ts:382-464 | a contribution snapshot, its contribution, row, revision and all ancestors along any parent chain share one list of the requested event, with one ingredient |
| ArchiveClosure.SnapshotClosed | frontend/src/archive-cache.ts:435-464 | the contribution, the row and the revision a snapshot leads to are in the archive |
| ArchiveClosure.ChainExtends | frontend/src/archive-cache.ts:382-396 | a parent chain that does not end can be followed further inside the archive |
| ArchiveClosure.PriceHistoryInOneScope | frontend/src/archive-cache.ts:341-381 | a price snapshot and all its predecessors belong to one price of the requested event, for one ingredient of the archive |

## Left out

- The server, OAuth, MCP, React components, routing, translations and the Playwright tests: interface and remote code.
- Dexie, IndexedDB and transactions: a table is a map and a transaction one atomic step; concurrent tabs are not modelled.
- Timestamps, Unicode normalisation, `localeCompare`, `toLowerCase` and SHA-256 are parameters; only the stated assumptions are made about them.
- EventConvergence.EventReplayConverges: says nothing of `updatedAt`, which depends on the order of replay; `recordSchemaVersion`, `immutable` and other flags are not fields of the model's record.
- EventRules.AcceptedIs: assumes that trimming or normalizing the empty text gives the empty text, as the source's host does; without it the null location and note of a stored event would not read back.
- CatalogConvergence.CatalogReplayConverges: says nothing of `updatedAt`, and the empty text must not be a timestamp.
- CatalogConfiguration.CatalogReplica.ReplayCatalogConfiguration: payload keys are assumed to hold no NUL character, by which the source joins them; `entity_kind` and `operation` are compared as strings only, so a value of another type that the source would turn into a known name is ignored here.
- `queueCatalogConfiguration` overwrites without the clock test, so only the replay is modelled.
- The other users of the clock kernel (organization metadata, event days, ad-hoc items, dietary exceptions) would repeat the proof or carry lifecycle guards that do not commute.
- JsonLexical.ReadNumberText: a number is named by its shortest decimal digits and exponent, as the host prints it; the conversion from binary is the host's.
- ArchiveRelations.ValidateRelations: does not model the tag lists of dietary exceptions, the descriptors of resolved warnings, or items that are `null`, whose inspection throws.
- `parseArchive`, `recordFields` and the store step of `ensureArchivedEventCached` are shape and size checks one record at a time; they would add easy members.
- `rankIngredients` keeps the least version of each ingredient and sorts the first two hundred by score; the order of ties is the host's.
- EventCosts.ReadEventCosts: the visible records are inputs; missing names are a set, since their display order is the host's `localeCompare`.
- Fractions.MoneyReads: `money` is modelled for positive denominators, the only ones the projection produces.
- ReceiptQueue.NoImageIsLost: explicit removal by the user, image compression and interference by another tab during a pass are left out; local writes succeed.
- MediaBackup.CollectMediaDirectory: copying into the temporary directory and verifying it again are the identity; a directory lists its entries in the order the script sorts them (the theorems hold for every order), and names are Unicode texts.
- BackupRoundTrip.BackupThenRestore: the database dump is a parameter, and JSON written by the host is read back by it; commands that dump and restore the database are left out.
- MediaRestore.ValidateArchive: errors are one outcome, raising; their messages are not modelled.
- PublishMedia.FileSystem.Publish: the rollback steps are assumed to succeed, a failing rename has no effect, and an interrupt between two steps is not modelled.
- RestoreArchive.Restore: making the staging directory, writing its files and running `pg_restore` each fail or succeed as one step, and the state of the database is not modelled.
- Database and media are not restored as one unit, since the database is restored before the media are published; only what the media target holds is modelled.
- CopyMappings.AutoCompleteIffPossible: stated for distinct requirement keys, as are the effects of selections.
- MealRoles.RunKeepsNamesUnique: the canonical table is fixed during a run; a synchronization that replaces it starts a new one.
