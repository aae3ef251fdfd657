# WP Packages: a verified model

WP Packages turns the WordPress.org plugin and theme directories into a Composer
repository. This project models the parts of it that carry promises over time, and
proves those promises.

- `VersionGrammar`, `Version`, `VersionNumbers`, `Packages`: the version grammar, normalization,
  the choice between raw versions with one normalized form, comparison, the stable ceiling.
  `VersionNumbers` says what they mean in decimal numbers and suffixes.
- `SvnLog`, `TagPaths`, `PublishedTimes`, `BackfillScan`, `Cooldown`, `CooldownSafety`, `Discover`: the
  published times that Composer's cooldown relies on. `SvnLog` says which tags a changelog
  changes and `TagPaths` what that is in the texts of its paths, `PublishedTimes` holds the three writers of per-version times, `BackfillScan` the
  backward scan. `Cooldown` is the pipeline as a state machine, one transaction or request
  at a time, with its invariants; `CooldownSafety` has what follows for all runs. `Discover`
  holds the commands; each is shown to perform steps of that machine.
- `Serialize`, `Entries`, `ContentHash`, `Rfc3339`: what is published, field by field, what the
  content hash covers, and why times may be compared as text.
- `Builder`, `ChangesFeed`, `Mirror`: a build and its difference from the previous one, the
  feed of recorded changes, and a client that mirrors the repository from it.
- `Aggregate`: install counts kept by a watermark, against a full recount.
- `LoginLimiter`, `Negotiate`, `AcceptHeader`, `MediaRanges`: the login rate limiter, and
  Accept-header selection with the header's grammar and in terms of its text.
- `Freshness`, `RowHistory`: when a package is fetched again, and what its row holds after any
  run of the commands.
- `Text`: Go's string operations and a few facts about walking sets and maps.

Tables are maps and sequences held by classes; an SQL statement is one assignment or one
loop over its rows. Loops over Go maps pick their keys in an arbitrary order, so what is
proved of them holds for every iteration order. Instants are nanoseconds since Go's zero
time and stored times are whole seconds, as formatting cuts them.

`dafny verify dfyconfig.toml` checks everything.

## Hypotheses

What the state machines assume of their surroundings, each as an enabling condition or a
`requires`:

- A changelog answer holds every requested revision up to the replica's head, once each;
  the replica may lag by any amount, and any fetch may fail (cmd/wppackages/cmd/discover.go:314-316).
- discover, update and the backfill run one at a time under the pipeline lock. A status
  check's tombstone may fall between any two of their transactions. A process may die
  between any two transactions.
- The clock does not run backwards and is not behind commit dates. For the backward scan
  only, commits have dates, and dates do not decrease from one revision to the next.
- The head of the SVN listing may go backwards from one command to the next. For discover
  that is harmless. A backfill takes part in the runs only if its listing shows what discover has
  processed; `CooldownSafety.BackfillIsSafeFromAnyListing` shows that this is exactly what is
  needed, and `CooldownSafety.StaleListingIsUnsafe` is a run without it.
- The API answers with the slug it was asked for; the upsert is keyed by the answer's slug.
- Builds finish in later milliseconds than the builds recorded before them. Beyond that,
  builds, promotions, cleanups and the three reads of a poll interleave freely in `Mirror`.
  Nothing is lost in runs of harmless steps (`Mirror.IsHarmless`), and for each kind of step
  it is shown exactly when it loses something. A build reaches a client exactly if it finished
  after the client's timestamp (`Mirror.RecordMirrorsIff`); recorded while a delta is under way, if
  it finished after the checkpoint or its packages end right anyway
  (`Mirror.RecordDuringDeltaIff`). Builds recorded in a row before a promotion must take nothing
  back (`Mirror.SkippedPromotionIff`). A delta spans no pruned row exactly if no cleanup since the
  floor test removed one (`Mirror.DeltaSpansNoPrunedRow`); fetching it then loses nothing exactly
  if it spans no unpromoted update (`Mirror.FetchMirrorsIff`), and `Mirror.FetchMirrorsDroppedIff` is the
  condition otherwise. Builds recorded between the two queries make no difference.
- For `Builder.DiffReplays` and the client in `Mirror`, no slug ends in "~dev". With such slugs
  updates are still exact, and so is which packages are deleted, if none is another slug of its type
  with "~dev" at the end; only themes among them get no delete: `Builder.UpdatesAreExact`,
  `Builder.DeletesAreExact`. Names that are no packages may be deleted too: `Builder.DeletedNamesIff`.
  Without that condition unchanged packages are listed: `Builder.UnchangedIsListed`. What is
  uploaded for them is the subject of `Serialize.SerializersAgree`.
- Install event ids are never reused, an event's time is within the retention period when
  it is stored, aggregations do not overlap, and no event is stored between reading MAX(id)
  and the transaction. `Aggregate.CountNewIsExactIff` shows that the last two are exactly
  what is needed.
- Discover and update hold the pipeline lock; a status check does not, and may change rows
  that update has listed and not written yet. `Freshness.StepKeepsIff` says of every step exactly when
  it loses nothing: a mark in a later second than the last sync, a write of a package that was neither
  closed since it was listed, if it was fetched, nor settled over a reactivation, a check that does not
  find a package closed since it was listed as inactive. The results over runs are for such steps;
  `Freshness.StaleCheckReactivates`, `Freshness.StaleUpdateReactivates` and `Freshness.StaleUpdateForgets`
  are runs with others.
- Times have years from 0 to 9999, so that stored times are ordered as their texts are
  (`Rfc3339.StampOrderIsTextOrder`).

Stored times need not be readable: a row may become unreadable at any step, and the
results hold for the readable ones.

## Where the code and its comments differ

- cmd/wppackages/cmd/backfill_published_times.go:163-165 says that commits without a
  date are taken as made now. That is so only if no dated commit of the same chunk touches the tag,
  because the chunk keeps the latest date first: `BackfillScan.MissingDateShows`,
  `BackfillScan.MissingDateIsHidden`.
- The 30-day counts are refreshed by two statements. A package without recent events that
  gets an install between them keeps its old count: `Aggregate.RecentIsExactIff`,
  `Aggregate.StaleRecentSurvives`.
- The option to include inactive packages compares a stored RFC 3339 time with an SQLite
  time as text. The letter between date and time decides, so a row is old enough only
  from the next day on: `Freshness.TextComparesDays`.
- internal/http/changes.go:64 takes a checkpoint against concurrent inserts. It does that,
  but rows removed between the two queries, updates not promoted yet and builds that
  finished before the client's timestamp are lost to the client: `Mirror.CleanupBetweenQueriesIsLost`,
  `Mirror.UnpromotedPollIsLost`, `Mirror.LateCommitIsLost`, `Mirror.SkippedPromotionIsLost`.
- A tombstone is meant to be final, but a status check and an update that overlap can each make
  a closed package active again, and update can undo a reactivation:
  `Freshness.TombstoneSurvivesIff`, `Freshness.ReactivationSurvivesIff`.
- internal/http/negotiate/negotiate.go:4 refers to section 12.5.1 of RFC 9110, which has parameters
  on media ranges, and parameter names without regard to case. The code ignores all parameters
  but "q" in lower case: `AcceptHeader.ReadsAsPrescribedIff`, `AcceptHeader.UpperCaseWeightIsIgnored`,
  `AcceptHeader.ParameterIsIgnored`.

## Model

| member | source | states |
|---|---|---|
| VersionGrammar.RegexIsGrammar | internal/version/normalize.go:10-14 | the version pattern, as a regular expression matched case-insensitively, accepts exactly the grammar its comment states in words |
| VersionGrammar.VersionIsClean | internal/version/normalize.go:14-29 | an accepted version starts with a digit, ends in no white space, and is never mistaken for the trunk |
| Version.ValidIsGrammar | internal/version/normalize.go:38-48 | validity is membership in the grammar, or being one of the names of the trunk, after trimming |
| Version.NormalizeRange | internal/version/normalize.go:16-36 | a normalized version is empty, the trunk, or a string of the grammar |
| Version.NormalizeFixed | internal/version/normalize.go:18-36 | strings of the grammar and the trunk are left alone |
| Version.NormalizeIdempotent | internal/version/normalize.go:23-28 | normalizing twice is normalizing once, for every string |
| VersionNumbers.NormalizeIff | internal/version/normalize.go:16-36 | which texts normalize to a version: an accepted core or a name of the trunk, with white space around it and at most a "v" and a "V" in front |
| Version.PreferIsStrictOrder | internal/version/normalize.go:73-80 | the preference between raw versions of one key is a strict total order, with the exact form first |
| VersionNumbers.ChosenIff | internal/version/normalize.go:50-80 | which raw version of a key counts: the one that is the key itself if there is one, else the least string |
| Version.NormalFormIsUnique | internal/version/normalize.go:50-71 | a version map has at most one normal form, so the map's iteration order cannot show |
| Version.NormalFormFixed | internal/version/normalize.go:50-71 | a map whose keys are normalized is its own normal form |
| Version.NormalFormIdempotent | internal/version/normalize.go:50-71 | the normal form of a normal form is itself |
| Version.NormalizeVersions | internal/version/normalize.go:56-71 | for every walk order the loop gives the normal form: each key some raw version normalizes to, with the entry of its preferred raw version |
| Version.CompareVersions | internal/version/normalize.go:104-136 | the segment loop with its early return computes the recursive comparison |
| Version.CompareIsPreorder | internal/version/normalize.go:104-136 | comparison is reflexive, antisymmetric in sign and transitive on all strings, overflowing and malformed numbers included |
| Version.PartsMeaning | internal/version/normalize.go:110-125 | the first position where the zero-padded numbers differ decides |
| VersionNumbers.AtoiOfDigits | internal/version/normalize.go:117-118 | digits of any length, with a sign or without, are their decimal value, clipped to the range of a 64-bit int |
| VersionNumbers.AtoiOfNat | internal/version/normalize.go:117-118 | the decimal text of a number gives the number, so numbers of several digits are not compared digit by digit |
| VersionNumbers.LeadingZeros | internal/version/normalize.go:117-118 | zeros in front do not change the value |
| VersionNumbers.MalformedIsZero | internal/version/normalize.go:117-118 | a segment with a stray character counts as 0 |
| VersionNumbers.VersionHasNumbers | internal/version/normalize.go:10-14 | every accepted version is dotted numbers with or without a suffix, so the next row is about all of them |
| VersionNumbers.CompareIff | internal/version/normalize.go:104-149 | of two dotted numbers with suffixes, the lower has the smaller number at the first difference; with equal numbers a suffix is below none, and suffixes are in the order of their lower-case texts |
| VersionNumbers.KeptIff | internal/version/normalize.go:82-102 | what the ceiling lets through, for numbers and suffixes: the trunk, everything with a suffix, and what is not above it |
| VersionNumbers.StableIff | internal/version/normalize.go:138-149 | stable versions are those without a suffix |
| Version.FilterNewerThan | internal/version/normalize.go:82-102 | drops exactly the stable versions above the normalized ceiling, and nothing if the ceiling is no version |
| Version.Latest | internal/version/normalize.go:151-173 | for every walk order a maximal stable version, else a maximal pre-release, else nothing; an empty key is no version, and only without stable ones can it hide the others |
| Packages.Package.NormalizeAndStoreVersions | internal/packages/package.go:73-104 | stores the normal form below the ceiling; pendingStable holds exactly when some raw version normalizes to a stable one above it; the current version is a latest one |
| Packages.DroppedIffPending | internal/packages/package.go:86-91 | the map shrinks exactly when a stable version above the ceiling was in it, so comparing lengths is sound |
| SvnLog.TagPathIsNoAncestor | internal/wporg/svn.go:390-432 | no path is both inside a tag and a directory of all tags |
| TagPaths.SplitTagPathIff | internal/wporg/svn.go:405-432 | a path is in a tag exactly if, without the slashes around it, it is slug "/tags/" tag for plugins and slug "/" tag for themes, alone or followed by "/" and the rest; a leading dot of a plugin tag gets its zero |
| TagPaths.TagsAncestorIff | internal/wporg/svn.go:390-403 | a path holds all tags exactly if it is the slug alone, or for plugins slug "/tags" |
| TagPaths.SlugFromPathIff | internal/wporg/svn.go:442-454 | the package of a path: its first component, or the whole path |
| TagPaths.IsReadmeIff | internal/wporg/svn.go:434-440 | readmes are exactly the case variants of the two names |
| SvnLog.ParseSvnLog | internal/wporg/svn.go:237-286 | the loop's running bounds and slug revisions are the greatest and least revision, the least known date, and the greatest revision touching each slug |
| SvnLog.AddCommit | internal/wporg/svn.go:336-386 | one turn of the loop keeps the declarative result for one commit more |
| SvnLog.TagChanges | internal/wporg/svn.go:333-388 | the result is the latest date of a commit with a non-exempt path in the tag (a replaced path is never exempt), and likewise for whole tags directories |
| SvnLog.TagChangesIgnorePathOrder | internal/wporg/svn.go:333-388 | permuting or repeating the paths of a list changes nothing |
| SvnLog.TagChangesIgnoreCommitOrder | internal/wporg/svn.go:333-388 | permuting or repeating the commits changes nothing |
| TagPaths.TouchesTagIff | internal/wporg/svn.go:349-375 | which commits change a tag, by the texts of their paths |
| TagPaths.TouchesAllIff | internal/wporg/svn.go:336-347 | which commits change all tags of a package, by the texts of their paths |
| TagPaths.ItemTouchesTagIff | internal/wporg/svn.go:250-265 | the same from the elements of a log item, with their kind and property attributes |
| TagPaths.ResponseTagChanges | internal/wporg/svn.go:333-388 | the tag changes of a response in terms of its items: each tag has the latest date of the items that change it |
| TagPaths.ResponseSlugs | internal/wporg/svn.go:277-283 | the packages of a response in terms of its items, each with its greatest revision |
| PublishedTimes.MergePublishedTimes | internal/packages/published_times.go:32-67 | known versions keep their times, newly listed ones get now, the trunk gets none; a package not yet backfilled stays so unless it had no versions |
| PublishedTimes.MergedMeans | internal/packages/published_times.go:32-67 | a row waits for the backfill exactly if it has versions and NULL times; otherwise its keys are the known ones and the listed ones without the trunk, known times stay equal, and new ones are the second of now |
| PublishedTimes.StampIsSecond | internal/packages/published_times.go:51-51 | the stored time of an instant is the second it falls into |
| PublishedTimes.LatestPerVersion | internal/packages/published_times.go:209-215 | per version the latest date of the tags that normalize to it |
| PublishedTimes.BackfillVersions | internal/packages/published_times.go:217-231 | every version but the trunk gets the greatest of the baseline, its tags' dates and the whole directory's date |
| PublishedTimes.BackfilledMeans | internal/packages/published_times.go:209-231 | a row with times is left alone; otherwise every version but the trunk gets the second of the latest of: the baseline, a tag that normalizes to it, all tags at once, no date |
| PublishedTimes.PackageTable.ResetTimesOf | internal/packages/published_times.go:122-142 | exactly the keys whose normalized form was hit, and that are earlier, rise to the stamp; the count is how many differ |
| PublishedTimes.PackageTable.ResetPublishedTimes | internal/packages/published_times.go:76-163 | the whole table afterwards, tombstoned, unreadable and absent rows untouched, with the number of raised times |
| Cooldown.IsResetIff | internal/packages/published_times.go:115-133 | a reset from a log hits a stored key exactly if some commit of the log changes its version |
| Cooldown.ResetMeans | internal/packages/published_times.go:76-163 | only open rows with readable times change, no key comes or goes, and a time becomes the stamp exactly if it was earlier and a commit of the log changes its version |
| PublishedTimes.PackageTable.BackfillPublishedTimes | internal/packages/published_times.go:175-287 | the whole table afterwards: rows without times get them, all others are unchanged; the count is the number of such rows |
| BackfillScan.CoverageIsCompleteness | cmd/wppackages/cmd/backfill_published_times.go:151-161 | the test on bounds and count holds exactly when the answer holds every revision of the range |
| BackfillScan.MergeTagChanges | cmd/wppackages/cmd/backfill_published_times.go:163-193 | per tag and per package the later of the two dates, with earlier ones than the window dropped |
| BackfillScan.FetchChunk | cmd/wppackages/cmd/backfill_published_times.go:121-137 | gives a complete answer, and fails exactly when none of three attempts was complete |
| BackfillScan.WindowGrows | cmd/wppackages/cmd/backfill_published_times.go:139-146 | merging a chunk gives the window over both parts |
| BackfillScan.EarlyStopLosesNothing | cmd/wppackages/cmd/backfill_published_times.go:143-145 | stopping at a chunk with a commit older than the window leaves out nothing |
| BackfillScan.ScanTagChangesSince | cmd/wppackages/cmd/backfill_published_times.go:104-149 | terminates for every chunk size in range, with exactly the latest date in the window per tag and per package over all revisions; fails exactly if a chunk it comes to before its early stop is incomplete on all three attempts |
| BackfillScan.MissingDateShows | cmd/wppackages/cmd/backfill_published_times.go:163-193 | for a tag and for a whole tags directory: a missing date is taken as now exactly when no dated commit of the same chunk touches it too |
| BackfillScan.MissingDateIsHidden | cmd/wppackages/cmd/backfill_published_times.go:163-193 | a chunk in which a date before the window hides a missing one, so that the change is left out |
| Serialize.ParsePublishedTimes | internal/composer/serialize.go:83-107 | per normalized key the latest stored time, for every walk order; nothing for NULL and unreadable rows |
| Serialize.SerializePackage | internal/composer/serialize.go:109-166 | the payload is that of the declarative description, by name ending, type and tagged versions |
| Serialize.PackageFiles | internal/composer/serialize.go:20-51 | the uploaded key-to-content pairs are the tagged and dev payloads that exist |
| Entries.TaggedEntryMeans | internal/composer/format.go:27-110 | a tagged entry has the download of the raw version that counts, its tag as reference, its published time in both time fields, and the texts of its package |
| Entries.TrunkEntryMeans | internal/composer/format.go:52-106 | the trunk has no download, its revision in the reference if known, and the last commit as its time |
| Entries.SerializedMeans | internal/composer/serialize.go:109-166 | the main file lists exactly what the raw versions normalize to without the trunk, or the trunk of a plugin without any; the development file the trunk; a theme has none |
| Entries.WrittenMeans | internal/repository/builder.go:183-224 | what a build writes for a row: these two files under their two names, and nothing else |
| Entries.UploadedMeans | internal/composer/serialize.go:20-51 | the same of what is uploaded, for slugs that do not end in "~dev" |
| Serialize.SerializersAgree | internal/composer/serialize.go:22-51 | uploaded and built files are the same exactly when the slug does not end in "~dev", or the package is a theme without tagged versions |
| Serialize.NamesDiffer | internal/composer/serialize.go:121-123 | a plugin slug that ends in "~dev" is served under another name than it is built under |
| ContentHash.HashVersions | internal/composer/serialize.go:72-82 | what is written to the hash is versions, trunk revision and times, each if present |
| ContentHash.ReadObjectText | internal/composer/serialize.go:68-71 | an encoded object followed by anything reads back as its members and the rest: objects are prefix-free |
| ContentHash.EscapedIsPlain | internal/composer/serialize.go:68-71 | an encoded string holds no control character, no character that matters in HTML and no line separator of JavaScript |
| ContentHash.DecodeEncode | internal/composer/serialize.go:63-82 | the hash input of any content decodes to that content |
| ContentHash.ListingIsUnique | internal/composer/serialize.go:68-70 | the sorted listing of a map is unique, so its text is |
| ContentHash.HashInputIsInjective | internal/composer/serialize.go:63-82 | equal hash inputs come from equal versions, trunk revisions and times, present or absent |
| ContentHash.RawPartsCollide | internal/composer/serialize.go:72-82 | on strings that are not JSON objects the input is ambiguous |
| Rfc3339.TextOrderIsTimeOrder | internal/packages/published_times.go:137-141 | comparing two formatted UTC times as strings compares the times, years 0 to 9999 |
| Rfc3339.TimeHasText | internal/packages/package.go:106-112 | every second of those years is the time of some formatted text |
| Rfc3339.StampOrderIsTextOrder | internal/packages/published_times.go:130-141 | so comparing stored times as numbers, as this model does, is comparing the stored strings, as the statements do |
| Rfc3339.SqliteOrderIsDayOrder | internal/packages/package.go:474-478 | a stored time is below a text of SQLite's form exactly if its day is earlier |
| Rfc3339.TextsHoldFields | internal/packages/package.go:106-112 | both texts hold year, month, day, hour, minute and second in digits at fixed positions, with their separators |
| Rfc3339.StampOfEpoch | internal/packages/package.go:106-112 | stored times count Gregorian days: the Unix epoch is 62135596800 seconds from Go's zero time |
| Builder.BuildOne | internal/repository/builder.go:144-263 | one row's files, and whether any differs from the previous build, two files counting once |
| Builder.Build | internal/repository/builder.go:124-312 | all files, one update per row that differs, and against a whole previous build one delete per package of it with no file left; that is the exact difference if no slug ends in "~dev" |
| Entries.BuildMeans | internal/repository/builder.go:124-263 | a whole build holds the described files of every row under its names, none for a row whose versions do not parse, and no file under another name |
| Builder.CollectNames | internal/repository/builder.go:278-298 | the package names of a previous build are those of its files |
| Builder.AppendDeletes | internal/repository/builder.go:302-312 | one delete for each previous package with no file left, and no package with two entries |
| Builder.DiffIsExact | internal/repository/builder.go:172-312 | updates are exactly the packages that are new or differ in a file, deletes exactly those that are gone |
| Builder.NamedIff | internal/repository/builder.go:278-298 | of any files: a package is found again exactly by a development file, or by a main file if its name does not end in "~dev" |
| Builder.VanishedIsDeletedIff | internal/repository/builder.go:278-312 | a package that is gone gets its delete exactly if its name does not end in "~dev" or it had a development file |
| Builder.UpdatesAreExact | internal/repository/builder.go:172-263 | for any slugs, unless one is another of its type with "~dev" at the end: a package is listed as updated exactly if it has files that differ from what the previous build wrote for it |
| Builder.DeletesAreExact | internal/repository/builder.go:278-312 | under the same condition: a package is deleted exactly if it had files and has none now, and is no theme whose slug ends in "~dev" |
| Builder.DeletedNamesIff | internal/repository/builder.go:278-298 | for any rows: the names deletes are about are those of packages with files, except themes whose slug ends in "~dev", and for each slug that ends so also the name without the ending |
| Builder.UnchangedIsListed | internal/repository/builder.go:226-263 | two plugins of which one is the other's "~dev": an unchanged one is listed as updated |
| Builder.DiffReplays | internal/repository/builder.go:259-312 | applying the updates and deletes to the previous files gives the new files |
| ChangesFeed.ChangesTable.PersistMetadataChanges | cmd/wppackages/cmd/build.go:111-137 | one row per change, in order, with new ids and the build's timestamp, whatever timestamps are stored already |
| ChangesFeed.ChangesTable.Cleanup | cmd/wppackages/cmd/build.go:101-106 | exactly the rows of the last 24 hours remain |
| ChangesFeed.HandleMetadataChanges | internal/http/changes.go:27-122 | invalid, resync or delta by the value of since; the checkpoint is that of the first query's table, the actions are the last ones per package in the second query's table, in its order, up to the checkpoint, sorted by name |
| ChangesFeed.ByTimeShape | internal/http/changes.go:79-82 | the order of the query is by timestamp and then by id, with every row once |
| ChangesFeed.LastRowCounts | internal/http/changes.go:90-103 | the last row of a package decides its action |
| ChangesFeed.DeltaMeans | internal/http/changes.go:60-122 | a delta by the rows of the table: its checkpoint is the greatest timestamp or now, and its actions are those of the last row after since and up to the checkpoint of each package, once and by name, with its second |
| Mirror.PollEqualsFullReplay | internal/http/changes.go:53-121 | over every interleaving of harmless builds, promotions, cleanups and poll steps: wherever the client differs from the replay of every recorded change, a row later than its timestamp is recorded; without such rows it holds exactly the replay |
| Mirror.PollWithoutBuildIsFullReplay | internal/http/changes.go:65-121 | a poll during which no build is recorded leaves the client with the replay of every recorded change, whatever cleanups and promotions come between its harmless steps |
| Mirror.CheckpointCoversRows | internal/http/changes.go:65-77 | the checkpoint is at or after every row recorded before it was read, pruned ones included |
| Mirror.DeltaSpansNoPrunedRow | internal/http/changes.go:53-82 | over every run: the row query finds every recorded row between the timestamps exactly if no cleanup since the floor test removed one; a cutoff at or before the client's timestamp never does |
| Mirror.FetchAt | internal/http/changes.go:79-121 | what a delta does to one package: listed, it ends as the recorded builds have it exactly if its update does not wait for promotion; unlisted, it stays |
| Mirror.FetchMirrorsIff | internal/http/changes.go:65-121 | without such a cleanup, fetching a delta loses nothing exactly if it spans no recorded but unpromoted build with an update |
| Mirror.FetchMirrorsDroppedIff | internal/http/changes.go:65-121 | with one: fetching loses nothing exactly if, besides, the client already holds the latest of each dropped package that the delta does not list and that has no later row |
| Mirror.DownloadMirrorsIff | internal/http/changes.go:28-62 | downloading everything loses nothing exactly if no recorded but unpromoted changes lie at or before the new timestamp |
| Mirror.RecordMirrorsIff | cmd/wppackages/cmd/build.go:111-112 | recording a build reaches the client exactly if the build finished after the client's timestamp, or serves nothing new |
| Mirror.RecordDuringDeltaIff | cmd/wppackages/cmd/build.go:111-112 | a build recorded while a delta is under way, promoted before the fetch or not, with another build pending or not: it loses nothing exactly if it finished after the checkpoint, or all its packages end right, which is said of each |
| Mirror.SkippedPromotionIff | cmd/wppackages/cmd/build.go:30-35 | a build recorded while the last one is unpromoted is the replay of all builds exactly if it lists every package that one listed |
| Mirror.ReadIsSound | internal/http/changes.go:79-103 | the row query gives a delta that lists exactly what was recorded and not dropped, with the last word on each package, whatever happened since the floor test |
| Mirror.BackwardCheckpointIsEmpty | internal/http/changes.go:65-82 | a checkpoint at or behind the client's timestamp comes without actions |
| Mirror.CleanupBetweenQueriesIsLost | internal/http/changes.go:65-82 | a run whose cleanup falls between the two queries and loses a package |
| Mirror.UnpromotedPollIsLost | cmd/wppackages/cmd/deploy.go:101-126 | a run whose poll falls between recording and promotion and loses an update |
| Mirror.LateCommitIsLost | cmd/wppackages/cmd/build.go:111-112 | a run whose build finished before the client joined, is recorded after it, and is lost |
| Mirror.SkippedPromotionIsLost | cmd/wppackages/cmd/build.go:30-35 | a run with a build skipped by the promotions, whose delete reaches the client although the package is back |
| Mirror.BuildDiffIsRepoDiff | internal/repository/builder.go:273-312 | the changes a full build records are the difference of what the two builds serve |
| Cooldown.MergeKeepsSafe | internal/packages/published_times.go:25-31 | an update keeps a row's times no earlier than the processed changes |
| Cooldown.ResetKeepsSafe | internal/packages/published_times.go:69-75 | a reset makes a row safe for the commits of a chunk and keeps it safe for the earlier ones |
| Cooldown.BackfillIsSafeIff | internal/packages/published_times.go:165-171 | a row without times is safe after a backfill exactly if the scan sees every processed change of its versions |
| Cooldown.OwnCommitsAreSeen | internal/packages/published_times.go:165-171 | every change in the scanned revisions is seen, those before the window included |
| CooldownSafety.StoredTimesAreSafe | cmd/wppackages/cmd/discover.go:262-335 | over every run with lag, failed fetches, crashes, updates, backfills and tombstones: no stored time of an open package is earlier, to the second, than a processed change to its version |
| CooldownSafety.ServedTimesAreSafe | internal/composer/serialize.go:89-107 | the same for the time served for a version, for every revision between the first watermark and the current one |
| CooldownSafety.StepMovesWatermarkForward | cmd/wppackages/cmd/discover.go:270-332 | no step moves the watermark back or beyond what an answer held |
| CooldownSafety.WatermarkProtocol | cmd/wppackages/cmd/discover.go:262-335 | over runs the watermark never decreases, never passes what answers held, and all between has been reset and marked |
| CooldownSafety.RunKeepsKeys | internal/packages/published_times.go:53-60 | every tagged version key of a package with times keeps a time |
| CooldownSafety.TaggedEntriesHavePublishedTime | internal/composer/format.go:97-106 | every tagged entry of a package with times carries the served time in both fields |
| CooldownSafety.ServedTimeNeverDecreases | internal/packages/published_times.go:137-141 | the served time of a version never decreases from one serialization to a later one |
| CooldownSafety.TimeChangesIff | cmd/wppackages/cmd/discover.go:289-301 | a step changes a stored time exactly if it is a reset, the row is open, the time is earlier, and a commit of the answer in hand changes that version; it becomes the time of the step |
| CooldownSafety.TimeAfterRun | cmd/wppackages/cmd/discover.go:262-335 | over every run a stored time is what it was, or the time of such a step of the run |
| CooldownSafety.BackfillIsSafeFromAnyListing | cmd/wppackages/cmd/backfill_published_times.go:68-79 | after any run, a backfill from any listed head leaves all stored times safe exactly if its window shows, for each version it stamps, a change at least as late as the processed ones above that head; there are none if everything processed is listed |
| CooldownSafety.StaleListingIsUnsafe | cmd/wppackages/cmd/backfill_published_times.go:68-79 | a run whose backfill lists one revision less than discover has processed, and stores a time that is too early |
| Discover.Site.constructor | cmd/wppackages/cmd/discover.go:237-260 | an empty history over an initial state |
| Discover.Site.Receive | cmd/wppackages/cmd/discover.go:277-289 | the parsed answer is a step of the pipeline, with the replica's head as its greatest revision |
| Discover.Site.ScanChunk | cmd/wppackages/cmd/discover.go:271-328 | one turn of the loop with a crash at any point is a run of the pipeline; with a caught-up replica it covers the chunk |
| Discover.Site.ScanForward | cmd/wppackages/cmd/discover.go:270-328 | the loop over the chunks: it ends where a chunk is short, a fetch fails or the process dies, and with a caught-up replica at the listed head |
| Discover.Site.MarkChangedFromSvnLog | cmd/wppackages/cmd/discover.go:232-335 | every way through is a run of the pipeline; the loop terminates, the watermark never decreases, and one run reaches the listed head when the replica has caught up |
| Discover.Site.UpdatePackage | cmd/wppackages/cmd/update.go:160-196 | storing what the API lists is one step, and the new row is the merged one |
| Discover.Site.BackfillPublishedTimes | cmd/wppackages/cmd/backfill_published_times.go:34-99 | it succeeds exactly if the chunk size is in range and no chunk it comes to is bad; then it stores the times of the window, which are safe exactly if the listing shows what discover has processed; otherwise nothing changed |
| Discover.Site.StoredTimesAreNeverEarly | cmd/wppackages/cmd/discover.go:262-335 | whatever commands ran, what the database stores is safe |
| LoginLimiter.LoginRateLimiter.Sweep | internal/http/login_rate_limit.go:98-109 | deletes exactly the entries not seen for half an hour, at most every five minutes |
| LoginLimiter.LoginRateLimiter.Allow | internal/http/login_rate_limit.go:34-51 | the new state and the answer: blocked strictly before the end of the block |
| LoginLimiter.LoginRateLimiter.RecordFailure | internal/http/login_rate_limit.go:53-85 | the new state: a restarted window, a counted failure or a block |
| LoginLimiter.LoginRateLimiter.RecordSuccess | internal/http/login_rate_limit.go:87-96 | the address is forgotten, the others are kept |
| LoginLimiter.SimulationStep | internal/http/login_rate_limit.go:34-109 | each operation keeps the relation between a swept and an unswept limiter |
| LoginLimiter.SweepingIsUnobservable | internal/http/login_rate_limit.go:98-109 | on every run with non-decreasing times the limiter answers as one that never sweeps |
| LoginLimiter.AtMostFifteenFailures | internal/http/admin_auth.go:31-70 | after any history at most 15 failures of an address get through in a half-open 15-minute interval, and 8 more for each login of it that gets through |
| LoginLimiter.EightFailuresBlock | internal/http/login_rate_limit.go:79-84 | eight failures reach the state from which the bound is attained |
| LoginLimiter.FifteenIsReached | internal/http/login_rate_limit.go:50-84 | from the exact end of a block, fifteen failures do get through |
| LoginLimiter.BlockedHasEight | internal/http/login_rate_limit.go:34-109 | over every timed run: who is turned away has had eight failures within 15 minutes, the last less than 15 minutes ago, and no login since the first of them |
| LoginLimiter.SweptMeans | internal/http/login_rate_limit.go:98-109 | a sweep within five minutes of the last changes nothing; otherwise exactly what was seen in the last half hour stays |
| Aggregate.AggregationIsRecount | internal/telemetry/aggregate.go:23-96 | after any run of inserts, statements, crashes and prunes: monthly counts are recounts of all events ever up to the watermark, last installs their latest times, and no uncounted event is gone |
| Aggregate.FaithfulMeans | internal/telemetry/aggregate.go:23-96 | faithful tables column by column: each monthly count is the number of events of that package and month, and each last install the latest time of the package |
| Aggregate.TotalsAreExact | internal/telemetry/aggregate.go:98-122 | at the end of a run each total is the number of events counted, over all months |
| Aggregate.RecentIsExactIff | internal/telemetry/aggregate.go:124-149 | the 30-day count is exact as of its statement, except exactly for a package without recent events, with an old count, that gets an install between the two statements |
| Aggregate.CountSurvives | internal/telemetry/aggregate.go:124-149 | from any reachable state: the count of a package without recent events survives a run in which an install of it comes between the two statements |
| Aggregate.StaleRecentSurvives | internal/telemetry/aggregate.go:124-149 | a run from the start to such a count |
| Aggregate.CountNewIsExactIff | internal/telemetry/aggregate.go:30-92 | the transaction takes the counts to the new watermark exactly when no event is above it and no other run has counted an event since the watermark was read |
| Aggregate.LateEventCountsTwice | internal/telemetry/aggregate.go:36-62 | an event stored between the two is counted by two runs, with numbers |
| Aggregate.OverlappingRunsCountTwice | internal/telemetry/aggregate.go:30-92 | two runs that read the same watermark count an event twice, with numbers |
| Aggregate.SumIsRecount | internal/telemetry/aggregate.go:98-111 | sums over months are counts of events: the months partition them |
| Aggregate.TotalsAreRecounts | internal/telemetry/aggregate.go:98-122 | the two statements on totals leave recounts, packages without months included |
| Aggregate.PruneKeeps | internal/telemetry/aggregate.go:151-157 | pruning drops no event above the watermark |
| Aggregate.CompletedRun | internal/telemetry/aggregate.go:26-157 | a run without interruption leaves everything up to date: totals of all events ever, 30-day counts, exactly the retained events |
| Aggregate.UpToDateMeans | internal/telemetry/aggregate.go:98-157 | up-to-date tables column by column: all installs ever, those of the last 30 days, and the events of the last 365 |
| Aggregate.Telemetry.constructor | internal/telemetry/aggregate.go:13-21 | the empty tables agree with an empty history |
| Aggregate.Telemetry.RecordInstall | internal/telemetry/ingest.go:17-42 | stores the event and keeps the tables faithful |
| Aggregate.Telemetry.CountNewEvents | internal/telemetry/aggregate.go:48-96 | the transaction's effect on counts, last installs and watermark |
| Aggregate.Telemetry.UpdateTotals | internal/telemetry/aggregate.go:98-111 | the sums over months, and how many packages have months |
| Aggregate.Telemetry.ResetStaleRecent | internal/telemetry/aggregate.go:138-149 | packages without recent events lose their count; the result is how many had one |
| Aggregate.Telemetry.PruneEvents | internal/telemetry/aggregate.go:151-157 | exactly the events within retention remain; the result is the number of others |
| Aggregate.Telemetry.AggregateInstalls | internal/telemetry/aggregate.go:26-169 | whichever statement fails, the tables stay faithful; if none does, they are up to date, and the results are the numbers of packages ever installed, of 30-day counts run out, and of expired events |
| Negotiate.ParseQuality | internal/http/negotiate/negotiate.go:40-57 | the last q parameter that parses, clamped to 0..1, and 1 without any |
| Negotiate.Parse | internal/http/negotiate/negotiate.go:20-66 | one entry per part that names a range, in the client's order, with its quality and specificity |
| Negotiate.FindRange | internal/http/negotiate/negotiate.go:93-117 | the inner loop finds the most specific matching range, the first of equals, or that there is none |
| Negotiate.Choose | internal/http/negotiate/negotiate.go:93-133 | the outer loop finds the type whose range has the highest quality, ties to the earlier range and then the earlier type; or that all are rejected |
| Negotiate.PreferredIsUnique | internal/http/negotiate/negotiate.go:20-134 | header and producible types determine the answer, through the entries and the rule |
| Negotiate.Preferred | internal/http/negotiate/negotiate.go:68-134 | the whole choice; with entries it is "" exactly when every type is rejected |
| Negotiate.SpecificRangeOverrides | internal/http/negotiate/negotiate.go:95-98 | a type whose own range has quality 0 is chosen only if an earlier range of the same type accepts it |
| MediaRanges.MatchesIff | internal/http/negotiate/negotiate.go:126-137 | in terms of the header: "*/*" matches all, type "/*" exactly the candidates of that type, and any other range itself alone, without regard to the case of the header |
| MediaRanges.RangeForIff | internal/http/negotiate/negotiate.go:93-117 | which range speaks for a type: the first that is it, without such the first wildcard of its type, without either the first "*/*" |
| MediaRanges.PreferredIff | internal/http/negotiate/negotiate.go:20-134 | the answer for any header without quoted values, from its text: the type whose range has the highest quality above 0, ties to the earlier range and then the earlier type |
| MediaRanges.TypeWildcardServes | internal/http/negotiate/negotiate.go:126-137 | a type wildcard serves the first producible type of its kind, and nothing if there is none |
| MediaRanges.RefusalOverridesTypeWildcard | internal/http/negotiate/negotiate.go:95-98 | an exact range with quality 0 takes its type out of a type wildcard, in either order |
| MediaRanges.PlainQuality | internal/http/negotiate/negotiate.go:40-57 | the quality of a range without parameters is the number its weight stands for, 1 without one |
| AcceptHeader.HeaderIsRead | internal/http/negotiate/negotiate.go:20-66 | what the parser makes of the text of any header of the grammar without quoted values: one entry per range, with its last lower-case q that parses |
| AcceptHeader.ReadsAsPrescribedIff | internal/http/negotiate/negotiate.go:20-66 | the entries are what section 12.5.1 of RFC 9110 prescribes exactly if no range has parameters, and each weight is named "q" in lower case or is 1 |
| AcceptHeader.UpperCaseWeightIsIgnored | internal/http/negotiate/negotiate.go:44-52 | a header whose upper-case weight refuses a type that is served nevertheless |
| AcceptHeader.ParameterIsIgnored | internal/http/negotiate/negotiate.go:40-57 | a header that refuses one form of a type, for which the whole type is refused |
| Freshness.DecisionMeans | cmd/wppackages/cmd/update.go:284-312 | exactly when a fetched package is retried, and that expiring means unchanged and advancing changed versions |
| Freshness.MarkMakesDueIff | internal/packages/package.go:794-810 | a mark makes an open, active package due exactly when its last sync was in an earlier second |
| Freshness.TextComparesDays | internal/packages/package.go:474-478 | the comparison of a stored time with now less 30 days compares days, and misses a package exactly if that was synced earlier on the same day |
| Freshness.StepKeepsIff | cmd/wppackages/cmd/update.go:104-250 | with status checks overlapping update, at every step: no package with news looks up to date and no closed one is active afterwards exactly if the step is harmless, a condition on the row, on what was listed, and on the answer |
| Freshness.DirtyIsSelected | internal/packages/package.go:475-482 | over every run of harmless steps, an open and active package marked, created or reactivated since update last let go of it is selected by a default update |
| Freshness.RetriesStop | cmd/wppackages/cmd/update.go:17-27 | a fetch more than seven days after the last known commit settles the package until something new happens |
| RowHistory.RowsFollowAnswers | cmd/wppackages/cmd/update.go:122-220 | over every run, from the answers and marks alone: a row is inactive exactly if it was deactivated and not found since, closed exactly if the API has said so once, and has the versions of the last answer stored and the revision of the last mark that reached it |
| RowHistory.UpdateTimes | cmd/wppackages/cmd/update.go:160-220 | what update does to the two times: the commit time never moves back; the sync time is now, or as listed while a release may still be on its way |
| RowHistory.CheckTimes | cmd/wppackages/cmd/check_status.go:73-119 | a status check leaves the commit time and forgets the sync time of what it activates |
| RowHistory.MarkTimes | internal/packages/package.go:791-829 | a mark sets the commit time of an active row to now; a shell record only moves it forward |
| RowHistory.MarkingIsRun | internal/packages/package.go:791-829 | marking packages together is a run of one mark for each known one |
| RowHistory.SelectionMeans | internal/packages/package.go:452-483 | what each combination of options selects, by the columns of the row |
| RowHistory.SelectionNarrows | internal/packages/package.go:461-473 | a kind and names only leave packages out |
| Freshness.TombstoneIsFinal | internal/packages/package.go:590-606 | over every run a tombstoned row stays closed and is selected under no options; over harmless steps it stays inactive |
| Freshness.TombstoneSurvivesIff | cmd/wppackages/cmd/check_status.go:75-119 | a closed row stays inactive under a status check exactly unless the check listed it as inactive and then finds the package, and under an update's write exactly unless that has fetched it |
| Freshness.ReactivationSurvivesIff | cmd/wppackages/cmd/update.go:196-212 | a package reactivated after update listed it is due after update's write exactly if nothing was fetched, or the time written is NULL or before its last commit |
| Freshness.StaleCheckReactivates | cmd/wppackages/cmd/check_status.go:111-119 | a run in which a check activates a row that an update closed after the check listed it |
| Freshness.StaleUpdateReactivates | internal/packages/package.go:283-302 | a run in which an update's write activates a row that a check closed after update listed it |
| Freshness.StaleUpdateForgets | cmd/wppackages/cmd/update.go:203-205 | a run in which an update's retry writes back an old sync time over a reactivation, so that the package is not due |
| Freshness.PackageRows.constructor | internal/packages/package.go:36-71 | no rows, nothing dirty |
| Freshness.PackageRows.MarkPackagesChanged | internal/packages/package.go:791-829 | exactly the active rows of the slugs get the new commit time and their revision; the count is their number; no mark is lost exactly if each is in a later second than the last sync |
| Freshness.PackageRows.UpsertShell | internal/packages/package.go:308-330 | a missing record is created, an open one's commit time only moves forward, a closed one is left alone |
| Freshness.PackageRows.UpdateRow | cmd/wppackages/cmd/update.go:122-220 | the effect of each API answer on a row, given the row as listed; nothing is lost exactly if the write is harmless |
| Freshness.PackageRows.CheckRow | cmd/wppackages/cmd/check_status.go:73-119 | the effect of each API answer on a row, given whether it was active when listed; nothing is lost exactly if the check is harmless |
| Freshness.PackageRows.GetPackagesNeedingUpdate | internal/packages/package.go:452-519 | under all options exactly the due packages, or as many of the longest unsynced as the limit allows |
| Freshness.PackageRows.RunUpdate | cmd/wppackages/cmd/update.go:61-250 | in any order, every selected row and no other is updated by its answer |
| Freshness.PackageRows.RunCheckStatus | cmd/wppackages/cmd/check_status.go:55-150 | in any order, every open row and no other is updated by its answer |

## Left out

- Version.CompareIsPreorder: lower-casing of suffixes covers ASCII letters only, which is all the version grammar allows.
- Version.NormalizeVersions: strings are sequences of Unicode characters; invalid UTF-8 is not modelled.
- SvnLog.ParseSvnLog: starts from parsed log items; XML decoding and the clean-up of bad characters before it are left out.
- PublishedTimes.PackageTable.BackfillPublishedTimes: recomputing content_hash and content_changed_at for the filled rows is left out, and so is its failure on a versions_json that does not parse.
- PublishedTimes.PackageTable.ResetPublishedTimes: a database error inside the transaction is a crash before it.
- Serialize.SerializePackage: payloads are values, so equal bytes are equal values; the constant entries of a version, the JSON text and the CRC in "uid" (kept as the string it is computed from) are left out.
- ContentHash.HashInputIsInjective: SHA-256 itself is left out; the result is about its input.
- Builder.Build: a failing file walk is left out.
- Builder.DiffIsExact: slugs do not end in "~dev"; Builder.UpdatesAreExact, Builder.DeletesAreExact and Builder.UnchangedIsListed are about the others.
- ChangesFeed.HandleMetadataChanges: sorting the actions is insertion into a sorted list, and database errors are left out.
- Mirror.PollEqualsFullReplay: one client, which downloads the files of a poll at one moment; a failed insert of the changes is left out.
- CooldownSafety.StoredTimesAreSafe: one package type at a time; the two types share no rows.
- Discover.Site.MarkChangedFromSvnLog: the revisions marked changed are recorded, the row columns that marking writes are in `Freshness`.
- Discover.Site.UpdatePackage: only the columns about versions and times; fetching, batching and the fallback to single writes are left out, and a failed write leaves the row as it was.
- AcceptHeader.ReadsAsPrescribedIff: empty parameters, as in two semicolons in a row, are not in the grammar used.
- MediaRanges.PreferredIff: headers with quoted parameter values are left out, as in AcceptHeader.HeaderIsRead; the parser splits such a value at the commas and semicolons in it.
- Negotiate.Parse: the float parser is a parameter without NaN results, and lower-casing covers ASCII letters only.
- Aggregate.Telemetry.AggregateInstalls: an event carries its month, so strftime is left out; so are deduplication of installs, deletion of packages and the refresh of the site statistics, which only sums the counters.
- LoginLimiter.AtMostFifteenFailures: a request's check and its recorded failure are one step; concurrent requests of one address may overlap in the code.
- Freshness.PackageRows.RunUpdate: the counters and the log are left out; a failed fetch and a failed write both leave the row as it was, and a batch is written row by row.
- Freshness.PackageRows.RunCheckStatus: the counters and the record of changes are left out.
- Partial ports of JSON, SQL and HTTP plumbing: the model starts from decoded values and typed rows.
- Deployment to object storage and its bookkeeping, mass-closure events, build snapshots, local promotion and rollback: they would add only small claims, or claims the code does not keep.
- The API rate limiter: its behaviour lives in a library that is not part of this model.
