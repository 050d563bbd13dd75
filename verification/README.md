# AlgoJudge-Runner, verified core

AlgoJudge-Runner judges untrusted programs. This project models the parts of it a verdict
rests on, as state machines, parsers and arithmetic, and proves what they promise.

| module | what it models |
|---|---|
| `SharedCache` | any number of Runners on one cache volume: holds, downloads, renames, evictions, crashes |
| `Eviction` | one Runner's cache object: hold, release, the sweep at start, eviction by size |
| `Prepared` | one cache entry's lock, fillings, manifest and superseded products, with a crash possible between any two filesystem calls |
| `Reaper` | the decision to stop a run |
| `Report` | the line the C shim prints and the parser that takes it out of standard error |
| `Compare` | the streaming comparison of output |
| `Merge`, `Overlays`, `Limits`, `Paths` | the deep merge of configurations, their type, their validation, the paths they may declare, and the limits a test runs under |
| `Lanes`, `Slices` | one measuring gate per lane, and the names that keep lanes and Runners apart |
| `Strip` | blanking comments and literals, and line numbers in what is left |
| `Lease`, `Retry` | renewing a lease, and carrying a report until it ends |
| `Affinity`, `TestSet` | dividing processors between lanes, and the census of a package's tests |
| `Text`, `Decimal`, `Sorting`, `Sequences` | lossy UTF-8, white space, decimal numbers, stable sorting, slices |

State that the source updates in place is a class (`Compare.Comparing`, `Reaper.Watch`,
`Report.Buffer`, `Eviction.Cache`, `Retry.Backoff`, `Prepared.Directory`). Every loop is a method proved
equal to a function of its inputs, and the promises are lemmas about that function. Protocols
between processes are transition systems: `Can` says when a step may be taken, `Do` what it leaves,
and an invariant is proved of every step and so of every run.

## What is taken as given

- `SharedCache`: `hold`, `release`, and "held by nobody, so remove the entry" are one step each. In the
  source each is a few filesystem calls that another process could come between. Live Runners have
  distinct instance names, filesystem calls succeed, a Runner sweeps before it holds anything, and one
  Runner has at most one download of a file in progress. The digest is any function of the bytes, and the
  Server promises one checksum for a file id.
- `Prepared`: removing a directory is one step, and a directory that a filling made is complete only
  after its filler says so. A crash forgets the Runner's hold, so sweeps and evictions are allowed in
  the model in more states than in the source.
- `Eviction`: `stuck` names the entries whose removal the host refuses.
- `Lanes`: the systemd driver, no slice reset while a run is in it, no run cancelled. A run's programs spend
  processor time only while its container is there, and `finish` comes after the container's removal, or where
  none could be made (`docker.rs:1098-1147`): both are steps of the model. A slice that exists can be read.
- `Reaper`: a look carries the time since the look before it. `Clocked` says that time has passed, and only
  the theorem about untimed runs needs it.
- `Lease`: every request is answered within `d`, and the Server handles it, if at all, at any moment in
  between. A handled renewal may be heard as a failure.
- `Overlays`: how a configuration is written as a document and read from one is any pair of functions.
- `Paths`: a path's components are those of a Unix path.
- Durations are whole nanoseconds, milliseconds or microseconds, as each module says. Random draws, clocks,
  answers of the Server and readings of the kernel are parameters.

## Where the code and what is written about it differ

The model follows the code.

- `docker.rs:1844-1846` says that `idle` never resets for a step with no budget. Line 1970 resets it when bytes
  moved. The run still ends exactly at its window, because for such a step the cap is the window
  (`Reaper.UntimedRunEndsAtWindow`).
- `policy.rs:250` says that stripping keeps every byte position. It keeps every character position. Bytes are kept
  exactly up to the first blanked character of more than one byte (`Strip.BytePositionsKept`,
  `Strip.BytePositionsMove`).
- `cache.rs:311-315` says that a directory the manifest does not name was never handed to anybody. That is so
  unless a Runner crashed inside `forget`, between the manifest write and the rename aside
  (`Prepared.PublishDeletesNothingHanded`), and then it fails: from every start, for every product, one such crash is
  enough (`Prepared.TornForgetLosesIt`).
- `cache.rs:346-350` says that nothing derived from a foreign manifest is reused. `publish` writes what it read
  back under this entry's identity, so the next `published` vouches for it. What is published is always a finished
  filling if, and only if, every directory the manifest recorded at the start was one (`Prepared.PublishedIsFinished`,
  `Prepared.BadRecordIsVouchedFor`).
- `config.rs:299-304` says that a type which runs no judge must not have one, and `parse_as` refuses it. `overlaid` does
  not ask again: the merged package has none exactly where the overlay states none (`Overlays.OverlayFitsIff`,
  `Overlays.OverlayAddsJudge`).
- `keeper.rs:125-128` says that the work is held across two failed renewals in a row. With slow requests the
  exact condition is that four of them take less than one interval (`Lease.LeaseIsHeld`, `Lease.LeaseCanBeLost`);
  three are not enough.
- Slice names are distinct for fingerprints, not for every instance name (`Slices.PlainNamesMayMeet`; exactly when they
  meet: `Slices.SliceNamesMeet`). A group and a letter do not name one test (`TestSet.TwoNamesOneTest`; exactly when they
  do: `TestSet.SamePartsSameLength`).

## Model

| member | source | states |
|---|---|---|
| SharedCache.StepKeeps | crates/aj-protocol/src/cache.rs:685-824 | every step of every Runner (start, sweep, fetch, hit, miss, chunk, verify, refuse, fail, rename, drop, evict, crash) keeps the invariant: counts are live entries, a file is marked exactly while it is counted, handed-out files are present and true, partials hold what was received |
| SharedCache.ReachableIsSafe | crates/aj-protocol/src/cache.rs:685-824 | in every reachable state each live Runner's refcount is the number of its live `Entry` values, its marker is on disk exactly while that is positive, and a file `fetch` handed out is present with the promised checksum until its last holder is gone |
| SharedCache.RenamePublishesWhatWasVerified | crates/aj-protocol/src/cache.rs:722-749 | in every reachable state a verified download still has its partial, and the rename publishes exactly the bytes that were streamed and hashed, however downloads interleave |
| SharedCache.EvictionTakesNothingInUse | crates/aj-protocol/src/cache.rs:822-824 | in every reachable state an entry that may be evicted is one no live Runner holds, is fetching, or is downloading |
| SharedCache.EvictableIffNobodyHolds | crates/aj-protocol/src/cache.rs:781-824 | in every reachable state whose markers are all live Runners', a file can be evicted exactly when no live `Entry` anywhere is for it |
| SharedCache.PublishedChangesOnlyBy | crates/aj-protocol/src/cache.rs:685-891 | only a rename publishes and only an eviction takes away, each its own file; every other step leaves every published file as it is |
| SharedCache.PartialsLeft | crates/aj-protocol/src/cache.rs:722-749 | exactly which unfinished downloads a step takes away: an evicted entry's, and this Runner's own that was refused, swept or published |
| SharedCache.FetchCanEnd | crates/aj-protocol/src/cache.rs:696-760 | whatever has become of the disk a fetch has a next step: a hit where the file is there and else a download, a download its verification, refusal or rename, and a handed entry its drop |
| SharedCache.HitRun | crates/aj-protocol/src/cache.rs:696-710 | a fetch of what is there is two steps, after which it is handed out, counted and marked, and no file has changed |
| SharedCache.DownloadRun | crates/aj-protocol/src/cache.rs:721-759 | a fetch of what is not there can be downloaded: bytes of the promised checksum become the file, are handed out, and leave no partial |
| SharedCache.MismatchRun | crates/aj-protocol/src/cache.rs:725-735 | bytes of any other checksum are not published, leave no partial, and their entry is let go |
| SharedCache.RestartRun | crates/aj-protocol/src/cache.rs:537-545 | a starting Runner can always take away all of its own markers, and no other, and be up with nothing held and every file as it was |
| SharedCache.CrashLeavesTheDisk | crates/aj-protocol/src/cache.rs:524-531 | a live Runner can crash at any moment, leaves the whole disk as it is, and can start again |
| SharedCache.OnlyWhen | crates/aj-protocol/src/cache.rs:706-749 | a hit only of what is there and a download only of what is not; verified only with the promised checksum and refused only with another; swept or evicted only where no marker names the file |
| SharedCache.OnlyItsOwnerUnmarks | crates/aj-protocol/src/cache.rs:537-545 | no step of one Runner removes another's marker or the file it marks, so what a crashed Runner held stays until that Runner is back |
| SharedCache.SharedNameLosesTheHead | crates/aj-protocol/src/cache.rs:671-683 | why partial names carry the instance: under one name a second truncating writer leaves what was hashed if and only if what was written before it was all zeros |
| Eviction.Cache.Hold | crates/aj-protocol/src/cache.rs:762-779 | counts one up and leaves this Runner's marker on disk, changing no other marker |
| Eviction.Cache.Release | crates/aj-protocol/src/cache.rs:781-796 | counts one down, and only the last holder takes the marker away |
| Eviction.Cache.HoldAndRelease | crates/aj-protocol/src/cache.rs:762-796 | a hold undone by its release restores counts and markers exactly |
| Eviction.Cache.IsHeld | crates/aj-protocol/src/cache.rs:822-824 | says whether any Runner's marker names the entry |
| Eviction.Cache.Sweep | crates/aj-protocol/src/cache.rs:537-583 | removes exactly this Runner's markers, and its own unfinished work exactly where nobody holds the entry afterwards; counts the markers removed |
| Eviction.Cache.EvictToFit | crates/aj-protocol/src/cache.rs:857-891 | the in-place loop over a running total leaves everything under the ceiling and otherwise exactly the survivors that the lemmas below describe |
| Eviction.EvictionFits | crates/aj-protocol/src/cache.rs:857-891 | what is left fits under the ceiling, or all of it is being written, marked by some Runner, or not to be removed |
| Eviction.EvictionSparesUsed | crates/aj-protocol/src/cache.rs:876-889 | no entry that is marked by any Runner, being written or not to be removed goes, and nothing appears |
| Eviction.EvictionIsOldestFirst | crates/aj-protocol/src/cache.rs:864-866 | nothing goes while an entry that could have gone, unmarked and not being written, remains with a strictly older use, and one never used is the oldest |
| Eviction.EvictionIsNeeded | crates/aj-protocol/src/cache.rs:864-891 | what goes is exactly the evictable part of the `k` entries that were used longest ago, for some `k`; the last of them did go, and with only it put back the cache is over its ceiling |
| Eviction.EvictionIsAllowed | crates/aj-protocol/src/cache.rs:882-885 | every entry an eviction takes is one the shared machine allows a Runner to evict in that state |
| Eviction.SurvivorsAreMost | crates/aj-protocol/src/cache.rs:868-891 | for any list and any remainder, what goes is exactly the evictable part of the first `k`, and with only the last of them put back the ceiling is passed |
| Eviction.SumIsSizes | crates/aj-protocol/src/cache.rs:859 | the cache costs what all its entries cost, held or not |
| Prepared.StepKeeps | crates/aj-protocol/src/cache.rs:301-490 | every step of lock, fill, publish, forget, sweep, evict and crash keeps the invariant: one lock holder, fillings tracked from partial to publication, recorded products finished, handed products recorded |
| Prepared.PublishedIsFinished | crates/aj-protocol/src/cache.rs:369-378 | across a crash at any step, what `published` answers is a completed filling for this file id and checksum |
| Prepared.BadRecordIsVouchedFor | crates/aj-protocol/src/cache.rs:327-329 | the converse: from any start whose manifest records something else there is a run after which `published` vouches for it |
| Prepared.PublishDeletesNothingHanded | crates/aj-protocol/src/cache.rs:316-318 | from any start, without a crash inside `forget`, a directory `publish` removes was never handed out |
| Prepared.TornForgetLosesIt | crates/aj-protocol/src/cache.rs:425-440 | with one, it fails: from every entry as Runners find it, for every Runner and product, there is a run with one such crash in which somebody is handed the product and `publish` comes to the point of removing it |
| Prepared.ForgettingRun | crates/aj-protocol/src/cache.rs:425-440 | a whole forget frees the name, leaves every other product where it is, and keeps the directory, the same one, as this Runner's partial |
| Prepared.AsideStays | crates/aj-protocol/src/cache.rs:419-424 | in every run in which somebody goes on holding the entry, the directory set aside stays, whatever is prepared, swept, evicted or crashes, unless the Runner that set it aside takes up the same name again |
| Prepared.RefillLosesAside | crates/aj-protocol/src/cache.rs:403-406 | the exception is real: from every start there is a run in which the directory one Runner was given is set aside by another and deleted, while the first still holds the entry, by the second filling the same name |
| Prepared.OnePrepares | crates/aj-protocol/src/cache.rs:170-203 | in every state reachable from any start at most one Runner is inside the entry's lock |
| Prepared.ComingAndGoing | crates/aj-protocol/src/cache.rs:170-203 | the lock is taken exactly where it is free, is one Runner's until it leaves, and coming and going change nothing on disk |
| Prepared.NothingIsLeft | crates/aj-protocol/src/cache.rs:336-342 | a filling that is given up leaves the entry as it was but for its own partial; an eviction, possible exactly where nobody is in the entry, leaves nothing |
| Prepared.CrashThenSweep | crates/aj-protocol/src/cache.rs:537-583 | a crash leaves the disk and frees the lock; a sweep, possible exactly where nobody is in the entry, takes this Runner's own partials and drafts and nothing else |
| Prepared.Directory.Find | crates/aj-protocol/src/cache.rs:369-378 | answers a product exactly where the manifest is this entry's, records it, and it is on disk |
| Prepared.ForeignOffersNothing | crates/aj-protocol/src/cache.rs:370-373 | a manifest that is absent or another archive's offers nothing |
| Prepared.Directory.Write | crates/aj-protocol/src/cache.rs:456-489 | the manifest becomes these products under this entry's identity, and directories and partials are untouched |
| Prepared.Directory.Publish | crates/aj-protocol/src/cache.rs:301-333 | afterwards the filling is what is found under its name, its record is stored, and under an own manifest every other name is found as before |
| Prepared.Directory.Forget | crates/aj-protocol/src/cache.rs:425-440 | afterwards the name is not found, every other is as before, and the directory is kept aside |
| Prepared.Directory.Prepare | crates/aj-runner/src/prepare.rs:61-91 | a product that is found is left alone and nothing changes; one that is not is filled, published and found; where the filling fails it is removed and nothing is found differently |
| Prepared.Directory.ForgetSuperseded | crates/aj-runner/src/prepare.rs:149-156 | exactly the other builds of the same source in the same language stop being found |
| Prepared.SupersededAre | crates/aj-runner/src/prepare.rs:149-153 | what is superseded: another product under `_build` of the same source and language, never the key itself nor the unpacked package |
| Prepared.Directory.BuildJudge | crates/aj-runner/src/prepare.rs:123-159 | a judge that is found changes nothing; otherwise it is built, found and recorded with its source and language, the builds it supersedes are not found, and every other product is found as before; a failed build changes nothing that is found |
| Reaper.Watch.constructor | crates/aj-sandbox/src/docker.rs:1882-1892 | starts from a trace of no looks |
| Reaper.Watch.WaitedForAProcessor | crates/aj-sandbox/src/docker.rs:1902-1907 | says whether pressure grew since the last reading and remembers a reading where there is one |
| Reaper.Watch.Observe | crates/aj-sandbox/src/docker.rs:1918-1972 | a look over the budget is one, and after any other every field is a function of the whole trace: `best` the maximum reading, `idle` the time since the last progress less the starved looks |
| Reaper.NextLook | crates/aj-sandbox/src/docker.rs:1918-1972 | what one more look makes of the quiet time, the maximum, the pressure and the bytes of any trace |
| Reaper.Watch.Tick | crates/aj-sandbox/src/docker.rs:1910-1997 | the answer is a function of the whole trace of looks, which names it by budget, progress, window and cap in the source's order |
| Reaper.Reap | crates/aj-sandbox/src/docker.rs:1280-1321 | ends a run at the first look whose answer is a stop, with that reason |
| Reaper.AnswerOfPrefix | crates/aj-sandbox/src/docker.rs:1910-1997 | an answer depends only on the looks up to it |
| Reaper.QuietStep | crates/aj-sandbox/src/docker.rs:1918-1972 | moved bytes, or in a timed run a reading above zero and all before it, start the quiet time again; a timed, measured look whose pressure is above the last one read adds nothing; any other adds its length |
| Reaper.BestIsMaximum | crates/aj-sandbox/src/docker.rs:1941-1943 | `best` is zero or a reading that was seen, and no reading was higher |
| Reaper.TimedRunEnds | crates/aj-sandbox/src/docker.rs:1847-1852 | a timed run ends no later than the first look at or past five times its limit and two seconds, whatever the readings |
| Reaper.UntimedRunEndsAtWindow | crates/aj-sandbox/src/docker.rs:1844-1852 | an untimed run ends at exactly the first look at or past its window, computing or talking, and for no other reason than time |
| Reaper.TimedRunIsLetBe | crates/aj-sandbox/src/docker.rs:1974-1976 | a timed run goes on if and only if it is within its ceiling, quiet for less than the window, and short of the cap |
| Reaper.SteadyProgressIsNeverQuiet | crates/aj-sandbox/src/docker.rs:1273-1279 | if every stretch as long as the window holds some progress, the quiet time never reaches the window |
| Reaper.SlowButWorkingRunsToTheCap | crates/aj-sandbox/src/docker.rs:1273-1279 | a slow program that keeps making progress is ended by its own ceiling or the cap and by nothing else |
| Reaper.NeverStartedMeansNothing | crates/aj-sandbox/src/docker.rs:1978-1988 | "never started" is said only of a timed run where no look read any processor time and no byte has crossed |
| Reaper.TimeLimitIff | crates/aj-sandbox/src/docker.rs:1798-1800 | the answer is `TimeLimit` exactly where a timed run has read more than its limit and two seconds |
| Reaper.OtherAnswersIff | crates/aj-sandbox/src/docker.rs:1974-1996 | short of that, exactly when a run goes on, and which of `NeverStarted`, `WallClock` and `Overall` it gets: by quiet time and window, elapsed time and cap, and whether anything was ever read or moved |
| Reaper.CapAboveWindow | crates/aj-standard-io/src/pipeline.rs:1877-1879 | the window is four times the limit and four seconds, saturating; the cap is five times the limit and two seconds, and above the window by at least the limit and six seconds |
| Report.LineFits | images/shim/aj-shim.c:620-633 | for all values the shim's types hold, `snprintf` into 512 bytes never cuts the line |
| Report.LineSpelled | images/shim/aj-shim.c:628-633 | the printed line decodes to the nonce, ` aj-shim1 ok ` and the code, signal, cpu, peak, wall, user and system in decimal with single spaces and a line feed |
| Report.MarkerIsBorderless | crates/aj-sandbox/src/docker.rs:2018 | no proper prefix of a marker is also its suffix, for every nonce of 32 hex digits |
| Report.MarkerSpelled | crates/aj-sandbox/src/docker.rs:2018 | the marker is the nonce and ` aj-shim1 ` |
| Report.Scan | crates/aj-sandbox/src/docker.rs:2024-2041 | the index loop finds exactly the spans of the reference scan |
| Report.DrainAll | crates/aj-sandbox/src/docker.rs:2048-2052 | draining the spans backwards, in place, leaves exactly the bytes the scan does not cover |
| Report.TakeReport | crates/aj-sandbox/src/docker.rs:2017-2067 | reads the last marker line and leaves the buffer without its marker lines, also where the line does not parse |
| Report.ScanOverPrefix | crates/aj-sandbox/src/docker.rs:2026-2041 | over a prefix whose marker lines are all ended, the scan finds the same spans whatever follows, provided it begins as a marker does |
| Report.WholeLineWins | crates/aj-sandbox/src/docker.rs:2043-2052 | any whole marker line after such a prefix is the one that is read, and is the only thing taken out beyond the prefix's own |
| Report.CutLineLoses | crates/aj-sandbox/src/docker.rs:2029-2035 | a marker line without its newline is not found, changes nothing read before it, and stays in the text |
| Report.LineReadsBack | crates/aj-sandbox/src/docker.rs:2054-2066 | the fields of the printed line parse back to cpu, peak, user and system |
| Report.FieldsNeeded | crates/aj-sandbox/src/docker.rs:2054-2060 | a line of any shape is a report exactly where it begins with `ok `, has seven words, and its third, fourth, sixth and seventh are 64-bit numbers |
| Report.ReportRoundTrip | images/shim/aj-shim.c:620-634 | for every prefix whose marker lines are ended, parsing prefix plus the printed line gives exactly its four values and leaves the prefix less its marker lines byte for byte |
| Report.TruncatedLineIsText | crates/aj-sandbox/src/docker.rs:2029-2035 | cut anywhere before its newline, the line adds nothing to what the prefix reads as |
| Report.TruncatedLineAlone | crates/aj-sandbox/src/docker.rs:2029-2043 | after a marker-free prefix every proper truncation gives no report and an unchanged buffer |
| Compare.Comparing.Against | crates/aj-standard-io/src/compare.rs:118-125 | begins with nothing fed |
| Compare.Comparing.Settle | crates/aj-standard-io/src/compare.rs:187-201 | takes one word of each side and ends the comparison exactly where they differ, naming both and the place |
| Compare.Comparing.SettleAll | crates/aj-standard-io/src/compare.rs:156-161 | goes on exactly while the words so far are a prefix of the expected ones, and otherwise gives the verdict on them |
| Compare.Comparing.Feed | crates/aj-standard-io/src/compare.rs:132-163 | answers nothing exactly while the words up to the last ASCII space are a prefix of the expected ones; an answer is the verdict on everything fed, and never changes |
| Compare.Comparing.Finish | crates/aj-standard-io/src/compare.rs:166-184 | the verdict on the whole of what was fed |
| Compare.CompareWhole | crates/aj-standard-io/src/compare.rs:211-220 | the verdict on both texts decoded and split into words |
| Compare.CompareStream | crates/aj-standard-io/src/pipeline.rs:1644-1734 | however output is cut into chunks the verdict is that of the whole, the run is stopped at exactly the chunk that completes the first wrong word, and with a cap all of this holds of the chunks before the one that passes it, which is exactly where the output is longer than the cap |
| Compare.Relay | crates/aj-standard-io/src/pipeline.rs:1653-1725 | counts every chunk, and compares exactly those before the one that passes the cap |
| Compare.VerdictIsFirstDifference | crates/aj-standard-io/src/compare.rs:187-201 | a verdict of "different" at `n` means the first `n` words agree and the next do not, a missing word counting as one |
| Compare.EqualIffSameWords | crates/aj-standard-io/src/compare.rs:180-183 | equal exactly where the words are the same |
| Compare.OnlySeparatorsMayDiffer | crates/aj-standard-io/src/compare.rs:156 | printable texts are equal only if they are the same text, and what stands between two words may be any of the White_Space characters and no other |
| Compare.SettledIsSettled | crates/aj-standard-io/src/compare.rs:132-135 | once settled, every extension of the output compares to the same difference |
| Compare.SettledNow | crates/aj-standard-io/src/compare.rs:156-161 | what settles the comparison is already the verdict on all that has arrived, unfinished word included |
| Compare.UnsettledMayStillMatch | crates/aj-standard-io/src/compare.rs:179-183 | while every whole word was right and what is held begins the next expected word (or is nothing), something can follow that makes the output equal, so too little is never a difference before the end |
| Compare.CutOfSum | crates/aj-standard-io/src/compare.rs:145-153 | searching only the arriving bytes finds the last space of everything |
| Compare.CutIsLastSpace | crates/aj-standard-io/src/compare.rs:153 | the cut is after the last space, tab, line feed, form feed or carriage return |
| Compare.OpenMeans | crates/aj-standard-io/src/compare.rs:153-162 | while nothing is settled, exactly, the words up to the last space are the first of the expected ones |
| Compare.ChunkMakesWhole | crates/aj-standard-io/src/compare.rs:136-154 | what a chunk makes whole is the stretch between the old last space and the new one, and the rest is held |
| Compare.ChunkIsHeld | crates/aj-standard-io/src/compare.rs:136-153 | a chunk with no space commits nothing and is held entirely |
| Compare.SaidCut | crates/aj-standard-io/src/compare.rs:139-143 | lossy decoding and splitting into words distribute over a cut after an ASCII space |
| Text.DecodeCut | crates/aj-standard-io/src/compare.rs:139-143 | an ASCII byte is never inside a sequence: decoding `a`, an ASCII byte and the rest is decoding each apart, however invalid they are |
| Text.DecodeEncode | crates/aj-standard-io/src/compare.rs:155 | decoding what a text encodes to gives the text back |
| Text.FirstPieceIs | crates/aj-standard-io/src/compare.rs:155 | a lossy decoder takes the character the bytes begin with, and otherwise one replacement for the longest stretch that begins some character, or for one byte |
| Text.EncodedEnds | crates/aj-standard-io/src/compare.rs:155 | the encoding of the first and last character of every length, as in section 3 of RFC 3629 |
| Text.WordsCut | crates/aj-standard-io/src/compare.rs:156 | splitting at Unicode white space distributes over any white space character |
| Text.WordsAreWords | crates/aj-standard-io/src/compare.rs:156 | every piece of a split is non-empty and free of white space |
| Text.SeparatorsAre | crates/aj-standard-io/src/compare.rs:156 | exactly the 25 characters of Unicode's White_Space separate two words |
| Text.SpacesSayNothing | crates/aj-standard-io/src/compare.rs:156 | blank text has no words |
| Text.TrimIs | crates/aj-sandbox/src/docker.rs:2045 | trimming takes the white space at the ends and nothing else |
| Merge.KeyedByGroup | crates/aj-package/src/config.rs:632-639 | true exactly if every element has an unsigned group and no two have the same |
| Merge.GroupIs | crates/aj-package/src/config.rs:641-643 | an element is keyed by its `group` member where that is an unsigned number, and by nothing else |
| Merge.ObjectsMerge | crates/aj-package/src/config.rs:592-602 | objects merge member by member and keep the members of both |
| Merge.OthersReplace | crates/aj-package/src/config.rs:604-622 | two arrays merge only where every element has a group and no two the same; everything else but two objects is replaced |
| Merge.OneGroupIsNarrowed | crates/aj-package/src/config.rs:452-457 | an overlay of one group merges with that one and leaves its neighbour, for any numbers, member and values; arrays with a group twice are replaced |
| Merge.MergeValues | crates/aj-package/src/config.rs:588-623 | the recursive, inserting and in-place merge computes the reference merge |
| Merge.MergeMembers | crates/aj-package/src/config.rs:592-602 | overlaying member by member in any order gives the merged object |
| Merge.MergeItems | crates/aj-package/src/config.rs:604-619 | updating or appending element by element gives the merged array |
| Merge.PartlyStep | crates/aj-package/src/config.rs:608-617 | each overlay element meets at most one element of the array being built, one that no earlier element touched |
| Merge.MergeSelf | crates/aj-package/src/config.rs:588-623 | laying a value over itself changes nothing |
| Merge.MergeTwice | crates/aj-package/src/config.rs:588-623 | laying the same overlay twice is laying it once |
| Merge.NoGroupIsLost | crates/aj-package/src/config.rs:604-619 | merged keyed arrays are keyed, with exactly the groups of both |
| Merge.MergedItems | crates/aj-package/src/config.rs:604-619 | the base's groups keep their places, and what is appended is the overlay's own elements of new groups |
| Merge.ChildOfMerged | crates/aj-package/src/config.rs:588-623 | one step down the merged value is the merge of the children, or the only child there is |
| Merge.ReadMerged | crates/aj-package/src/config.rs:588-623 | every path of members and groups in the merged document, in terms of both documents: merged, the overlay's, the base's, or gone because an ancestor was replaced |
| Merge.LeafOfOverlayWins | crates/aj-package/src/config.rs:429-457 | a leaf the overlay states reads as in the overlay |
| Merge.UnnamedPathIsKept | crates/aj-package/src/config.rs:429-462 | a path the overlay does not name, under nothing it replaces, reads as in the base |
| Merge.LayOver | crates/aj-package/src/config.rs:467-491 | the loop lays the overlay less `type`, `format` and `version` on the document, member by member, unless it says nothing |
| Merge.IdentityIsKept | crates/aj-package/src/config.rs:479-485 | no overlay adds, removes or changes `type`, `format` or `version` |
| Merge.LaidTwice | crates/aj-package/src/config.rs:466-491 | laying an overlay on a document that already has it on changes nothing |
| Merge.LaidOnItself | crates/aj-package/src/config.rs:466-491 | laying a document on itself changes nothing |
| Overlays.Overlaid | crates/aj-package/src/config.rs:466-496 | without an overlay the configuration as it is; otherwise the merged document as it is read, accepted exactly if it is sound, refused as unreadable or for a fault it has |
| Overlays.SoundOrRefused | crates/aj-package/src/config.rs:493-496 | no overlay makes an unsound configuration of a sound one |
| Overlays.OwnDocumentChangesNothing | crates/aj-package/src/config.rs:466-496 | a configuration whose document reads back as itself is unchanged by that document as an overlay |
| Overlays.TwiceIsOnce | crates/aj-package/src/config.rs:466-496 | applying an overlay twice is applying it once exactly where the second reading gives the configuration the first one gave |
| Overlays.DefaultsDoNotMatter | crates/aj-package/src/config.rs:466-496 | that is so for every configuration that reads back from its own document, if that document has on it all that it was read from, whatever defaults it has besides |
| Merge.MergeTransitive | crates/aj-package/src/config.rs:588-623 | a value that has a document on it has on it all that the document has, through objects and keyed arrays |
| Overlays.ParseAs | crates/aj-package/src/config.rs:280-327 | accepts exactly the sound documents of the type asked for, in either spelling, that declare no judge that type does not run, and says which of these fails |
| Overlays.TypesAre | crates/aj-package/src/config.rs:287-316 | what a package may say it is, in one string or two fields, and that only `standard-io` runs a judge |
| Overlays.OverlayFitsIff | crates/aj-package/src/config.rs:297-310 | an accepted overlay leaves a package of a type that runs no judge without one exactly where it states none |
| Overlays.OverlayAddsJudge | crates/aj-package/src/config.rs:466-496 | for every other type, a package that fits it, and an overlay that is accepted and gives it a checker |
| Limits.Validated | crates/aj-package/src/config.rs:329-427 | accepts exactly the sound configurations, unchanged, and otherwise names a fault the configuration has, the paths it declares included |
| Limits.SoundIffNoFault | crates/aj-package/src/config.rs:329-427 | a configuration is sound exactly if it has no fault |
| Limits.FaultsAre | crates/aj-package/src/config.rs:329-427 | what is a fault, in the numbers of the format: a limit of zero, no groups, both judges, a count of none, of over 26 or without an interactor, a path that is not the package's |
| Paths.SafePath | crates/aj-package/src/archive.rs:155-196 | accepts exactly the short relative names of allowed characters that never go up and name something, as the parts that name something, and refuses any other for a reason it has |
| Paths.WithinParts | crates/aj-package/src/archive.rs:177-196 | keeps exactly the parts that name something, in order, unless one goes up or none is left |
| Paths.NamedMore | crates/aj-package/src/archive.rs:179-182 | a path names its parts in order, but for the empty ones and the dots |
| Paths.ReasonsAre | crates/aj-package/src/archive.rs:156-194 | what each reason for refusing a name says of it |
| Paths.CharactersAgainst | crates/aj-package/src/archive.rs:165-175 | which characters are a reason to refuse a name |
| Paths.SafeCharacters | crates/aj-package/src/archive.rs:155-169 | a safe name is of 1 to the most characters, each an ASCII letter, digit, dot, dash, underscore or slash, and does not begin with a slash |
| Paths.NamesMakeAPath | crates/aj-package/src/archive.rs:177-195 | every non-empty list of such names, put together with slashes and short enough, is safe and is read back as that list |
| Paths.SafeStaysInside | crates/aj-package/src/archive.rs:144-154 | an accepted name joined onto any directory leads strictly below it, to its own parts |
| Paths.AbsoluteLeadsAway | crates/aj-package/src/archive.rs:152-154 | an absolute name joined onto two directories that lie apart leaves at least one of them |
| Limits.Apply | crates/aj-package/src/config.rs:645-652 | each field becomes what is stated, or stays |
| Limits.ForLanguage | crates/aj-package/src/config.rs:519-527 | each field comes from the last key that states it, else from the package |
| Limits.Effective | crates/aj-package/src/config.rs:544-557 | each field comes from the group, else the last key that states it, else the package |
| Limits.OfGroupIs | crates/aj-package/src/config.rs:547-552 | a declared group's limits are its own, and a group that is not declared has none |
| Limits.OverlayIs | crates/aj-package/src/config.rs:521-524 | an override is what its own key says |
| Limits.LastKeyWins | crates/aj-package/src/config.rs:519-527 | of any number of keys the last that states a time decides it, and the package where none does |
| Limits.LastKeyWinsMemory | crates/aj-package/src/config.rs:519-527 | the same of memory |
| Limits.MoreSpecificWins | crates/aj-package/src/config.rs:506-514 | for family and toolchain, field by field: group, toolchain, family, package |
| Limits.SoundLimitsArePositive | crates/aj-package/src/config.rs:654-660 | no accepted package runs any test, in any language, under a limit of zero |
| Lanes.ReadingsAreExact | crates/aj-sandbox/src/cgroups.rs:285-313 | in every interleaving at most one run is open per slice, every run whose container was started is read as exactly what it used, and any other as zero or, where there is no slice, as nothing |
| Lanes.ReadingsSumToGrowth | crates/aj-sandbox/src/cgroups.rs:574-624 | with no run open in a lane, its readings sum to the growth of its slice's counter, over every slice it has had |
| Lanes.RunIsRead | crates/aj-sandbox/src/cgroups.rs:285-313 | in every reachable state a waiting run whose lane is free can begin, start, spend any time, be removed and finish, and is read as exactly that time |
| Lanes.BesidePerturbsNothing | crates/aj-sandbox/src/docker.rs:997-1001 | striking every arrival and every moment of the programs run alongside out of any history leaves a history with the same gates, counters, measured runs and readings |
| Lanes.WaitingRunBegins | crates/aj-sandbox/src/cgroups.rs:293-294 | in every reachable state a waiting run can begin once the run of its lane, if there is one, has been removed and finished |
| Lanes.LaneOf | crates/aj-sandbox/src/cgroups.rs:112-114 | an index has its own lane, and the first one where it is nobody's |
| Lanes.ReadingAcrossRemaking | crates/aj-sandbox/src/cgroups.rs:601-605 | exactly when a reading taken across a removed and remade slice would still be right |
| Slices.UnitSafe | crates/aj-sandbox/src/cgroups.rs:784-801 | never empty, at most 64 characters, and each of the first 64 is kept exactly if it is an ASCII letter, digit or underscore |
| Slices.NamesSpelled | crates/aj-sandbox/src/cgroups.rs:723-728 | the slice of lane zero, of any other lane, and the prefix of a run, for an instance that is a name as it stands |
| Slices.SlicePath | crates/aj-sandbox/src/cgroups.rs:730-749 | answers exactly for accepted names, with every dash-prefix nested in order |
| Slices.AcceptedAre | crates/aj-sandbox/src/cgroups.rs:730-741 | a name is accepted exactly if it ends in `.slice` and none of its parts is empty, a dot, two dots, or has a slash in it |
| Slices.OtherSuffixRefused | crates/aj-sandbox/src/cgroups.rs:732-734 | no other suffix is accepted |
| Slices.LevelsAre | crates/aj-sandbox/src/cgroups.rs:742-746 | there are as many levels as parts, each the first so many parts with dashes |
| Slices.PathOfParts | crates/aj-sandbox/src/cgroups.rs:736-748 | the loop over parts builds the nested prefixes, or nothing where a part is not a name |
| Slices.PathEndsInName | crates/aj-sandbox/src/cgroups.rs:730-749 | a path ends in the name of its slice |
| Slices.PathIsInjective | crates/aj-sandbox/src/cgroups.rs:730-749 | accepted names with one path are one name |
| Slices.EachLevelIsASlice | crates/aj-sandbox/src/cgroups.rs:701-704 | each level of a path is an accepted slice whose own path is that path down to it, and its name is the one above with one dash and one part more |
| Slices.LanesAreSiblings | crates/aj-sandbox/src/cgroups.rs:710-718 | every lane of every Runner is exactly two levels deep, directly under the shared slice |
| Slices.SliceNamesMeet | crates/aj-sandbox/src/cgroups.rs:723-728 | exactly when two instances and lanes share a slice name |
| Slices.DistinctSlices | crates/aj-sandbox/src/cgroups.rs:778-784 | for hex fingerprints, distinct instances or lanes have distinct slices |
| Slices.PlainNamesMayMeet | crates/aj-sandbox/src/cgroups.rs:723-728 | two plain instance names whose slices are one |
| Slices.PrefixSaysWhose | crates/aj-sandbox/src/cgroups.rs:774-776 | a Runner's prefix fits the name of a run exactly if the run's instance is the same to systemd |
| Slices.Abandoned | crates/aj-sandbox/src/cgroups.rs:398-415 | removes exactly what carries this Runner's prefix and is not busy, counts it, and never another Runner's |
| Strip.Strip | crates/aj-standard-io/src/policy.rs:256-350 | the nested index loops compute what the one-character lexer shows, for every source, family and flags |
| Strip.StripLiteral | crates/aj-standard-io/src/policy.rs:298-342 | from an opening quote to its end the loops show what the lexer shows, triple quotes and escapes included |
| Strip.StripInside | crates/aj-standard-io/src/policy.rs:312-341 | from inside a literal to the end of its closing quote the loop shows what the lexer shows, escapes included |
| Strip.PlainStays | crates/aj-standard-io/src/policy.rs:345-346 | whatever is not the first character of a comment or literal under the flags stays, and the rest is stripped on its own |
| Strip.SlashStays | crates/aj-standard-io/src/policy.rs:270-283 | a slash that neither slash nor star follows stays |
| Strip.LineCommentGoes | crates/aj-standard-io/src/policy.rs:276-282 | a line comment is blanked up to the end of its line, and the rest is stripped on its own |
| Strip.BlockCommentGoes | crates/aj-standard-io/src/policy.rs:283-297 | a block comment is blanked up to the first star and slash after its opening slash, `/*/` included, and the rest is stripped on its own; without one, all is blanked |
| Strip.LiteralGoes | crates/aj-standard-io/src/policy.rs:298-342 | a literal is blanked up to its first closing quote that no backslash takes, and the rest is stripped on its own; without one, all is blanked |
| Strip.TripleLiteralGoes | crates/aj-standard-io/src/policy.rs:300-339 | the same of three quotes in Python |
| Strip.StripKeepsPositions | crates/aj-standard-io/src/policy.rs:250-255 | as many characters, each itself or a space, and line breaks exactly where they were |
| Strip.StripTwice | crates/aj-standard-io/src/policy.rs:256-350 | stripping what was stripped changes nothing |
| Strip.SurvivorIsCode | crates/aj-standard-io/src/policy.rs:345-346 | whatever survives stands where it stood, in code, and opens nothing |
| Strip.OnlyLineComments | crates/aj-standard-io/src/policy.rs:270-282 | in C without quotes and block comments, exactly the text from two slashes to the end of their line is blanked |
| Strip.Scan | crates/aj-standard-io/src/policy.rs:395-398 | finds exactly the byte offsets of the line breaks |
| Strip.OffsetIsLength | crates/aj-standard-io/src/policy.rs:396 | the byte at which a character begins is the length of the encoding of all before it |
| Strip.NewlinesAre | crates/aj-standard-io/src/policy.rs:400-402 | the line breaks before a character are the line feeds before it |
| Strip.PartitionPoint | crates/aj-standard-io/src/policy.rs:401 | splits an ascending list at the offset |
| Strip.LineOf | crates/aj-standard-io/src/policy.rs:400-402 | the line of a byte offset in a stripped text is one plus the line breaks before that character in the participant's own file |
| Strip.BytePositionsKept | crates/aj-standard-io/src/policy.rs:250 | byte offsets are kept exactly where no character of more than one byte was blanked before |
| Strip.BytePositionsMove | crates/aj-standard-io/src/policy.rs:250 | a source whose byte offsets stripping moves |
| Lease.Granted | crates/aj-runner/src/config.rs:286-295 | what was configured, never more but at the floor of a minute and never less but at the ceiling of an hour |
| Lease.EveryIsAQuarter | crates/aj-runner/src/keeper.rs:150-181 | for every configured lease the interval is exactly a quarter of it and the floor is never reached |
| Lease.Keep | crates/aj-runner/src/keeper.rs:106-132 | renews until the answer that the lease is lost, and never after it |
| Lease.SentAtIs | crates/aj-runner/src/keeper.rs:107-113 | renewal `k` is sent after `k + 1` intervals and the requests before it |
| Lease.DeadlineIsLatest | crates/aj-runner/src/keeper.rs:125-128 | the deadline in force is the latest that the grant or a handled renewal has set |
| Lease.LeaseIsHeld | crates/aj-runner/src/keeper.rs:125-128 | with no three renewals failing in a row and four requests shorter than one interval, the deadline is ahead at every instant |
| Lease.LeaseCanBeLost | crates/aj-runner/src/keeper.rs:125-128 | the condition is exact: at any longer delay a run with no three failures in a row, every answer of which is true, loses the lease |
| Retry.JitterStaysNear | crates/aj-protocol/src/backoff.rs:59-67 | for every draw a delay is at least 80 % of the whole milliseconds of its base and at most 120 % of it |
| Retry.JitterReaches | crates/aj-protocol/src/backoff.rs:59-67 | every whole number of milliseconds within a fifth of the base can be drawn, and no other |
| Retry.JitterOfLittle | crates/aj-protocol/src/backoff.rs:62-64 | under five milliseconds nothing is drawn |
| Retry.Backoff.constructor | crates/aj-protocol/src/backoff.rs:31-38 | the floor is at least 100 ms and the ceiling at least the floor |
| Retry.Backoff.Reset | crates/aj-protocol/src/backoff.rs:41-43 | starts the draws over |
| Retry.Backoff.NextDelay | crates/aj-protocol/src/backoff.rs:46-50 | draw `n` is a jitter of interval `n`, whatever came before the last reset |
| Retry.IntervalDoubles | crates/aj-protocol/src/backoff.rs:45-50 | after `n` draws the interval is the floor times two to the `n`, up to the ceiling |
| Retry.HowLong | crates/aj-runner/src/run.rs:148-153 | one draw, and the Server's wish where it is longer |
| Retry.ReportWithRetries | crates/aj-runner/src/run.rs:1086-1151 | for every Server it ends, having sent exactly while each refusal could be retried and its wait would end inside the granted lease, and its outcome is that of the last sending |
| Retry.WaitIsLong | crates/aj-runner/src/run.rs:144-147 | no wait is below the Runner's own draw, four fifths of its interval, or four seconds |
| Retry.WaitIs | crates/aj-runner/src/run.rs:148-153 | each wait is a draw of an interval that doubles from five seconds to thirty, or what the Server asked for where that is longer |
| Retry.OutcomeIs | crates/aj-runner/src/run.rs:1074-1148 | delivered exactly on acceptance, dropped exactly on a lost lease, sent again exactly after a retryable refusal whose wait ends inside the lease with no word to stop, and given up otherwise |
| Retry.SendsAreApart | crates/aj-runner/src/run.rs:1095-1150 | sending `k` is at least four seconds times `k` after the first |
| Retry.ResendsAreBounded | crates/aj-runner/src/run.rs:1046-1081 | every sending after a wait begins inside the granted lease, and there are fewer than one for each four seconds of it, from the third on one for each twenty-four |
| Retry.RetryAfterIsHonoured | crates/aj-runner/src/run.rs:142-153 | a wish within the lease is waited out in full, one beyond it ends the report |
| Affinity.ParseList | crates/aj-sandbox/src/affinity.rs:67-87 | the accumulating loop reads what the list names |
| Affinity.SpanIsRead | crates/aj-sandbox/src/affinity.rs:72-78 | a span names every processor from its first to its last, and none where it runs backwards or over more than 4096 steps |
| Affinity.ListsJoin | crates/aj-sandbox/src/affinity.rs:69-81 | a comma puts two lists end to end in the order written |
| Affinity.EmptyGroupIsSkipped | crates/aj-sandbox/src/affinity.rs:69 | an empty group says nothing |
| Affinity.CommasSpelled | crates/aj-sandbox/src/affinity.rs:158-160 | a lane's processors are written in decimal with a comma between each two |
| Affinity.NamedCommas | crates/aj-sandbox/src/affinity.rs:158-160 | printing processors and parsing them back is the identity, for every non-empty list of machine words |
| Affinity.Cut | crates/aj-sandbox/src/affinity.rs:129-163 | one lane keeps its string, no readable list pins nothing, a short one is given whole, and otherwise the parsed lanes are consecutive, non-empty, in the written order, together the whole list, sizes within one and the larger first |
| Affinity.CutFound | crates/aj-sandbox/src/affinity.rs:149-162 | the exact division, for every list at least as long as the number of lanes |
| TestSet.SplitOfName | crates/aj-package/src/testset.rs:214-230 | `split` inverts group and letter of a counted test |
| TestSet.SplitIs | crates/aj-package/src/testset.rs:214-230 | digits followed by lower-case letters split into the number and the letters, if 32 bits hold it |
| TestSet.TestNameSpelled | crates/aj-package/src/testset.rs:73 | the tests of a counted group are lettered from `a` on |
| Decimal.DecimalIs | crates/aj-package/src/testset.rs:225-227 | one digit denotes itself, and one more to the right ten times what stands before it and itself; a minus before a negative number |
| Decimal.ParseIs | crates/aj-package/src/testset.rs:225-227 | digits parse, with or without one plus before them, to the number they denote if it is below the bound, and nothing else does |
| TestSet.NamesAreDistinct | crates/aj-package/src/testset.rs:73 | distinct groups or indices make distinct names |
| TestSet.TwoNamesOneTest | crates/aj-package/src/testset.rs:214-230 | two names with one group and one letter |
| TestSet.SamePartsMeansZeros | crates/aj-package/src/testset.rs:214-230 | two names have one group and one letter exactly where the longer is the shorter with zeros before it |
| TestSet.SamePartsSameLength | crates/aj-package/src/testset.rs:214-230 | names of one group and one letter are one name exactly where they are as long as each other |
| TestSet.NamesOf | crates/aj-package/src/testset.rs:70-75 | the names the declared counts reach, exactly |
| TestSet.Found | crates/aj-package/src/testset.rs:77-123 | accepts a directory exactly if every test file belongs, refuses any other for a file that does not, and then knows which stems have which file |
| TestSet.Names | crates/aj-package/src/testset.rs:67-133 | the names of the tests, declared or found, or a refusal that is so |
| TestSet.Read | crates/aj-package/src/testset.rs:66-192 | accepts exactly the acceptable packages, and then the tests are the declared names and the file stems, once each, with their files, ordered by group, letter and name; refuses any other for a reason that is so |
| TestSet.RecordsAre | crates/aj-package/src/testset.rs:162-168 | each record is of a test, with its group, letters and which files it has; each test has one and no two have one name |
| TestSet.AcceptedAre | crates/aj-package/src/testset.rs:66-192 | exactly when a package is accepted, with and without a directory: a count where there is none, every file in its place, every test with its files, every group with a test |
| TestSet.TestsAre | crates/aj-package/src/testset.rs:70-133 | a name is a test exactly where a count reaches it or there is an input or an output of that name |
| TestSet.FilesNeeded | crates/aj-package/src/testset.rs:146-160 | what a test needs: nothing with an interactor, its input with a checker, both without |
| TestSet.CensusOrder | crates/aj-package/src/testset.rs:177 | a census is ordered by group, lowest first, then letters, then name |
| TestSet.RecordAll | crates/aj-package/src/testset.rs:128-177 | refuses exactly where a name lacks a file its judge needs; otherwise one record a name, sorted |
| TestSet.RecordEach | crates/aj-package/src/testset.rs:142-168 | the loop makes one record a name, in the order of the names, unless one lacks a file its judge needs, which it names |
| TestSet.NoGroupIsEmpty | crates/aj-package/src/testset.rs:179-189 | refuses exactly where a declared group has no test, naming one |
| TestSet.GroupsCoverTests | crates/aj-package/src/testset.rs:206-210 | the counts of the declared groups sum to the number of tests, and each is positive |
| TestSet.CountedGroupsAreExact | crates/aj-package/src/testset.rs:105-115 | a group with a declared count has exactly that many tests |
| Sorting.SortOrders | crates/aj-package/src/testset.rs:177 | the sort orders, and keeps ties in the order they came in |
| Sorting.TextLeIs | crates/aj-package/src/testset.rs:177 | text is ordered by its first differing character, a prefix first |

## Left out

- The container API, HTTP, signals, the async runtime, identity, `memfd` and pipes: foreign calls.
- `score.rs`, `language.rs` and the verdict of `pipeline.rs`: not part of this model, except for `reaping_deadline` and the
  relay's comparing side. Its forwarding to a checker, and what is reported of a capped run, are not modelled.
- Regular expressions and `without_includes` in `policy.rs`: its pattern can span blank lines and does not keep line breaks.
- `calibrate.rs`: its rule is floating point, and its memory half never yields a value.
- `compare.rs` `note` and `quote`: text for people.
- `cgroups.rs`: the cgroupfs driver's readings (a directory a run), memory peaks and out-of-memory counts. Only
  processor time is modelled.
- `measured_time` and `memory_kill` in `docker.rs`, which settle what is reported of a run that has already ended.
- `restricted`, `width` and `siblings_of` in `affinity.rs`, which compare what the host has with what the Runner was given.
- Reading and writing YAML and JSON text, and the field rules of the typed reading (`config.rs:493-495`): parameters of `Overlays`.
- `archive.rs` other than `safe_path`; what is on disk where a path leads (links, for example).
- `sweep_the_old_layout`, marker directories and the modification times of `used` markers in `cache.rs`.
- Removing a directory file by file, `fsync`, and what a directory removed halfway looks like after a crash.
- The keys of built judges (`prepare.rs:195-203`): a digest. What a manifest records of a product beside its source and
  language is stored and never read.
- A file of `tests/` is a stem and an extension; how a path is divided into them is not modelled. The second look-up of
  a name's group (`testset.rs:135-140`) cannot fail after the first, and is a precondition of `TestSet.RecordEach`.
- Eviction.Cache.EvictToFit: the entries are one list, so the walk over shard directories and two entries with one file id
  under different checksums are not modelled.
- Prepared.StepKeeps: a lock that is polled is a step that waits until the lock is free; being told to stop while
  waiting leaves the state as it was.
- Lanes.ReadingsAreExact: does not model a slice systemd resets while a run is in it, which `Lanes.ReadingAcrossRemaking` describes apart.
