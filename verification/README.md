# A verified model of FastAdHunter's state

FastAdHunter filters DNS and web traffic on a home network. This project models the parts of it
that keep state which must survive concurrency, crashes and the calendar, and proves what each of
them promises, over every input or every run.

- **Time zones** (`crates/fah-config/src/tz.rs`): the calendar arithmetic (`Calendar.dfy`), rules and
  local time (`TimeZone.dfy`), when the daylight-saving test is right (`DaylightSaving.dfy`), what the
  32-bit year changes (`YearRange.dfy`), and the POSIX TZ strings of POSIX.1-2017, section 8.3: their
  parser (`TzParser.dfy`) and the language it accepts (`TzGrammar.dfy`).
- **Leaf certificates** (`crates/fah-certs/src/leaf.rs`, `store.rs`): the cache as an object
  (`LeafCache.dfy`) and as a recency list (`LeafRecency.dfy`); the protocol of threads that pre-warm,
  read, and replace the authority (`CertProtocol.dfy`), its invariant (`CertSafety.dfy`), what
  follows over whole runs (`CertTheorems.dfy`), when a call is refused and under which authority it
  mints (`CertAnswers.dfy`), the recency list behind the protocol's cache (`CertRecency.dfy`), and that
  calls finish (`CertProgress.dfy`).
- **Certificate pairs on disk** (`crates/fah-certs/src/store.rs`, `api.rs`): the files and the
  operations on them (`PairDisk.dfy`), crashes and recovery (`PairRecovery.dfy`), and the operations as
  an object under arbitrary I/O failures and crashes (`PairStore.dfy`).
- **Sessions and passwords** (`crates/fah-api/src/password.rs`, `session.rs`): the rate limiter
  (`RateLimiting.dfy`) and exactly what it lets through (`RateExactness.dfy`), the protocol between logins, logouts and password changes (`AuthProtocol.dfy`),
  the object that runs it (`AuthState.dfy`), tokens (`Session.dfy`) and generated passwords
  (`GeneratedPassword.dfy`).
- **Configuration updates** (`crates/fah-api/src/config_store.rs`): merging trees (`ConfigTree.dfy`),
  dotted paths (`ConfigPaths.dfy`), the list of changes and the store (`ConfigStore.dfy`).
- **Lock-free counters** (`crates/fah-common/src/connections.rs`, `throttle.rs`): `ConnectionGauge.dfy`
  and `LogThrottle.dfy`.

Code that runs on one thread is modelled as classes and methods with loops, each proved against a
specification. Code whose point is interleaving is modelled as a state machine whose steps are the
source's atomic operations or critical sections; a theorem then speaks of every run. A crash is a cut
after any single disk operation.

Where the code and its documentation disagree, the model follows the code. Seven guarantees turned
out not to hold everywhere; each has the input that breaks it and the exact condition.

1. `days_from_civil` is called exact for the whole `i32` year range (tz.rs:391-393). It is exact except in
   January and February of the least year (`Calendar.ExactOnI32Years`). Its inverse is exact exactly on the
   days of `i32` years (`Calendar.CivilExactIff`). What that does to `offset_at` is stated for every instant
   (`YearRange.OffsetInRange`, `YearRange.LeastYearIff`, `YearRange.OutOfRangeIsConstant`).
2. `offset_at` relies on no rule landing within an hour of New Year (tz.rs:180-182). Rules of its own
   grammar do (`DaylightSaving.NewYearZoneIsNotExact`); the test is exact if and only if the zone passes a
   check over one 400-year cycle (`DaylightSaving.TestIsExactIffConsistent`).
3. An authority replaced by one with another key is refused at the next open if, and only if, the crash
   falls between the two renames (`PairRecovery.CaOpensAfterCrashIff`, with
   `PairRecovery.ReplacedCaCanBeRefused` for an input).
4. The API pair recovers from any crash of an import that began on settled files. With `api.tls` and DNS
   over TLS both off, no boot repairs the files (crates/fastadhunter/src/main.rs:528), so an import can
   begin on what an earlier crash left, and a second crash, or a refusal because the archive is full, can
   leave a pair that no boot accepts (`PairRecovery.SecondImportCanStrand`). `PairRecovery.ImportIsAtomicIff`
   and `PairRecovery.RefusalStrandsIff` say exactly when, and `PairRecovery.NeverStuckIff` lifts it to every
   history. Where every crash is followed by a boot of the pair, nothing strands
   (`PairRecovery.BootedNeverStrands`).
5. A key that sat in the key file but was never served can be lost by a boot
   (`PairStore.PromotedKeyCanBeLost`), exactly when the files the boot meets expose it
   (`PairStore.BootLosesKeyIff`). A key that was served never is.
6. Sessions match the password unless the hash file of a password change is renamed into place and its
   permissions then cannot be set (`AuthProtocol.LateFailureIsHarmlessIff`);
   `AuthProtocol.LateFailureCanMismatch` is a run from an empty disk where they no longer do.
7. Taking the peak of open connections reads `open` with a relaxed load. One that sees too old a value can
   leave the peak below what is open (`ConnectionGauge.StaleLoadLosesPeak`,
   `ConnectionGauge.LoadKeepsPeakIff`). No level that was reached is lost even then.

`dafny verify dfyconfig.toml` checks the whole project.

## Model

| member | source | states |
|---|---|---|
| Calendar.DivFloorIsFloor | crates/fah-config/src/tz.rs:426-433 | the hand-written floor division over truncating `/` and `%` is the mathematical floor, for negative values too |
| Calendar.RemainderZero | crates/fah-config/src/tz.rs:378-380 | a truncated remainder is zero exactly when the Euclidean one is, so the leap test is right for negative years |
| Calendar.DaysFromCivilCountsDays | crates/fah-config/src/tz.rs:394-403 | the closed form equals the day count obtained by stepping years and months, for every valid date of every year |
| Calendar.CivilRoundTrip | crates/fah-config/src/tz.rs:406-422 | `civil_from_days` undoes `days_from_civil` on every valid date |
| Calendar.DayRoundTrip | crates/fah-config/src/tz.rs:406-422 | `days_from_civil` undoes `civil_from_days` on every day, which always names a valid date |
| Calendar.DayNumberInjective | crates/fah-config/src/tz.rs:394-403 | two dates with one day number are one date |
| Calendar.YearOfDay | crates/fah-config/src/tz.rs:175-180 | the year read off a day is the one whose New Year is at or before it and whose next New Year is after it |
| Calendar.ExactOnI32Years | crates/fah-config/src/tz.rs:391-403 | in `i32` arithmetic the closed form is exact if and only if the date is not in January or February of the least year |
| Calendar.LeastYearIsNotExact | crates/fah-config/src/tz.rs:391-403 | the counterexample to the documented range |
| Calendar.CivilExactIff | crates/fah-config/src/tz.rs:405-422 | with its year cast to an `i32`, the date of a day is exact if and only if the day lies in the years of an `i32` |
| TimeZone.TransitionInstant | crates/fah-config/src/tz.rs:361-376 | the loop computes the instant of the rule's day, and its correction runs at most once |
| TimeZone.OccurrencesCount | crates/fah-config/src/tz.rs:361-376 | how often a weekday occurs in the first days of a month |
| TimeZone.RuleNamesItsWeekday | crates/fah-config/src/tz.rs:361-376 | the named day is in the month, on the weekday, the week-th occurrence for weeks 1 to 4 and the last for week 5 |
| TimeZone.LocalReadsTheClock | crates/fah-config/src/tz.rs:207-216 | weekday and minute are those of the instant shifted by the offset |
| TimeZone.FixedZoneReadsTheClock | crates/fah-config/src/tz.rs:175-216 | a zone without daylight time is at its one offset at every instant, and weekday and minute read off it |
| DaylightSaving.MostRecent | crates/fah-config/src/tz.rs:175-204 | which transition of which year is the latest at an instant |
| DaylightSaving.ConsistentZoneAgrees | crates/fah-config/src/tz.rs:175-204 | in a consistent zone the per-year test answers whether the most recent transition over all years is a start |
| DaylightSaving.LateEndDisagrees | crates/fah-config/src/tz.rs:180-204 | an end after its year makes the test wrong at a named instant |
| DaylightSaving.EarlyEndDisagrees | crates/fah-config/src/tz.rs:180-204 | an end before its year makes the test wrong at a named instant |
| DaylightSaving.EarlyEndAnywhereDisagrees | crates/fah-config/src/tz.rs:180-204 | so does a zone in which an end precedes its year in any year |
| DaylightSaving.BrokenCarryDisagrees | crates/fah-config/src/tz.rs:180-204 | a New Year that does not find the clock as the year before left it makes the test wrong |
| DaylightSaving.TestIsExactIffConsistent | crates/fah-config/src/tz.rs:175-204 | the test agrees with the global meaning at every instant if and only if the zone is consistent over one 400-year cycle |
| DaylightSaving.ConsistencyRepeats | crates/fah-config/src/tz.rs:175-204 | consistency of a year depends only on its place in the 400-year cycle |
| DaylightSaving.SeparatedZonesAreExact | crates/fah-config/src/tz.rs:175-204 | zones with rules in February to November, a whole month apart, are exact at every instant, in either order |
| DaylightSaving.NewYearZoneIsNotExact | crates/fah-config/src/tz.rs:180-204 | a rule of the grammar lands within the last hour of 2022 and the test is wrong there |
| YearRange.InstantSeen | crates/fah-config/src/tz.rs:361-403 | in `i32`, the transition of a year is the true one, except that a rule in January or February of the least year gives the transition one past the greatest |
| YearRange.OffsetInRange | crates/fah-config/src/tz.rs:175-204 | in the years of an `i32` the casts change no offset, the least year included unless a rule falls in January or February |
| YearRange.TestIsExactInRangeIff | crates/fah-config/src/tz.rs:175-204 | with its casts, the test is right at every instant of those years if and only if the zone is consistent over one cycle |
| YearRange.SeparatedZonesAreExactInRange | crates/fah-config/src/tz.rs:175-204 | with its casts, `offset_at` is exact for zones with rules in February to November, a whole month apart, throughout those years |
| YearRange.LeastYearIff | crates/fah-config/src/tz.rs:183-204 | in the least year, such a zone with a rule in February is read rightly if and only if that rule's instant has passed |
| YearRange.WrappedLeastYear | crates/fah-config/src/tz.rs:183-204 | at every instant whose year wraps to the least, inside the range or not, when such a zone is on daylight time |
| YearRange.OutOfRangeIsConstant | crates/fah-config/src/tz.rs:183-204 | before and after the years of an `i32`, a northern zone stays on standard time and a southern one on daylight time, so the test is right exactly in the winters of the one and the summers of the other |
| TzParser.CountDigits | crates/fah-config/src/tz.rs:262-263 | the scan finds the length of the leading digits |
| TzParser.ReadOffsetLoop | crates/fah-config/src/tz.rs:253-296 | the field loop reads what the recursive reading of hours, minutes and seconds reads, errors included |
| TzParser.OffsetsAreBounded | crates/fah-config/src/tz.rs:253-296 | an accepted offset is within 24:59:59 of zero |
| TzParser.RulesAreValid | crates/fah-config/src/tz.rs:298-357 | an accepted rule meets the ranges that `transition_instant` needs |
| TzParser.ParsedZonesAreValid | crates/fah-config/src/tz.rs:117-172 | every accepted string yields a zone whose fields meet the ranges evaluation needs |
| TzGrammar.OffsetReads | crates/fah-config/src/tz.rs:253-296 | an offset is read back from every text for it: signed or not, any digits, minutes and seconds given or not, west positive |
| TzGrammar.RuleReads | crates/fah-config/src/tz.rs:298-357 | a rule is read back from every text for it; one without a time means 02:00:00 |
| TzGrammar.ParseReads | crates/fah-config/src/tz.rs:117-172 | however a zone is written, with names in letters or brackets, offsets and times stated or left out and spaces around, it is read as what the text means |
| TzGrammar.AcceptedIsWritten | crates/fah-config/src/tz.rs:117-357 | every accepted string is one of those texts, with the meaning it is read as |
| TzGrammar.ParsesIff | crates/fah-config/src/tz.rs:117-357 | a string is read as a zone if and only if it is one of the ways to write that zone |
| TzGrammar.EveryValidZoneIsWritten | crates/fah-config/src/tz.rs:117-172 | every valid zone is the meaning of some accepted string |
| LeafCaching.LeafExpiry | crates/fah-certs/src/leaf.rs:298-304 | a leaf lasts seven days, or as long as its issuer if that is less and the issuer's expiry is representable |
| LeafCaching.OldestIsUnique | crates/fah-certs/src/leaf.rs:235-245 | with distinct stamps there is one oldest entry |
| LeafCaching.TakeKeepsStamps | crates/fah-certs/src/leaf.rs:134-153 | a read keeps the stamps distinct and below the clock |
| LeafCaching.StoreKeepsStamps | crates/fah-certs/src/leaf.rs:204-233 | so does a store |
| LeafCaching.StoreSize | crates/fah-certs/src/leaf.rs:204-245 | how many entries a store leaves, evictions included |
| LeafCaching.StoreKeepsCapacity | crates/fah-certs/src/leaf.rs:204-245 | a store never leaves more entries than the capacity, for a capacity of at least one |
| LeafCaching.LeafCache.constructor | crates/fah-certs/src/leaf.rs:86-104 | an empty cache with clock and epoch zero |
| LeafCaching.LeafCache.TakeFresh | crates/fah-certs/src/leaf.rs:262-275 | a fresh entry is stamped and returned, a stale one removed, nothing else changes |
| LeafCaching.LeafCache.Cached | crates/fah-certs/src/leaf.rs:134-153 | a read is the specified read of the whole state, and is counted as one hit or one miss |
| LeafCaching.LeafCache.LeaseTurn | crates/fah-certs/src/leaf.rs:173-202 | one turn of the lease loop answers fresh, wait or mint, and a mint puts the host in flight |
| LeafCaching.LeafCache.EvictOne | crates/fah-certs/src/leaf.rs:235-245 | the loop removes the entry with the smallest stamp |
| LeafCaching.LeafCache.StoreMinted | crates/fah-certs/src/leaf.rs:204-233 | a leaf of the current epoch is stored after making room; one of an earlier epoch is dropped |
| LeafCaching.LeafCache.DropLease | crates/fah-certs/src/leaf.rs:76-83 | dropping the guard takes exactly its host out of flight |
| LeafCaching.LeafCache.Clear | crates/fah-certs/src/leaf.rs:106-110 | a purge empties the map and moves the epoch on, and leaves the flights alone |
| LeafRecency.TakeRefinesRead | crates/fah-certs/src/leaf.rs:134-153 | a read answers as the recency list does and moves the host to its recent end |
| LeafRecency.VictimIsLeastRecent | crates/fah-certs/src/leaf.rs:235-245 | the evicted entry is the head of the recency list |
| LeafRecency.StoreRefinesList | crates/fah-certs/src/leaf.rs:204-245 | a store appends to the list after dropping from its head what has no room |
| LeafRecency.CacheRefinesRecencyList | crates/fah-certs/src/leaf.rs:134-275 | over every run of reads, stores and purges, the stamped map answers every read as a recency-ordered list does |
| CertRecency.RunRefinesRecencyList | crates/fah-certs/src/leaf.rs:134-275 | in every interleaving of the protocol's threads, the stamped map holds what a recency list replayed along the run holds |
| CertRecency.ReadsAnswerAsTheList | crates/fah-certs/src/leaf.rs:134-202 | at every point of every run, a read and a lease answer as that list does |
| CertRecency.EvictsLeastRecent | crates/fah-certs/src/leaf.rs:235-245 | at every point of every run, the next entry to be evicted is the head of that list |
| CertSafety.InitHolds | crates/fah-certs/src/store.rs:292-309 | a freshly opened store satisfies the invariant |
| CertSafety.SlotHeldKept | crates/fah-certs/src/store.rs:328-370 | at most the thread inside the authority's lock is inside it |
| CertSafety.SlotBoundKept | crates/fah-certs/src/store.rs:328-370 | outside an install, the authority in the slot is the one bound to the cache's epoch |
| CertSafety.ThreadsSoundKept | crates/fah-certs/src/store.rs:431-457 | every thread's authority and epoch were captured together and are bound to each other |
| CertSafety.EntriesSoundKept | crates/fah-certs/src/leaf.rs:204-233 | every cached leaf is signed by the authority of the current epoch |
| CertSafety.SingleFlightKept | crates/fah-certs/src/leaf.rs:173-233 | the in-flight set is exactly the hosts leased, each once, and absent from the cache until stored |
| CertSafety.NoLostWakeupKept | crates/fah-certs/src/leaf.rs:76-83 | a sleeping thread's host is in flight or a notification is pending |
| CertSafety.MintedCounted | crates/fah-certs/src/leaf.rs:155-233 | every mint is stored, superseded or awaiting its store |
| CertSafety.EntriesCounted | crates/fah-certs/src/leaf.rs:106-275 | every stored entry is cached, evicted, expired or purged |
| CertSafety.InvKept | crates/fah-certs/src/leaf.rs:76-275 | every step of every thread keeps the whole invariant |
| CertTheorems.RunKeepsInv | crates/fah-certs/src/leaf.rs:76-275 | every state of every run satisfies it |
| CertTheorems.RunGrows | crates/fah-certs/src/leaf.rs:106-110 | the epoch counts the purges, and the record of authorities only grows |
| CertTheorems.ServedLeafIsCurrent | crates/fah-certs/src/leaf.rs:134-153 | whatever a read yields is for that host, signed by the authority of the current epoch, not expired and not outliving its issuer |
| CertTheorems.NoStaleLeafAfterInstall | crates/fah-certs/src/store.rs:328-370 | a read after an install has returned never yields a leaf of an earlier authority |
| CertTheorems.OneMintPerHost | crates/fah-certs/src/leaf.rs:173-202 | two threads never mint for one host at once |
| CertTheorems.StoresAreSeparated | crates/fah-certs/src/leaf.rs:204-245 | between two stores of a host its entry was removed by an eviction, an expiry or a purge |
| CertTheorems.DrainedLeavesNoSleeper | crates/fah-certs/src/leaf.rs:155-202 | when leases and notifications have drained, nobody sleeps and nothing is in flight |
| CertTheorems.NothingIsLost | crates/fah-certs/src/leaf.rs:106-245 | with no mint under way, minted is stored plus superseded, and the cache size is stored less evicted, expired and purged |
| CertTheorems.ObtainedIsCached | crates/fah-certs/src/leaf.rs:155-171 | a call obtains its leaf at a moment when it is in the cache |
| CertTheorems.CallKeepsStart | crates/fah-certs/src/store.rs:431-457 | a call keeps its host and the epoch it began in until it ends |
| CertTheorems.PrewarmIsBounded | crates/fah-certs/src/store.rs:431-457 | a pre-warm retries at most once per install that purges during the call, and what it returns was cached under its epoch during the call |
| CertAnswers.RefusedIff | crates/fah-certs/src/store.rs:431-457 | in every interleaving, a pre-warm that has returned was refused if and only if it last found no authority, or one not valid at the time it read, or its mint failed |
| CertAnswers.LeasesAndMintsAreValid | crates/fah-certs/src/store.rs:434-455 | a call leases and mints only under an authority that was in the slot and valid at its last look; what it mints is for its host, signed by that authority and dated by `LeafExpiry`, and what it gets from the cache had not expired then |
| CertProgress.NeverDeadlocked | crates/fah-certs/src/leaf.rs:155-202 | in every reachable state in which a call or an install is under way, some thread can carry on |
| CertProgress.StepsLeftDrop | crates/fah-certs/src/leaf.rs:76-233 | every step of every thread lowers a bound on the steps that are left, sleeps and retries included |
| CertProgress.CallsFinish | crates/fah-certs/src/store.rs:431-457 | while no call and no install begins, the steps that threads can take are bounded beforehand, whatever the interleaving, reads and spurious wake-ups included |
| CertProgress.StillMeansDone | crates/fah-certs/src/leaf.rs:155-202 | where no thread can carry on, every call and install has returned |
| PairDisk.RunOpsConcat | crates/fah-certs/src/store.rs:119-156 | running two operation lists in turn is running their concatenation |
| PairRecovery.ReplaceCut | crates/fah-certs/src/store.rs:119-147 | what a replacement leaves when it is cut after any operation |
| PairRecovery.ImportCut | crates/fah-certs/src/store.rs:476-523 | what an import over any files leaves when it is cut after any operation |
| PairRecovery.ImportIsAtomicIff | crates/fah-certs/src/store.rs:476-523 | over any files that recover, an import crashed anywhere recovers to the old pair before the rename of the certificate and to the new one from it on, except when it strands files that an earlier crash left unsettled, under an exact condition |
| PairRecovery.RefusalStrandsIff | crates/fah-certs/src/store.rs:484-493 | the same for an import refused because the archive is full, crashed or not |
| PairRecovery.SecondImportCanStrand | crates/fah-certs/src/store.rs:119-133 | files left between the renames, and a second import cut after its first operation, are stuck |
| PairRecovery.BootCut | crates/fah-certs/src/api.rs:28-70 | a boot crashed anywhere, recovery included, keeps what the next boot will recover |
| PairRecovery.BootSucceedsIff | crates/fah-certs/src/api.rs:28-70 | a boot succeeds if and only if the files are not stuck, by a test on the files alone |
| PairRecovery.NeverStuckIff | crates/fah-certs/src/api.rs:28-70 | over any history of boots and imports, each crashed anywhere and each meeting what the last one left, the files are recoverable all along if and only if no import strands them |
| PairRecovery.CrashesNeverStrand | crates/fah-certs/src/api.rs:28-70 | then the pair they recover to is the first one or one that was offered whole, never a mixture |
| PairRecovery.NextBootServes | crates/fah-certs/src/api.rs:28-70 | and the next boot to complete succeeds and serves that pair, or a generated one if none was live |
| PairRecovery.BootedNeverStrands | crates/fastadhunter/src/main.rs:528-545 | from a matched or absent pair, nothing strands where each import begins in a server that has booted its pair since the last crash |
| PairRecovery.CaOpensAfterCrashIff | crates/fah-certs/src/store.rs:292-370 | after a crash in an authority install the files open again, except between the two renames of a replacement with a different key; what opens is the old pair before the certificate is renamed and the new one from then on |
| PairRecovery.ReplacedCaCanBeRefused | crates/fah-certs/src/store.rs:328-370 | an authority replaced by another, with a crash between the two renames, that no open accepts |
| PairRecovery.ReportedImportWasImported | crates/fah-certs/src/store.rs:614-625 | a certificate reported as imported was imported, after any history of crashes |
| PairRecovery.CompletedImportIsReported | crates/fah-certs/src/store.rs:476-523 | an import that completes is live and reported as imported, whatever it met |
| PairRecovery.ImportIsMarkedFirst | crates/fah-certs/src/store.rs:495-513 | at whatever point an import is cut, a certificate it has put in place is already reported as imported |
| PairRecovery.BootReports | crates/fah-certs/src/api.rs:28-52 | a pair that a completed boot generated is not reported as imported, one from a boot cut short only under the fingerprint of the marker met, and what a boot recovers is reported as before |
| PairStore.StagingIsSafe | crates/fah-certs/src/store.rs:119-133 | staging loses no key |
| PairStore.ArchivedKeyMayChange | crates/fah-certs/src/store.rs:135-147 | once the live key is archived, no change of the live files loses a key |
| PairStore.PromotionIsSafe | crates/fah-certs/src/store.rs:91-112 | finishing an interrupted generation overwrites no key |
| PairStore.CompletionIsSafe | crates/fah-certs/src/api.rs:54-70 | finishing an interrupted replacement loses no key but one that the boot found exposed |
| PairStore.ServedKeyIsNotExposed | crates/fah-certs/src/api.rs:54-70 | and no key that was ever served is exposed |
| PairStore.BootLosesKeyIff | crates/fah-certs/src/api.rs:28-70 | a boot, cut anywhere, loses the key in the key file if and only if the files it met expose it and its rename has run |
| PairStore.FillingIsSafe | crates/fah-certs/src/store.rs:574-590 | making, filling or dropping a new archive loses no key and touches no other archive |
| PairStore.NamesAreArchives | crates/fah-certs/src/store.rs:391-429 | so many taken names mean so many archives |
| PairStore.FirstUnused | crates/fah-certs/src/store.rs:410-429 | the search finds the first free name, long before its bound on the attempts |
| PairStore.PairDirectory.constructor | crates/fah-certs/src/store.rs:48-89 | a directory as found, with what is known of its past |
| PairStore.PairDirectory.Try | crates/fah-certs/src/store.rs:210-229 | one file-system call takes effect whole or fails and changes nothing |
| PairStore.PairDirectory.TryWrite | crates/fah-certs/src/store.rs:165-196 | a write that fails or is cut leaves a torn file |
| PairStore.PairDirectory.StagePair | crates/fah-certs/src/store.rs:119-133 | on success both staged files hold the pair; on any failure only staged files changed |
| PairStore.PairDirectory.UnusedArchiveDir | crates/fah-certs/src/store.rs:391-429 | a new directory under a free name, refused if and only if the archive is full |
| PairStore.PairDirectory.FillArchive | crates/fah-certs/src/store.rs:574-590 | on success the new archive is a copy of the live files |
| PairStore.PairDirectory.ArchivePair | crates/fah-certs/src/store.rs:376-389 | archives the live files under a new name and leaves every other archive intact, on failure too |
| PairStore.PairDirectory.CommitPair | crates/fah-certs/src/store.rs:135-147 | on success the staged pair is live; on failure the key file is unchanged |
| PairStore.PairDirectory.RestorePair | crates/fah-certs/src/store.rs:596-612 | on success the live files are the archived ones |
| PairStore.PairDirectory.InstallApiPair | crates/fah-certs/src/store.rs:476-523 | on success the pair is live and marked and the old one archived; without I/O failures it fails exactly when the archive is full; and when it fails on a single failed call, the live files are as they were, and the marker too unless its own write tore it |
| PairStore.PairDirectory.MarkAndCommit | crates/fah-certs/src/store.rs:495-513 | the same for its second half: the marker, the renames and what undoes them |
| PairStore.PairDirectory.ReadMarker | crates/fah-certs/src/store.rs:495 | the previous marker, and none when it cannot be read |
| PairStore.PairDirectory.RollBack | crates/fah-certs/src/store.rs:501-512 | undoing a failed commit loses no key and keeps every archive, and when no call of it fails, the live files are the archived ones and the marker is the previous one |
| PairStore.PairDirectory.InstallCa | crates/fah-certs/src/store.rs:328-370 | the same for the authority's files: after a failure on a single failed call they are as they were |
| PairStore.PairDirectory.LoadPair | crates/fah-certs/src/store.rs:91-112 | whether both files are there, after finishing an interrupted generation, and an error exactly for half a pair |
| PairStore.PairDirectory.LoadOrGenerate | crates/fah-certs/src/api.rs:28-52 | on success a matched pair is live and returned; it puts the files it met on record and changes no archive |
| PairStore.PairDirectory.CompleteInterruptedReplacement | crates/fah-certs/src/api.rs:54-70 | completes exactly when the staged key matches the live certificate |
| PairStore.PairDirectory.OpenCa | crates/fah-certs/src/store.rs:292-309 | opens a matched pair, reports an absent one, refuses the rest and changes no archive |
| PairStore.PromotedKeyCanBeLost | crates/fah-certs/src/api.rs:54-70 | a history after which a boot meets an exposed key and loses it |
| PairStore.AnyOperation | crates/fah-certs/src/store.rs:91-612 | one install or boot with any I/O failures, cut anywhere, loses no key on record and changes no archive it found |
| PairStore.AnyHistory | crates/fah-certs/src/store.rs:91-612 | over every history of installs and boots, with every I/O failure and crash: each key ever served is live or whole in an archive; each key ever in the key file is there or in an archive unless some boot met files that expose it; no archive is ever overwritten or removed; there are never more than eight |
| RateLimiting.Check | crates/fah-api/src/password.rs:97-134 | an attempt is allowed only within the limit of its address and the global one; one over its own limit leaves the global bucket alone; one that is not allowed is told to wait at least a second |
| RateLimiting.RateLimiter.constructor | crates/fah-api/src/password.rs:89-95 | no address tracked and an empty global bucket |
| RateLimiting.RateLimiter.Attempt | crates/fah-api/src/password.rs:97-134 | the in-place check is the specified one, and the map stays within its bound |
| RateLimiting.SlidingWindow | crates/fah-api/src/password.rs:66-71 | attempts of a sliding window fall into at most two fixed windows |
| RateLimiting.OwnKept | crates/fah-api/src/password.rs:97-134 | each address's bucket counts its attempts of the current window, even after it was evicted and came back |
| RateLimiting.GlobalKept | crates/fah-api/src/password.rs:97-134 | the global bucket counts everybody's |
| RateLimiting.RunIsGood | crates/fah-api/src/password.rs:97-134 | both hold along every run of attempts at non-decreasing times |
| RateLimiting.SlidingLimits | crates/fah-api/src/password.rs:57-134 | in any interval of one window an address is allowed at most twice its limit less one, everybody together twice the global limit, and the map never exceeds its bound |
| RateLimiting.TrackedStaysBounded | crates/fah-api/src/password.rs:109-122 | the map of addresses stays within `max_tracked` over every run |
| RateLimiting.OwnBoundIsAttained | crates/fah-api/src/password.rs:57-134 | the bound for one address is attained for every limit that the global one does not cut short |
| RateLimiting.GlobalBoundIsAttained | crates/fah-api/src/password.rs:57-134 | the global bound is attained for every limit that the one per address does not cut short |
| RateExactness.CurrentWindow | crates/fah-api/src/password.rs:66-71 | the current window holds exactly the attempts from its opening on |
| RateExactness.RunAccounts | crates/fah-api/src/password.rs:57-134 | after any attempts, places, buckets and the global bucket are what the attempts alone amount to |
| RateExactness.AllowedIff | crates/fah-api/src/password.rs:73-134 | after any attempts, the next one is allowed if and only if its address has a place or one can be freed, its own window is within its limit, and the global window, without attempts turned away by their own limit, is within its; otherwise it is told the whole seconds until the window that limits it ends, rounded down but at least one |
| RateExactness.Replay | crates/fah-api/src/password.rs:97-134 | the same of the object, over a whole sequence of attempts |
| AuthProtocol.InitHolds | crates/fah-api/src/password.rs:209-261 | any files on disk, with no token issued, satisfy the invariant |
| AuthProtocol.SecretKept | crates/fah-api/src/password.rs:303-316 | every step keeps that the writer excludes logins and that a drawn secret is new to everyone |
| AuthProtocol.DiskKept | crates/fah-api/src/password.rs:209-316 | whatever a reboot would put in force, its tokens were checked against the stored hash |
| AuthProtocol.ProcessKept | crates/fah-api/src/password.rs:278-316 | tokens under the secret in force were checked against the hash in force, and logins in flight hold that hash |
| AuthProtocol.SessionsMatchThePassword | crates/fah-api/src/password.rs:209-316 | over every interleaving with crashes, reboots and deleted files, a token that is let in was minted by a login checked against the password in force |
| AuthProtocol.LateFailureIsHarmlessIff | crates/fah-api/src/password.rs:400-415 | a write that fails after its rename keeps that guarantee over all further runs if and only if the hash file no longer differs from the hash in memory |
| AuthProtocol.LateFailureCanMismatch | crates/fah-api/src/password.rs:309-315 | a run from an empty disk, through a password change whose write fails after its rename, to a session checked against a password that is not in force |
| AuthProtocol.EndedSessionsStayEnded | crates/fah-api/src/password.rs:303-316 | once a fresh secret is in force, no token minted before is ever let in again, across crashes, reboots and failed writes |
| AuthProtocol.SessionsSurviveReboots | crates/fah-api/src/session.rs:94-109 | a session outlives any number of crashes and reboots while no secret is drawn and no file deleted |
| AuthState.Build | crates/fah-api/src/password.rs:209-261 | a boot comes up if and only if both files are there or what it has to write goes through; it keeps hash and secret if both are there, and otherwise writes a fresh secret before any new hash; a write that fails gives up on a path of the protocol, with what is left on disk stated |
| AuthState.Auth.FreshSecret | crates/fah-api/src/session.rs:111-124 | succeeds exactly when the write does; the secret is on disk before it is in force, and a failure leaves the old one in force |
| AuthState.Auth.RotateSecret | crates/fah-api/src/password.rs:303-307 | a path of the protocol, appended to the recorded history, that puts a fresh secret in force exactly when the write goes through, and otherwise changes nothing in memory |
| AuthState.Auth.StoreHash | crates/fah-api/src/password.rs:312-313 | succeeds exactly when the write does; the hash is on disk before it is in force |
| AuthState.Auth.ReplacePassword | crates/fah-api/src/password.rs:309-315 | a path of the protocol, appended to the recorded history, that succeeds exactly when both writes do; hash and secret are then new in memory and on disk, and otherwise the old hash is in force, with the steps and the files of each way to fail |
| AuthState.Auth.VerifyAndMint | crates/fah-api/src/password.rs:282-295 | a path of the protocol, appended to the recorded history, that mints a token under the secret and hash in force exactly when the password matched |
| AuthState.Auth.VerifySession | crates/fah-api/src/password.rs:278-280 | over the object's whole history, a token that is let in was minted after the last fresh secret came into force and checked against the password in force |
| AuthState.AnySession | crates/fah-api/src/password.rs:278-315 | over any sequence of calls on the object of a fresh boot, with any failures, a token that is let in was minted after the last fresh secret came into force and, unless a password change lost its hash, checked against the password in force |
| Session.DecodeInvertsEncode | crates/fah-api/src/session.rs:144-164 | decoding hex undoes encoding |
| Session.EncodeInvertsDecode | crates/fah-api/src/session.rs:144-173 | encoding undoes decoding, up to the case of the digits |
| Session.WriteHex | crates/fah-api/src/session.rs:144-150 | the loop appends the hex of the bytes |
| Session.DecodeHex | crates/fah-api/src/session.rs:152-164 | succeeds exactly on hex text of the buffer's length, and then fills the buffer with what it says |
| Session.MintRaw | crates/fah-api/src/session.rs:56-72 | a token of the current version is valid at every time up to a second before its expiry and at none from its expiry on; one for a time before the epoch, or of another version, never is; it is the hex of version, expiry and nonce and of their MAC |
| Session.Verify | crates/fah-api/src/session.rs:74-92 | accepts exactly the valid tokens, and overflows exactly on signed ones whose expiry no clock can hold |
| Session.MintedTokenIsValidIff | crates/fah-api/src/session.rs:56-92 | a token minted for a representable time is valid exactly until then, exactly for the current version, and never overflows |
| Session.WellFormedIsMinted | crates/fah-api/src/session.rs:74-92 | every signed token, and so every one that is accepted or overflows, is a minted one, up to the case of its digits |
| Session.MintIsInjective | crates/fah-api/src/session.rs:56-72 | equal tokens carry the same expiry and nonce |
| GeneratedPassword.Drain | crates/fah-api/src/password.rs:377-381 | the inner loop writes whole letters and loses no pending bit |
| GeneratedPassword.WriteLetters | crates/fah-api/src/password.rs:374-382 | letters and pending bits together spell the bytes read, though the word drops its high bits |
| GeneratedPassword.GeneratePassword | crates/fah-api/src/password.rs:369-388 | the password spells exactly the random bits, zero padded to a whole letter |
| GeneratedPassword.PasswordKeepsEveryBit | crates/fah-api/src/password.rs:369-388 | two draws that give one password are the same draw |
| ConfigTree.MergeInto | crates/fah-api/src/config_store.rs:157-166 | the in-place merge, over keys in any order, is the recursive one |
| ConfigTree.MergeSetsEveryLeaf | crates/fah-api/src/config_store.rs:154-166 | every leaf of the patch is in the result |
| ConfigTree.MergeKeepsTheRest | crates/fah-api/src/config_store.rs:154-166 | everything the patch does not mention is as it was |
| ConfigTree.MergeIsIdempotent | crates/fah-api/src/config_store.rs:154-166 | applying a patch twice is applying it once |
| ConfigTree.StopsAt | crates/fah-api/src/config_store.rs:184-206 | a setting that reads differently lies at or below a reported difference |
| ConfigTree.PatchDiffersIff | crates/fah-api/src/config_store.rs:157-206 | the differences a patch makes are exactly the places where it sets something new, all of them paths of the patch |
| ConfigPaths.DottedIsInjective | crates/fah-api/src/config_store.rs:188-192 | two paths of plain keys have different names |
| ConfigPaths.UnderIff | crates/fah-api/src/config_store.rs:208-212 | the textual prefix test is exactly "at or below" on paths |
| ConfigStore.Diff | crates/fah-api/src/config_store.rs:184-206 | on any trees and in any order of keys, every name added is that of a difference and none is added twice; where keys are plain no difference is missed |
| ConfigStore.DottedKeysCollide | crates/fah-api/src/config_store.rs:184-206 | a key with a dot can share its name with a path; the whole list for such trees, which misses the setting below that key exactly when the other key comes first |
| ConfigStore.ChangedPaths | crates/fah-api/src/config_store.rs:168-182 | the list names nothing but differences and nothing twice, and for plain keys every difference |
| ConfigStore.IsBootKeyIff | crates/fah-api/src/config_store.rs:208-212 | a path counts as read at boot exactly when it lies at or below one of the eighteen boot keys |
| ConfigStore.BootReadsDifferIff | crates/fah-api/src/config_store.rs:135-137 | some boot-time setting reads differently if and only if a restart is asked for or a section that holds it was lost |
| ConfigStore.RestartIff | crates/fah-api/src/config_store.rs:37-64 | with every section an object, a restart is asked for exactly when some boot-time setting reads differently |
| ConfigStore.LostSectionIsMissed | crates/fah-api/src/config_store.rs:184-212 | on arbitrary trees, which no configuration is, a boot-time setting can change with its section unnoticed |
| ConfigStore.Store.ApplyPatch | crates/fah-api/src/config_store.rs:111-151 | a patch is refused exactly when it is no object or its merge is not accepted, and a refused or unsaved one changes nothing; otherwise file and running configuration are the accepted merge, and if that is taken as it stands, every leaf of the patch is set and all else is as it was; both flags are exact |
| ConfigStore.PatchRestartsIff | crates/fah-api/src/config_store.rs:114-166 | a patch that is taken as it stands makes boot-time settings read differently exactly when it sets something new at or below a boot key |
| ConfigStore.RepeatedPatchChangesNothing | crates/fah-api/src/config_store.rs:114-166 | the same patch again is taken again, merges to the same tree and raises neither flag |
| ConnectionGauge.CountsKept | crates/fah-common/src/connections.rs:36-57 | `open` counts the connections between their addition and their subtraction |
| ConnectionGauge.PeakHoldsKept | crates/fah-common/src/connections.rs:20-43 | the peak is at least `open`, or a call in flight will make it so, as long as loads do not see too few |
| ConnectionGauge.LoadKeepsPeakIff | crates/fah-common/src/connections.rs:20-24 | a load that may see any earlier value keeps that up exactly when it sees enough or the other calls do without it |
| ConnectionGauge.DrainedPeakIff | crates/fah-common/src/connections.rs:20-43 | when the calls in flight finish, the peak ends up at or above `open` exactly when it was held before |
| ConnectionGauge.FreshLoadsKeepPeak | crates/fah-common/src/connections.rs:20-57 | over every run whose loads do not see too few, `peak` is not below `open` once no call is in flight |
| ConnectionGauge.StaleLoadLosesPeak | crates/fah-common/src/connections.rs:20-24 | a load that sees too old a value leaves the peak below what is open |
| ConnectionGauge.AllCoveredKept | crates/fah-common/src/connections.rs:20-43 | no level reached is lost between two atomic operations |
| ConnectionGauge.NoPhantomsKept | crates/fah-common/src/connections.rs:20-57 | no counter ever holds a level that was not reached |
| ConnectionGauge.QuiescentGaugeIsExact | crates/fah-common/src/connections.rs:20-57 | once no call is in flight, whatever the loads saw, `open` is the number of guards and every level ever reached is covered by the peak or a later report |
| ConnectionGauge.ReportsAreReal | crates/fah-common/src/connections.rs:20-24 | a reported peak was reached |
| ConnectionGauge.UntakenPeakIsTheMaximum | crates/fah-common/src/connections.rs:20-43 | while nobody takes the peak it is the most ever open at once |
| LogThrottle.SpacedKept | crates/fah-common/src/throttle.rs:22-40 | each line comes a whole interval after the one before |
| LogThrottle.JustifiedKept | crates/fah-common/src/throttle.rs:25-29 | a call is dropped only because of a line less than an interval before it, or any time after it |
| LogThrottle.LinesAreThrottled | crates/fah-common/src/throttle.rs:22-40 | a span holds at most one line more than the whole intervals that fit into it, whatever the interleaving, the clocks and the stamps that loads see |
| LogThrottle.EveryCallIsAccountedFor | crates/fah-common/src/throttle.rs:22-44 | every call is counted once, is let through with a number of its own or dropped with a reason, and a first call is always let through |
| LogThrottle.NoIntervalNoDrops | crates/fah-common/src/throttle.rs:26-29 | without an interval nothing is dropped |

## Left out

- X.509, PEM, rcgen, rustls, Argon2, HMAC and randomness: certificates and keys are identities with a match relation, a token verifies under the secret that minted it, and drawn secrets are new.
- Relaxed memory ordering beyond one variable: atomic operations interleave, those that write act on the latest value, and a plain load may see any value its own variable has had.
- Wrap-around of the 64-bit clock and epoch, the 32-bit gauge and bucket counts, and the 64-bit throttle total.
- Poisoned mutexes and panics inside a mint: a critical section runs to its end.
- CertProgress.CallsFinish: says that calls return when no new ones begin and the scheduler runs threads that can move; fairness against an endless stream of new calls is not modelled.
- A torn certificate or key file never parses; a file is whole, torn or absent.
- AuthState.Auth.FreshSecret: the stray temporary file of an interrupted write is not modelled, because a boot discards it before reading anything.
- Operators who restore an old secret or hash file: files may be deleted or unreadable at any time, but not replaced.
- PairStore.PairDirectory.FillArchive: a recursive removal of a half-filled archive that stops half way is a failed removal.
- CertTheorems.PrewarmIsBounded: bounds the retries of one call; that its waits end is `CertProgress.CallsFinish`, and how it is answered `CertAnswers.RefusedIff`.
- YearRange.OffsetInRange: zones whose rules are not a whole month apart in February to November are followed only where this lemma applies; elsewhere `YearRange.InstantSeen` says which transitions are looked at.
- TzParser.ParsedZonesAreValid: text is a sequence of characters, so byte positions inside multi-byte characters do not arise.
- ConfigStore.Diff: promises that no difference is missed only for keys that are non-empty and without dots, as the field names of the configuration are.
- ConfigStore.Store.ApplyPatch: concurrent updates are not modelled, because the source does not synchronise them; parsing, validation and the order of keys are parameters.
- ConfigStore.RestartIff: is about trees whose sections are objects, as those of a configuration are (crates/fah-config/src/schema/mod.rs:41-64); `ConfigStore.BootReadsDifferIff` covers arbitrary trees.
- ConfigStore.PatchRestartsIff: is about patches that the schema takes as they stand; one that sets an empty list of policies is stored without that key.
- Host name normalisation, routes, wire types, telemetry, web serving, TLS and DoH handlers, the terminal monitor and the dashboard: plumbing and easy casework.
- The DNS cache, upstream selection, the rule matcher and the histogram are not part of this model.
