# iplayer-arr: what the numbering, the downloads, the queue and the quality cache keep

iplayer-arr answers Sonarr's searches from BBC iPlayer and downloads what Sonarr
grabs. This project models the parts of it that decide something, as Dafny
programs proved against specifications, and proves what those decisions keep
over every input and every run:

- **Numbering** (`Sanitise`, `Parse`, `Titles`, `RoundTrip`, `Labels`, `Names`,
  `SearchFilter`, `Dates`, `TVDB`, `Matching`, `Doubts`, `Arbitration`,
  `Rivalries`, `Browse`, `Feed`, `Numbering`, `EpisodeNumbers`): release titles
  as a printer and its parser, the search filter that composes the two, what an
  episode list of TheTVDB says about a programme, the arbitration of claims on
  its numbers, and the numbering of the RSS feed.
- **Downloads** (`Downloads`, `Throttle`, `ThrottleRuns`, `Streams`, `Claims`,
  `ClaimRuns`):
  the retry budgets, the adaptive throttle as a class and over whole runs, the
  choice of stream through runs of refusals, and the claim protocol between the
  workers.
- **Queue** (`Queue`, `Store`, `QueueRuns`, `Manager`, `Grabs`): the claim order, the
  operator's moves, what later arrivals leave of them, and the deduplication
  across queue and history.
- **Qualities** (`Heights`, `Prober`, `QualityCache`, `Variants`): the heights a
  probe reports, the cache its two readers share, and the choice of an HLS
  variant.

Code that computes a value is a function; a loop or an object that changes its
fields is a method or a class, whose contract says the new state outright.
`Text` holds the character classes and strings.

How the model reads the system:

- Strings are sequences of Unicode scalar values, integers are unbounded, days
  are day numbers and times are nanoseconds. Go maps visited in a loop are
  visited in an arbitrary order.
- Each throttle method reads the clock once and is one atomic step, under a
  clock that does not run backwards (`recordStall` and `maybeRecover` read it
  just before they take the lock). Each store call is one transaction.
- `Manager` takes each call of the manager as one atomic step; `Claims` and
  `QualityCache` break the workers' and the probes' calls into their separate
  store accesses and allow every interleaving.
- BBC's answers, TheTVDB's lists, the clock, new ids and the outcome of an
  attempt are inputs. `episodeTitleKey`, the candidate titles, the specific
  titles and the comparison of show names are arbitrary functions.

Where the code departs from what its comments say, or from what one could expect
of it, the code is modelled. For each such point a concrete case is proved, and
the exact condition for all inputs or runs:

- `degradeHeight` raises a request below 396: `Streams.DegradeRaisesLowRequest`,
  `Streams.DegradeGoesDown`;
- a prepended 1080 breaks the descending order: `Heights.PrependedAfter2160`,
  `Prober.OutcomeOrder`;
- the two bandwidth scans can differ: `Variants.ScansCanDisagree`,
  `Variants.ScansAgree`;
- an undated guess does not answer its own search:
  `SearchFilter.UndatedGuessAnswersNothing`, `SearchFilter.TitleAnswersItsSearch`;
- an offset that leaves no positive number moves an episode to its position's
  search: `SearchFilter.NegativeOffsetAnswersPosition`,
  `SearchFilter.AnswersExactly`;
- up and then down does not restore the front row's place:
  `Queue.UpThenDownSwapsFrontRow`, `Queue.UpThenDown`;
- three refusals end a download however many suppliers there are:
  `Streams.FreshRowTriesThreeSuppliers`;
- admission does not bound the claims: `ClaimRuns.AdmissionIsNotABound`,
  `ClaimRuns.BoundedIffAdmittedAtClaim`;
- an id can come to be in queue and history at once, by a stale listing or by
  a delete that a worker's write crosses: `ClaimRuns.StaleListingRevivesRow`,
  `ClaimRuns.DeleteCanLeaveBoth`, `ClaimRuns.ApartIffNothingRevivedOrJoined`;
- a worker's upsert can leave two rows for a programme and quality:
  `Manager.LateWriteLeavesTwoRows`, `Manager.OneRowPerPairIff`;
- a spread row can replace a sibling's own: `QualityCache.SpreadCanReplaceOwnRow`,
  `QualityCache.OwnRowLostIff`, `QualityCache.OwnRowsLostIffStoredUnderCheck`.

## Model

| member | source | states |
|---|---|---|
| Sanitise.SanitisedIsClean | internal/newznab/titles.go:245-255 | every title fragment is made of letters, digits, dots and hyphens, with no doubled dot and none at an edge |
| Sanitise.SanitiseFixpoints | internal/newznab/titles.go:239-255 | the fragments left alone are exactly the clean ones, so sanitising twice is sanitising once |
| Sanitise.ShownIs | internal/newznab/titles.go:18-30 | letters, digits, dots and hyphens are kept, a space becomes a dot, an ampersand its word, a dash a hyphen; apostrophes, quotation marks and every other character without an ASCII analogue go |
| Sanitise.AccentsShown | internal/newznab/titles.go:30-54 | every accented letter of the table becomes its base letter, every ligature its letters |
| Sanitise.SanitiseIsPerCharacter | internal/newznab/titles.go:245-255 | the passes over a name come to one contribution per character, in order, without doubled or edge dots |
| Sanitise.CharacterInPlace | internal/newznab/titles.go:245-255 | between letters and digits, a character prints as exactly that contribution, and they stay |
| Sanitise.WordsPrintDotted | internal/newznab/titles.go:239-255 | words of letters and digits with a space between each print as those words with a dot between each |
| Parse.FirstMarkerOfDotted | internal/newznab/parse.go:28-35 | a dot separates: the leftmost SxxExx marker of two dotted parts is the left part's, else the right part's, never one across the dot |
| Titles.SeriesPrefixIsStripped | internal/newznab/titles.go:67-70 | BBC's own "Series N: M. " numbering is taken off a subtitle, for all numbers, and nothing more |
| Titles.GivenNumberIsPrinted | internal/newznab/titles.go:174-205 | the second copy of the tier chain agrees with the first: the number it names is the one a programme with no override goes out with, and it names none exactly when the title has none |
| Names.NameIsReadBack | internal/newznab/parse.go:44-76 | a name of plain words is read back from its numbered title as that very name, if and only if no word looks like a marker |
| Names.NameIsReadBackWithDate | internal/newznab/parse.go:78-102 | and from its dated title, when neither it nor the subtitle holds a marker or a date |
| Names.TitleIsItsParts | internal/newznab/titles.go:207-237 | a title is its name's words, its marker or its date's parts, its subtitle's words, the quality and the suffix, in that order with dots between |
| Names.DateIsPrintedOnce | internal/newznab/titles.go:217-220 | a subtitle that is a date, or a date under a label, is not printed beside the air date |
| Names.WhatGoesOut | internal/newznab/titles.go:126-171 | which number, date or bare title each kind of programme goes out with, by its fields |
| Names.SoapIsReadBackByDate | internal/newznab/titles.go:143-154 | a daily whose subtitle is the day in figures is read back with its air date and no number, whatever its position |
| Labels.SpecialMeans | internal/newznab/titles.go:257-259 | a subtitle is a special's exactly when one of six words stands in it as a word, in any case |
| Labels.DateSubtitles | internal/newznab/titles.go:56-85 | every day, month and year with slashes, dots or hyphens between is a date, and so it is under a label |
| Labels.SeriesLabelMeans | internal/newznab/tvdb.go:636-644 | an episode numbered under a label has that label, and nothing else has one |
| Labels.StoryPartMeans | internal/newznab/tvdb.go:352-362 | a label, a story and an episode make a story's part, unless the story is itself numbered or missing |
| Labels.VersionBaseMeans | internal/newznab/tvdb.go:515-522 | a subtitle is another version's exactly when it ends in one of three marks, and then of what stands before |
| RoundTrip.FirstMarkerOfNumber | internal/newznab/parse.go:28-35 | a printed number is read as the leftmost marker exactly for seasons 0-99 and episodes 0-9999; outside those no marker is read |
| RoundTrip.ShowNameReadBack | internal/newznab/parse.go:96-102 | the prefix of a printed title is read back as the sanitised name with its dots as spaces |
| RoundTrip.NumberedTitleRoundTrip | internal/newznab/titles.go:207-215 | the parser inverts the numbered builder, show name included, for every number in the marker's range, if and only if the name carries no marker of its own |
| RoundTrip.DatedTitleRoundTrip | internal/newznab/titles.go:217-228 | the parser inverts the date builder for every date it accepts, if and only if name and printed subtitle carry no marker and the name no date |
| RoundTrip.PrintedNumberReadBack | internal/newznab/parse.go:53-94 | whatever the tier, a title is read back with the number that was printed when the marker has room for it, and with no number otherwise |
| RoundTrip.DatedSpecialReadBack | internal/newznab/titles.go:126-136 | a special known only by its date is read back as season 0, episode month times 100 plus day |
| RoundTrip.ForcedDateReadBack | internal/newznab/titles.go:99-112 | Force Date Based sends out every programme with a full date, TheTVDB's numbers or not, under its date and custom name, and it is read back so if and only if name and subtitle are free of markers and dates |
| SearchFilter.ReachableNumbers | internal/newznab/search.go:812-839 | what the conversion guarantees: BBC's numbers are not negative and an episode number comes with a series |
| SearchFilter.SearchAgreesWithTitle | internal/newznab/search.go:1224-1294 | no release answers a search for an episode it is not: what the filter accepts for a season and episode is read back by its title as exactly that, or as no number, under every override and release name |
| SearchFilter.TitleAnswersItsSearch | internal/newznab/search.go:1224-1294 | a release answers the search for the number its title is read back as if and only if its name matches and the number is not a bare guess outside the escape hatch |
| SearchFilter.UndatedGuessAnswersNothing | internal/newznab/search.go:1247-1249 | the failing case: an undated programme goes out as S01E04 and does not answer S01E04 |
| SearchFilter.SameTitleSameNumber | internal/newznab/search.go:1050-1059 | an override that leaves the probed title alone leaves the number read back alone, in every quality and under every name |
| SearchFilter.EmittedNumberIsReadBack | internal/newznab/search.go:1296-1306 | the emitted number, a composition of printer and parser, is the tier chain's own number where the marker has room |
| SearchFilter.AnswersExactly | internal/newznab/search.go:1231-1294 | every season and episode filter without a day, for every override: what a programme answers is decided by the number its title is read back with, else by its own, else, in the escape hatch, by the year of its date |
| SearchFilter.DailySearchAsksForItsDay | internal/newznab/search.go:260-284 | the year, month and day of a date, as Sonarr sends them, are read as that date |
| SearchFilter.DailySearchFindsItsDay | internal/newznab/search.go:1228-1230 | that search finds exactly the programmes of the day |
| SearchFilter.AnswersOneDay | internal/newznab/search.go:1228-1230 | a programme answers one day at most, its own, whatever its overrides and whatever season and episode stand beside |
| SearchFilter.DatedReleaseAnswersItsDay | internal/newznab/search.go:1228-1230 | a release that goes out by date answers a day if and only if its name matches and its title is read back with that day |
| SearchFilter.NumberedEpisodeAnswersOneSearch | internal/newznab/search.go:1250-1273 | an episode with a number answers exactly one episode search under every override: the one for the number its title is read back with, or for its own when the title has none |
| SearchFilter.OverrideMovesTheSearch | internal/newznab/search.go:1250-1273 | with offsets or a forced series: a positive moved number is read back and is the one search answered; one too large for the marker leaves the search answered before; one that is not positive leaves an ordinary episode the search for its position, or its own |
| SearchFilter.NegativeOffsetAnswersPosition | internal/newznab/titles.go:122-163 | the case of that: Series 2 Episode 3 at position 7 with an Episode Offset of -3 answers S01E07 and not S02E03 |
| SearchFilter.ForcedPositionMovesTheSearch | internal/newznab/titles.go:114-163 | Force Position makes an ordinary episode answer exactly the search for its position, in Series 1 or the forced one |
| SearchFilter.YearSearchFindsItsYear | internal/newznab/search.go:1279-1285 | a dated programme without a number answers a season search for a year exactly when that is the year of its date |
| Dates.NextDayIsNextNumber | internal/newznab/tvdb.go:227-237 | the day numbers the windows are measured in rise by one from each calendar day to the next, across months, years and leap days |
| Dates.ParsedDay | internal/newznab/tvdb.go:227-237 | a text of year, month and day is the day of that year, month and day, exactly when the calendar has it |
| Dates.OnlyDatesParse | internal/newznab/tvdb.go:227-237 | and no other text is a day |
| TVDB.NewTVDBIndex | internal/newznab/tvdb.go:178-208 | the index holds, by title, number and special's day, exactly the dated episodes numbered from 1, in list order, the last one winning a number; and, for every list, its latest day and its earliest, the year-1 dates that read as no date included |
| TVDB.TitleMatches | internal/newznab/tvdb.go:247-272 | the counting scan tells none, one and several apart, and for one keeps the strongest of its matches |
| TVDB.FindSpecificEpisode | internal/newznab/tvdb.go:406-422 | the counting scan finds an episode exactly when the specific titles all name one number |
| TVDB.Claim | internal/newznab/tvdb.go:486-512 | the number a programme claims on its own, through title, special's air date or title at any date, in that order |
| Matching.TitleVerdictMeans | internal/newznab/tvdb.go:239-272 | in terms of the list: no dated episode within a week has a candidate title; or all that have are of one number, matched as strongly as any; or two have different numbers |
| Matching.SpecialOnMeans | internal/newznab/tvdb.go:274-298 | an air date claims a special that aired that very day, the only one, or the only one the subtitle names |
| Matching.AnyDateMeans | internal/newznab/tvdb.go:388-429 | a number outside the window is that of every listed episode a specific title names, for a programme whose own number the list does not bear out, aired no more than a year before it |
| Matching.ClaimIsListed | internal/newznab/tvdb.go:483-512 | every claimed number is that of a dated episode of the list, so episodes start at 1 |
| Matching.ContradictedMeans | internal/newznab/tvdb.go:431-447 | a number is contradicted only by a listed episode at that number with another title, more than a week away |
| Matching.BeyondRunMeans | internal/newznab/tvdb.go:377-386 | beyond the run means: every listed episode is more than a year later, or every one more than ten years earlier |
| Doubts.BornOutMeans | internal/newznab/tvdb.go:308-326 | a number is borne out exactly by the last dated episode the list has at it, by its title or an air date within a week |
| Doubts.GuessStandsMeans | internal/newznab/tvdb.go:497-501 | a guess stands exactly when that episode has its title or aired that day, or at a regular number within a week |
| Doubts.GuessedMeans | internal/newznab/titles.go:174-205 | a printed number is a guess exactly when BBC did not give both its parts, or only for a special of an assumed series |
| Doubts.ContradictsMeans | internal/newznab/tvdb.go:431-447 | a number is contradicted if and only if the title has it, it is a special's that was not given, or an assumed or story part's, or beyond an unmatched show's run, and the list's last episode there has another title and aired more than a week away |
| Doubts.ContradictedPlaces | internal/newznab/tvdb.go:628-632 | the places resolve marks are exactly those of eligible programmes that win nothing, are not spared by their label, and whose printed number is so contradicted |
| Doubts.ClaimByTitle | internal/newznab/tvdb.go:486-495 | a title that fits one number near the air date claims it, as strongly as it fits at best; one that fits two claims none |
| Doubts.FullTitleClaims | internal/newznab/tvdb.go:210-219 | a title of the programme's own claims more strongly than one after a label, that than an air date, and that than a title outside the window |
| Doubts.SpecialOnExactly | internal/newznab/tvdb.go:274-298 | an air date names a special exactly when the list has one of that day, or one of several whose title the subtitle contains |
| Doubts.ClaimBySpecial | internal/newznab/tvdb.go:497-503 | with no fitting title, a guess that stands claims nothing, and one that does not claims the special of its day |
| Doubts.AnyDateExactly | internal/newznab/tvdb.go:388-429 | a title at any date names nothing without a printed number, with one borne out, for two numbers, or long before every such episode, and otherwise that episode |
| Doubts.LongBeforeMeans | internal/newznab/tvdb.go:423-427 | long before means more than a year before |
| Doubts.ClaimElse | internal/newznab/tvdb.go:486-509 | with neither, a datable programme claims what a title at any date gives and any other nothing |
| Arbitration.OutcomeIsExclusive | internal/newznab/tvdb.go:477-483 | winners and contradicted programmes are eligible, none is both, and no programme wins two numbers |
| Arbitration.WinnersOfOneNumber | internal/newznab/tvdb.go:470-475 | different programmes that win one number both match as strongly as every rival, and below a full title match share one subtitle |
| Arbitration.OriginalsRemain | internal/newznab/tvdb.go:515-529 | the version filter never empties a group: a claimant with the shortest subtitle stays |
| Arbitration.RivalsRemain | internal/newznab/tvdb.go:515-549 | preferring an owner does not empty it either |
| Arbitration.SoleClaimantPrevails | internal/newznab/tvdb.go:545-567 | a number claimed by one PID, however often listed and in however many versions, goes to one of its listings |
| Arbitration.NothingWonUnlessBorneOut | internal/newznab/tvdb.go:477-482 | nothing is numbered unless some programme won a number matched within the window or stands at its own number |
| Arbitration.UnmatchedShowOnlyOffWindow | internal/newznab/tvdb.go:618-627 | what the show-wide test takes away are only numbers matched outside the window and not the programme's own |
| Arbitration.KeepOriginals | internal/newznab/tvdb.go:515-529 | keeps exactly the claims whose programme is no version of another claimant |
| Arbitration.PreferOwner | internal/newznab/tvdb.go:530-549 | leaves the specified rivals: one owner's claims when all are outside the window, else all |
| Arbitration.Arbitrate | internal/newznab/tvdb.go:514-568 | wins exactly the claims that prevail for the number, from counts of PIDs and subtitles |
| Arbitration.GatherClaims | internal/newznab/tvdb.go:484-512 | the claims map holds, number by number, exactly the considered programmes that claim it |
| Arbitration.ArbitrateAll | internal/newznab/tvdb.go:513-568 | visiting the map in any order, wins exactly the prevailing claims, each programme once |
| Arbitration.JudgeShow | internal/newznab/tvdb.go:569-617 | decides whether the list bears the show out, and counts per label the PIDs borne out and checkable |
| Arbitration.Resolve | internal/newznab/tvdb.go:483-634 | the claims won and the programmes contradicted are exactly the declared ones, a matter of the set of programmes |
| Arbitration.OrderDoesNotMatter | internal/newznab/tvdb.go:483-634 | every permutation of the programmes gives each of them the same number, or none, and the same mark |
| Rivalries.VersionGivesWay | internal/newznab/tvdb.go:470-475 | a signed, animated or reconstructed version gives way to the version it is of |
| Rivalries.OriginalStays | internal/newznab/tvdb.go:515-529 | a subtitle without one of those marks is never taken for a version |
| Rivalries.FullTitlePrevails | internal/newznab/tvdb.go:561-567 | an original whose full title matched keeps the number, whoever else claims it |
| Rivalries.OwnerPrevails | internal/newznab/tvdb.go:530-549 | among originals all matched outside the window, the one programme that goes out with the number keeps it and no other does |
| Rivalries.WeakerGivesWay | internal/newznab/tvdb.go:561-564 | a weaker claim gives way to another programme's stronger one |
| Rivalries.TiedSubtitlesLose | internal/newznab/tvdb.go:561-564 | programmes with equal claims below a full title and different subtitles lose the number both |
| Rivalries.StrongestSubtitlePrevails | internal/newznab/tvdb.go:550-567 | the strongest claim, made by one subtitle, keeps the number |
| Rivalries.WindowMatchBearsOut | internal/newznab/tvdb.go:586-592 | one number matched within the window lets every programme that prevails keep its own |
| Rivalries.OwnNumberBearsOut | internal/newznab/tvdb.go:569-602 | so does one programme without another number whose printed number the list bears out |
| Rivalries.ThreeSpareTheirLabel | internal/newznab/tvdb.go:646-661 | three programmes of a label at their own numbers, with no more that are not, spare the whole label from contradiction |
| Rivalries.TwoDoNotSpare | internal/newznab/tvdb.go:646-661 | two do not, nor does a label more of whose programmes fail than stand |
| Numbering.NumberedIsReachable | internal/newznab/tvdb.go:455-459 | a converted programme that takes a listed number is one the search theorems hold for |
| Numbering.AssumedSeriesIsDoubted | internal/newznab/search.go:812-839 | an iBL episode number without a series goes out in Series 1, and is contradicted exactly when the list's episode there is another |
| Numbering.WinnerGoesOutAsListed | internal/newznab/tvdb.go:461-483 | from list to release: a winner's title is read back as a listed episode's number under every override that forces no date, and answers the search for it |
| Numbering.FeedNumberIsListed | internal/newznab/tvdb.go:765-785 | a numbered feed item carries an episode number of the very series that takes it, and is not marked contradicted |
| Browse.NumberFromTVDB | internal/newznab/tvdb.go:668-680 | numbers and marks exactly the winners and the contradicted, touches nothing else, and counts the former |
| Browse.AddPicks | internal/newznab/tvdb.go:896-898 | adds one mapping's winners to every programme's picks |
| Browse.Strictest | internal/newznab/tvdb.go:907-919 | finds a pick exactly when one is stronger than all others |
| Browse.MarkUnchecked | internal/newznab/tvdb.go:682-698 | marks exactly the guessed programmes with a candidate whose list is missing, and returns how many |
| Browse.MarkContradicted | internal/newznab/tvdb.go:899-903 | marks exactly those contradicted by the series named as they go out |
| Browse.PickSeries | internal/newznab/tvdb.go:885-904 | over all mappings, collects exactly the winning ones of each programme and marks the contradicted |
| Browse.TakeNumbers | internal/newznab/tvdb.go:905-923 | visiting the picks in any order, leaves every item its one outcome and names the series taken |
| Browse.NumberBrowse | internal/newznab/tvdb.go:785-926 | every item of the feed ends with its declared outcome, and the result names a PID exactly when one of its items is numbered |
| Browse.TakenIsOne | internal/newznab/tvdb.go:905-925 | where the listings of a PID agree, the mapping returned for it does not depend on the order the picks are visited in |
| Browse.OutcomeIsOne | internal/newznab/tvdb.go:765-785 | the declared outcome of an item is unique |
| Browse.NumberedOnlyWhenComplete | internal/newznab/tvdb.go:843-859 | an item is numbered only when the list of every candidate arrived, never ends both numbered and contradicted, and is not newly held back |
| Browse.TiesNumberNothing | internal/newznab/tvdb.go:905-919 | two equally strong strongest claims number nothing |
| Browse.OrderOfMappingsDoesNotMatter | internal/newznab/tvdb.go:785-926 | any order of the stored mappings and of the programmes gives every item the same outcome |
| Feed.HeldBackMeans | internal/newznab/tvdb.go:682-698 | an item is held back exactly when its printed number is a guess and a series its name fits has no list |
| Feed.StrongestSeriesNumbers | internal/newznab/tvdb.go:905-922 | a series that matches more strongly than every other, above an air date alone, numbers the item |
| Feed.WeakSeriesYields | internal/newznab/tvdb.go:860-873 | an air date alone or a title outside the window numbers it exactly when no other series its name fits bears out its printed number |
| Feed.MarkedUnderItsName | internal/newznab/tvdb.go:874-903 | an unnumbered item is marked exactly when the series named as it goes out contradicts it, letters' case apart |
| EpisodeNumbers.SortByDate | internal/bbc/ibl.go:394-398 | arranges the same indices so that no date precedes an earlier one |
| EpisodeNumbers.GroupBySeries | internal/bbc/ibl.go:373-379 | groups the indices of every positive series, each once |
| EpisodeNumbers.NumberSeries | internal/bbc/ibl.go:394-403 | numbers a series 1 to n in air-date order, in place, and nothing else |
| EpisodeNumbers.AssignMissingEpisodeNumbers | internal/bbc/ibl.go:372-405 | every wholly unnumbered series gets 1 to n, once each, in air-date order, marked; every other entry is unchanged |
| EpisodeNumbers.OneNumberKeepsTheSeries | internal/bbc/ibl.go:382-392 | one number or position anywhere in a series leaves the whole series as it is |
| EpisodeNumbers.NoNumberNumbersTheSeries | internal/bbc/ibl.go:382-403 | with none, every entry of a positive series is numbered from 1 and marked |
| EpisodeNumbers.AssigningIsIdempotent | internal/bbc/ibl.go:372-405 | a second call changes nothing, whatever order the map was visited in |
| EpisodeNumbers.NumberIsRank | internal/bbc/ibl.go:400-403 | the numbers are a bijection: an entry's number is one more than how many of its series come below it |
| EpisodeNumbers.NumberBounds | internal/bbc/ibl.go:394-403 | however the sort breaks ties, an entry's number is more than the count of its series' earlier entries and at most the count of those not later |
| EpisodeNumbers.OwnDateDecides | internal/bbc/ibl.go:394-403 | an entry no other of its series shares its date with has one possible number, whatever ties there are elsewhere and in whatever order the map is visited |
| Downloads.OneFailure | internal/download/worker.go:448-514 | every failure raises the sum of the four counters by one, and one that leaves the row retryable keeps it within every budget |
| Downloads.BudgetsHold | internal/download/worker.go:448-514 | after any failures the counters add up to their number; while all were retried, each counter is within its budget |
| Downloads.FailuresEnd | internal/download/worker.go:21-34 | no run of failures, whatever the codes and cooldowns, leaves a download retryable more than 30 times |
| Downloads.ThirtyIsReached | internal/download/worker.go:21-34 | the bound is exact |
| Downloads.StallsAlone | internal/download/worker.go:455-473 | stalls alone end between the third and the ninth, exactly when three were not frozen |
| Downloads.RetrySchedule | internal/download/worker.go:442-447 | one kind of failure: five-minute retries until the twelfth, none for a refusal by region or expiry, else 30 s, 90 s and the third is permanent |
| Downloads.StallSchedule | internal/download/throttle.go:284-294 | a stall is waited out 30 s or 90 s by how many stalls count, the frozen ones not |
| Downloads.CDNFailuresCounted | internal/download/worker.go:494-505 | after any run of failures a row counts exactly its ffmpeg and truncated failures without a refusal, and still asks for its quality |
| Downloads.RefusalsRecorded | internal/download/worker.go:496-502 | and names exactly the suppliers that refused it |
| Throttle.DroppingIsFiltering | internal/download/throttle.go:261-270 | on a time-sorted list, dropping expired events from the front is filtering by the window |
| Throttle.AdaptiveThrottle.constructor | internal/download/throttle.go:99-119 | a new throttle is sound, at its ceiling, with clamped floor and threshold |
| Throttle.AdaptiveThrottle.Admit | internal/download/throttle.go:138-149 | admits exactly when disabled, or not cooling and below the limit |
| Throttle.AdaptiveThrottle.Prune | internal/download/throttle.go:261-270 | keeps exactly the events inside the window |
| Throttle.AdaptiveThrottle.Distinct | internal/download/throttle.go:272-278 | counts the distinct downloads of the window |
| Throttle.AdaptiveThrottle.Backoff | internal/download/throttle.go:170-178 | the doubling loop gives the base after no trip and min(base * 2^n, maximum) after n |
| Throttle.AdaptiveThrottle.RecordStall | internal/download/throttle.go:155-188 | trips exactly when not cooling and enough distinct downloads stalled in the window, and then sets the whole new state |
| Throttle.AdaptiveThrottle.RecordClean | internal/download/throttle.go:190-202 | resets the backoff outside a cooldown and changes nothing else |
| Throttle.AdaptiveThrottle.MaybeRecover | internal/download/throttle.go:204-231 | raises the limit by one, up to the ceiling, exactly past the gate with a clean window and no cooldown |
| Throttle.AdaptiveThrottle.ClearCooldown | internal/download/throttle.go:233-243 | a manual resume restores the ceiling and forgets the cluster |
| ThrottleRuns.EveryStateSound | internal/download/throttle.go:85-119 | in every reachable state floor <= limit <= ceiling and the events are sorted by time |
| ThrottleRuns.LimitMoves | internal/download/throttle.go:155-231 | the limit falls only by a trip, to its half or the floor, and rises by one or by a resume |
| ThrottleRuns.RisesAreSpaced | internal/download/throttle.go:204-231 | two recoveries are at least CooldownUp apart, however many workers call |
| ThrottleRuns.RecoveryRate | internal/download/throttle.go:204-231 | no interval of length L holds more than L / CooldownUp + 1 recoveries |
| ThrottleRuns.CooldownHolds | internal/download/throttle.go:179-187 | without a resume, neither the cooldown's end nor the recovery gate ever comes before what the trip set |
| ThrottleRuns.TripsDoNotOverlap | internal/download/throttle.go:164-166 | cooldowns never overlap, so the limit halves at most once in each |
| ThrottleRuns.CooldownsEscalate | internal/download/throttle.go:170-180 | since the trip counter last stood at none, and while nothing resets it (a completion outside a cooldown, a resume, a recovery to the ceiling), the cooldown of each trip is the base, then twice as long every time, up to the maximum |
| ThrottleRuns.CompletionRestartsBackoff | internal/download/throttle.go:190-202 | after a completion outside a cooldown the next cooldown is a base one again |
| ThrottleRuns.EventsAreStalls | internal/download/throttle.go:155-163 | since the last resume, the events inside the window are exactly the run's stalls inside it |
| ThrottleRuns.TripsOnClusters | internal/download/throttle.go:155-170 | a stall opens a cooldown if and only if none is running and enough distinct downloads stalled within the window |
| ThrottleRuns.ResumeLiftsCooldown | internal/download/throttle.go:233-243 | a manual resume lifts the cooldown at once and restores the ceiling |
| ThrottleRuns.NoRiseBeforeCooldownEnds | internal/download/throttle.go:179-187 | after a trip the limit does not rise before the cooldown's end plus CooldownUp |
| ThrottleRuns.CooldownPausesAdmission | internal/download/throttle.go:130-149 | until the cooldown of a trip ends, every state refuses admission |
| ThrottleRuns.CooldownFreezesStalls | internal/download/worker.go:462-473 | every stall failed before that end, the tripping one included, is a credit and not a strike, until the six credits are spent |
| ThrottleRuns.RecoveryCompletes | internal/download/throttle.go:204-231 | in any run, from a quiet state and while nothing stalls, k recover calls CooldownUp apart, with any other recoveries and completions of any worker between them, bring the limit to the ceiling or at least k higher, and to exactly that when they are the only recover calls |
| ThrottleRuns.QuietEventually | internal/download/throttle.go:204-222 | every sound state lets a recovery through once cooldown, gate and window have passed |
| Streams.FindRung | internal/download/worker.go:721-727 | finds the first rung at or below a height, or the lowest |
| Streams.DegradeGoesDown | internal/download/worker.go:712-733 | degrading lowers every request above 396, and never raises one, if and only if the request is at least 396 or no step is taken |
| Streams.DegradeStepsOneRung | internal/download/worker.go:712-733 | every CDN failure costs exactly one rung of the ladder, no rung is skipped, and the lowest is the end |
| Streams.DegradeRaisesLowRequest | internal/download/worker.go:715-732 | the failing case: a 288 request is raised to 396 |
| Streams.DegradedTagIsItsHeight | internal/download/worker.go:690-710 | a degraded attempt's tag names the height it asks for |
| Streams.NextAttemptAsksFor | internal/download/worker.go:672-710 | after any failures of a fresh row, the next attempt asks for as many rungs below the request's as failures that cost quality, if the last was the download's own, and else for the request |
| Streams.FullHDStepsDown | internal/download/worker.go:690-710 | a fresh 1080p row that fails twice is retried at 720 and then at 540 |
| Streams.UnknownQualityIs720 | internal/download/worker.go:658-666 | a quality that is no number asks for 720 |
| Streams.Candidates | internal/download/worker.go:629-645 | the candidates are exactly the streams at the least distance, the allowed ones those of suppliers not excluded, in order |
| Streams.FirstHLS | internal/download/worker.go:650-655 | the first HLS stream, or the first of all when none is HLS |
| Streams.PickStream | internal/download/worker.go:610-656 | picks the first HLS, else the first, of the nearest streams not excluded, or of all nearest ones when every one is; an exclusion never costs height |
| Streams.PickIsUnique | internal/download/worker.go:610-622 | that description leaves one stream |
| Streams.PickMeans | internal/download/worker.go:610-622 | no stream is nearer the requested height than the pick; its supplier has not refused if one as near has not, and of those it is the first HLS stream, or the first |
| Streams.RefusalRecorded | internal/download/worker.go:494-505 | a refusal adds its supplier and leaves the failures that lower the quality alone |
| Streams.RefusalsRuleOutSuppliers | internal/download/worker.go:494-505 | along a run of refusals, each of the first k rules out a new nearest supplier and the requested height is kept |
| Streams.FreshRowTriesThreeSuppliers | internal/download/worker.go:494-507 | within the retry budget a fresh row is attempted three times and tries min(3, n) of its n nearest suppliers, all of them if and only if n is at most three |
| Streams.RefusedStaysRefused | internal/download/supplier.go:110-118 | a supplier that refused is on the list from then on |
| Streams.PicksAreDistinct | internal/download/worker.go:619-622 | until every nearest supplier has refused, no two attempts use the same one |
| Queue.BeforeIsTotal | internal/store/downloads.go:100-128 | on rows with distinct ids the seven-key comparator is irreflexive and total |
| Queue.BeforeIsTransitive | internal/store/downloads.go:100-128 | and transitive |
| Queue.SortingSorts | internal/store/downloads.go:67-128 | sorting rows with distinct ids gives their queue |
| Queue.QueueIsUnique | internal/store/downloads.go:39-50 | a set of rows has one queue, whatever order the bucket yields them in |
| Queue.ReinsertionIsPermutation | internal/store/downloads.go:228-232 | a move keeps every row, puts the moved one where asked and keeps the others' relative order |
| Queue.MovesAsNamed | internal/store/downloads.go:211-232 | top and bottom take the row past all the others, up and down swap it with exactly one neighbour |
| Queue.RenumberedIsSorted | internal/store/downloads.go:153-158 | after renumbering, the arrangement is the comparator's own order |
| Queue.UpThenDown | internal/store/downloads.go:211-227 | up and then down restores the order if and only if the row did not lead a longer queue |
| Queue.UpThenDownSwapsFrontRow | internal/store/downloads.go:211-227 | the failing case: in a queue of two, the front row ends second |
| Store.Scan | internal/store/downloads.go:259-271 | a bucket scan yields exactly the rows kept, once each |
| Store.CloseGap | internal/store/downloads.go:230 | the first append closes the gap in place |
| Store.WriteTail | internal/store/downloads.go:231 | the second append overwrites the tail in place |
| Store.Splice | internal/store/downloads.go:228-232 | the two appends over one backing array amount to removing and reinserting the row |
| Store.Store.ListDownloads | internal/store/downloads.go:51-65 | the rows of the bucket in claim order |
| Store.Store.PendingDownloads | internal/store/downloads.go:256-271 | the pending queue |
| Store.Store.Renumber | internal/store/downloads.go:234-247 | writes priorities from the length down to 1 and touches no other row |
| Store.Store.Rearrange | internal/store/downloads.go:203-247 | the stored rows, sorted again, are exactly the list returned |
| Store.Store.MoveDownload | internal/store/downloads.go:144-254 | refuses in the source's order of errors and then changes nothing; else the new queue is the old one with the row reinserted at the clamped place, renumbered, and no other row is touched |
| Store.Store.FindDownload | internal/store/downloads.go:279-294 | finds a row of the programme and quality exactly when there is one |
| Store.Store.FindHistory | internal/store/history.go:168-195 | in any iteration order, finds a row exactly when there is one, and one that did not fail exactly when there is one |
| QueueRuns.ArrangementSurvives | internal/store/downloads.go:153-162 | through any run of arrivals, writes and removals a ranked queue is its still-pending rows in their order, then the arrivals in natural order |
| QueueRuns.MoveRanks | internal/store/downloads.go:153-162 | a move ranks every row it arranges |
| QueueRuns.MoveSurvives | internal/store/downloads.go:144-168 | so an operator's arrangement is what is claimed until the next move |
| QueueRuns.ShowsStayTogether | internal/store/downloads.go:71-85 | in any queue, between two equally ranked rows of a show come only rows of that show, in season and episode order |
| Manager.FailureKeepsPair | internal/download/worker.go:448-514 | a failure never changes the id, programme or quality a row is deduplicated by |
| Manager.EnqueueKeepsOnePerPair | internal/download/manager.go:231-330 | an enqueue keeps at most one row for a programme and quality |
| Manager.WriteKeepsIffAlone | internal/store/downloads.go:12-22 | a worker's write, an upsert, keeps at most one row for a programme and quality if and only if no other row has them |
| Manager.CallKeepsOnePerPair | internal/download/manager.go:231-379 | every other call keeps the rule unconditionally: failures, completions, cancels, SABnzbd deletes and history deletes |
| Manager.OneRowPerPairIff | internal/download/manager.go:231-330 | over every run, queue and history together hold at most one row for a programme and quality if and only if no worker writes a row whose pair another row has by then |
| Manager.OneRowPerPair | internal/download/manager.go:231-330 | so they do in every state of every run whose workers write rows that are still queued |
| Manager.LateWriteLeavesTwoRows | internal/store/downloads.go:12-22 | the failing case: a row written again after its download was moved to history |
| Manager.Manager.Enqueue | internal/download/manager.go:231-330 | in any store: a queued row, or one found in history that is not superseded, answers for the grab and nothing changes; else the row is inserted and at most the one superseded row found goes; where there was at most one row there still is |
| Manager.EnqueuedIsAfterEnqueue | internal/download/manager.go:258-282 | with at most one row for the pair, a grab inserts exactly when none exists or the only one is a superseded failure, which goes |
| Manager.LiveRowBlocksGrab | internal/download/manager.go:241-273 | in any store, a queued row or one that did not fail keeps a grab from starting over, whatever else history holds and in whatever order it is read |
| Grabs.GrabIsClaimable | internal/download/manager.go:304-319 | a stored grab is in the pending queue under its id, for its programme and quality, with every budget whole, and claimable at once |
| Grabs.GrabArrives | internal/download/manager.go:304-319 | storing it is a legal arrival, so what the queue keeps through arrivals holds of grabs |
| Grabs.GrabJoinsAtTheEnd | internal/store/downloads.go:153-162 | a grab joins an arranged queue at its end |
| Grabs.OnlyTheSameGrabStandsInTheWay | internal/download/manager.go:241-282 | a grab is stored when no row has its programme and quality, and not when a queued one has |
| Grabs.CompletionIsFinal | internal/download/worker.go:373-396 | a completed download is in history as such, without an earlier failure, and no grab of it starts over |
| Grabs.RetriedAfterItsWait | internal/download/worker.go:95-104 | a failed row is claimable exactly when its budget allows and its wait is over |
| Manager.EndedRowsDecideRegrab | internal/download/manager.go:246-265 | a fresh grab starts over never after a completion, always after a cancel, and after a failure exactly when it is permanent and BBC had not published or could not describe the programme |
| Manager.DeletedRowsDecideRegrab | internal/sabnzbd/handler.go:131-158 | a row deleted from the queue can be grabbed again exactly when its last failure, whose code the copy keeps, was one of those two |
| Manager.GrabsEnd | internal/download/worker.go:21-34 | no grab, however it fails, is retried more than thirty times |
| Manager.Manager.Fail | internal/download/worker.go:448-514 | the field-by-field updates leave the specified row |
| Manager.Manager.FailStalled | internal/download/worker.go:455-473 | a stall is counted, unless frozen, and retried within its own budget |
| Manager.Manager.FailByBBC | internal/download/worker.go:474-493 | refusals are final; missing programmes and metadata wait five minutes within their budgets |
| Manager.Manager.FailOrdinarily | internal/download/worker.go:494-514 | a named refusal is held against the supplier, a CDN failure against the quality, and both are retried with backoff |
| Manager.Manager.TripledBackoff | internal/download/throttle.go:284-294 | the loop gives 30 s tripled for every count past the first |
| Manager.Manager.FailDownload | internal/download/worker.go:448-524 | the row stays in the queue exactly while retryable, else moves to history, and one row per pair is kept |
| Manager.GrabsAreClaimedInEpisodeOrder | internal/download/manager.go:295-312 | two grabs of a show, printed, enqueued and parsed, are claimed in season and episode order whatever their ids and arrival |
| Manager.DateOrderIsTextual | internal/store/downloads.go:86-88 | on ISO dates the order of the texts is the order of the calendar |
| Manager.GrabsAreClaimedInDateOrder | internal/download/manager.go:295-312 | grabs of a daily show are claimed in the order they aired |
| Claims.EveryStateConsistent | internal/download/worker.go:79-131 | under every interleaving the claimed map holds exactly the ids being processed, each by the worker it names |
| Claims.ClaimsAreExclusive | internal/download/worker.go:79-131 | no download is processed by two workers at once, panics included |
| Claims.ClaimsAreTheBusyWorkers | internal/download/worker.go:79-131 | in any pool there is one claim for every busy worker, so never more than workers, and none exactly when all are idle |
| Claims.ClaimTable.Admit | internal/download/manager.go:174-181 | the admission test on the number of claims is the protocol's admission step, taken exactly when that step is enabled |
| Claims.ClaimTable.Claim | internal/download/worker.go:591-601 | claim succeeds exactly when the protocol's claim step is enabled, is then that step, and otherwise changes nothing |
| Claims.ClaimTable.Release | internal/download/worker.go:603-608 | release is the protocol's release step |
| ClaimRuns.OnlyClaimsExceed | internal/download/worker.go:105-109 | a step takes the claims over a limit exactly by claiming when the limit is reached |
| ClaimRuns.BoundedIffAdmittedAtClaim | internal/download/worker.go:81-109 | the claims of a run stay within a limit if and only if every claim is made with fewer held, the admission test asked again |
| ClaimRuns.BoundedWhenOneDecides | internal/download/worker.go:81-109 | admission alone is a bound in every run that never has two workers between admission and claim |
| ClaimRuns.AdmissionIsNotABound | internal/download/worker.go:86-109 | the failing case: with a limit of one, a run ends with two claimed |
| ClaimRuns.ApartIffNothingRevivedOrJoined | internal/download/worker.go:89-128 | from disjoint buckets, queue and history stay disjoint over a run if and only if no worker writes a row history already holds and the rest of the system puts no id in both |
| ClaimRuns.FinishedStaysFinished | internal/download/worker.go:373-396 | while they are disjoint, a row of history stays as it ended and out of the queue |
| ClaimRuns.RevivalIsStale | internal/download/worker.go:89-128 | a worker's write that joins buckets disjoint so far comes from a listing made while the row was queued, and between the two another worker archived it before this one's claim, or the rest of the system moved it |
| ClaimRuns.RecheckedClaimsKeepApart | internal/download/worker.go:95-109 | if no claim takes a row that is in history by then, and the rest of the system spares claimed rows, the buckets stay disjoint if and only if the rest of the system keeps them so |
| ClaimRuns.StaleListingRevivesRow | internal/download/worker.go:89-128 | the failing case: a run in which a completed row comes back to the queue beside its history entry |
| ClaimRuns.DeleteCanLeaveBoth | internal/sabnzbd/handler.go:131-158 | the other failing case: a delete removes the row, a worker writes it back, and the delete's copy reaches history |
| Heights.DedupedSortedHeights | internal/bbc/prober.go:433-450 | the positive heights, each once, in descending order |
| Heights.InsertHeight | internal/bbc/prober.go:533-542 | adds a height and keeps the order |
| Heights.ReplaceHeight | internal/bbc/prober.go:517-531 | swaps a height for another, or drops it, and keeps the order |
| Heights.PrependedOrder | internal/bbc/prober.go:371-373 | prepending 1080 keeps the order if and only if every listed height is below it |
| Heights.PrependedAfter2160 | internal/bbc/prober.go:371-373 | the failing case: 2160 and 720 |
| Heights.BestHLSURLs | internal/bbc/prober.go:452-474 | the URLs of the HLS streams at the highest bitrate, once each, in order |
| Heights.LiveSuppliersOnlyMeans | internal/bbc/prober.go:419-431 | one supplier that is no live channel's makes a programme an on-demand one, none do when all are |
| Prober.AskMasters | internal/bbc/prober.go:476-515 | the loop returns the specified first answer |
| Prober.FirstAnswerMeans | internal/bbc/prober.go:476-515 | the failover answers a value if and only if some master asked before the deadline does and every one before it fails |
| Prober.CheckFHD | internal/bbc/prober.go:351-374 | the heights after the FHD check, and whether it could not be answered |
| Prober.Probe | internal/bbc/prober.go:302-417 | what a probe reports: not yet published, no answer, or heights with their cacheability |
| Prober.CacheableIsSettled | internal/bbc/prober.go:376-397 | an answer is cacheable if and only if the version is a full one, some supplier is on demand and the FHD check that applied was answered |
| Prober.Cached1080 | internal/bbc/prober.go:342-362 | a reported 1080 is cached if and only if the master has it, lists it, or lists no height |
| Prober.OutcomeOrder | internal/bbc/prober.go:351-374 | the reported heights are descending if and only if no hidden 1080 was put before a taller height |
| Prober.SmallProgrammesAreNotChecked | internal/bbc/prober.go:325-351 | with nothing at 720 or above, or no HLS stream with a bitrate, the heights are the listed ones whatever a check would answer |
| Prober.LargeProgrammesAreChecked | internal/bbc/prober.go:351 | with both, the check is made |
| Prober.VerifiedHeights | internal/bbc/prober.go:352-362 | exactly which heights an answered check of a reported 1080 advertises |
| Prober.HiddenHeights | internal/bbc/prober.go:363-373 | and an answered search for a hidden one |
| QualityCache.QualityProber.ProbeOne | internal/bbc/prober.go:280-417 | only a row the programme's own probe wrote answers; otherwise it is probed, and exactly a cacheable answer replaces the row |
| QualityCache.QualityProber.PropagateToSiblings | internal/bbc/prober.go:257-278 | every sibling without an own row gets the heights, marked; nothing else changes |
| QualityCache.QualityProber.ProbeSiblings | internal/bbc/prober.go:235-254 | the first sibling with heights answers, each cacheable answer is cached for its own programme, and not-yet counts only if nobody has heights |
| QualityCache.QualityProber.ProbeShowGroup | internal/bbc/prober.go:201-255 | any cached member answers for the show, else the first with heights; an uncacheable leader leaves the cache as it was |
| QualityCache.EveryRowTraceable | internal/bbc/prober.go:147-278 | under every interleaving of both readers' store accesses, each row and each answer in flight is backed by a cacheable probe |
| QualityCache.EvidenceIsProbed | internal/bbc/prober.go:389-407 | that evidence is what cacheable probes of the run answered |
| QualityCache.RowsComeFromProbes | internal/bbc/prober.go:160-163 | a row that may answer for its programme exists only because that programme was probed, cacheably, with those heights; no row holds heights no cacheable probe gave |
| QualityCache.OwnRowStep | internal/bbc/prober.go:257-294 | a programme has its own row after a step if and only if the step stores its answer, or it had one and the step neither writes a spread row over it nor clears it |
| QualityCache.OwnRowLostIff | internal/bbc/prober.go:262-277 | a spread write takes an own row away if and only if, since that task's check, the programme's own answer was stored and has stood |
| QualityCache.OwnRowsLostIffStoredUnderCheck | internal/bbc/prober.go:257-278 | in a run that clears no row of a programme, its own row is lost if and only if its answer is stored between some task's check of it and that task's write |
| QualityCache.SpreadCanReplaceOwnRow | internal/bbc/prober.go:262-277 | the failing case: a feed probe of a 540 programme checks its sibling, the sibling's own probe stores, and the feed writes over it |
| Variants.SelectVariantByHeight | internal/download/ffmpeg.go:461-500 | the one pass finds the first best variant: exact height, else the largest below, else the smallest above, then bandwidth |
| Variants.BestVariantIsUnique | internal/download/ffmpeg.go:461-465 | that description leaves one variant |
| Variants.BestVariantMeans | internal/download/ffmpeg.go:461-465 | the best has the target's height if any does, else the greatest below it, else the least above, with the most bandwidth of its height, first |
| Variants.FitIsTotalPreorder | internal/download/ffmpeg.go:461-465 | the fit compares any two variants, consistently |
| Variants.ScanClamping | internal/download/ffmpeg.go:369-393 | the download's scan takes the URL after the first line of the highest bandwidth, an overflow reading as the largest int |
| Variants.ScanSkipping | internal/bbc/fhdprobe.go:204-226 | the probe's scan takes the same, an overflowing line counting for nothing |
| Variants.ScansAgree | internal/bbc/fhdprobe.go:199-226 | the two choose the same line of every playlist if and only if no number overflows before a line advertises the largest int |
| Variants.ScansAgreeWhenNumbersFit | internal/bbc/fhdprobe.go:199-226 | so they agree on the URL wherever every number fits an int |
| Variants.ScansCanDisagree | internal/bbc/fhdprobe.go:218-225 | the failing case: of bandwidths 1 and 9223372036854775808 the download takes the second, the probe the first |

## Left out

- HTTP handlers, routing, authentication, the dashboard, SSE, RSS and NZB text, GUIDs, migrations and JSON or Bolt encoding: no decision modelled here depends on them.
- ffmpeg, subtitles, the watchdog, file moves and clean-up: the outcome of an attempt is an input.
- Bolt and JSON errors: a store call succeeds, or refuses for the reasons modelled.
- The cancelled set and the wait inside `CancelDownload`: a cancel is the removal of the row.
- `matchOneOff`, `numberOneOffs`, year and country suffixes and the name filter: whether a name matches is an input of the filter.
- The startup reset of retry counts, which is not part of a run of failures.
- Fields no decision reads (channel, thumbnail, size, progress, the show name and time of a cache row).
- `(?i)` in the marker patterns folds ASCII letters only, so the long s and the Kelvin sign are not folded, and numbers with more digits than an int holds are not read as `Atoi` and `Sscanf` would.
- SearchFilter.SearchAgreesWithTitle: assumes that names, subtitles, air date and quality carry no SxxExx marker of their own; without that a title can be read as anything its subtitle says.
- Browse.NumberBrowse: takes the stored mappings as distinct, as their bucket is keyed by TheTVDB id.
- Downloads.FailuresEnd: a download that never failed before; the backoff of a count is an unbounded integer.
- Throttle.AdaptiveThrottle.Backoff: durations do not overflow an int64, so a maximum beyond half its range is not modelled.
- ThrottleRuns.EveryStateSound: each method is one atomic step under a clock that does not go back.
- Streams.RefusalsRuleOutSuppliers: over one fixed list of streams whose nearest suppliers are named, with no earlier refusal or CDN failure.
- Queue.SortingSorts: sort.Slice is modelled by its result.
- Store.Store.MoveDownload: rows are values, not pointers, and the array the appends work on is copied from the sorted rows.
- Manager.OneRowPerPair: with each call one atomic step, fresh ids, and failures and completions of rows the queue holds; `Manager.OneRowPerPairIff` states what writes of other rows do.
- Matching.BeyondRunMeans: as `Doubts.ContradictsMeans`, for lists dated after 1 January of the year 1, Go's zero time; `TVDB.NewTVDBIndex` states the run of any list.
- ClaimRuns.RevivalIsStale: takes every row of the queue as stored under its own id, as `PutDownload` stores it.
- Prober.Probe: the deadline is how many masters may fail before it has passed.
- QualityCache.QualityProber.ProbeShowGroup: an empty list of heights is Go's nil, so a cacheable empty answer counts as no heights.
- The bounded parallelism of the two prefetches and the merging of their results; every interleaving of store accesses is allowed instead.
- The reading of a variant's height, and the choice of a hidden 1080p variant over the one selected.
