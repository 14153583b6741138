# Legislative video pipeline, modelled in Dafny

The system collects committee-hearing videos from two legislative archives,
the Michigan House video archive and the Michigan Senate's Castus-hosted
archive. It runs in four stages:

- **Discovery.** The House scraper walks the archive's year pages and turns
  each `.mp4` link into a video. The Senate scraper reads the listing API and
  resolves each stream.
- **Registration.** Each video found is registered in a SQLite table of
  video records, keyed by its id and source.
- **Download.** A background worker downloads each video. Stream and player
  URLs go to yt-dlp; direct files are fetched with a streamed GET that is
  retried and checked for HTML and for payloads that are too small.
- **Audio and transcription.** The worker extracts the audio and hands it to
  a speech-to-text provider. A sweeper requeues failed transcriptions and
  downloads.

A separate script resets records whose downloaded file is missing or too
small.

The model keeps each file's own form:

- Pure code becomes datatypes and functions with named results and
  lemmas. This covers the status and metadata models, the configuration
  lookup, the date parser, and the scrapers' parsing and filtering.
- Code that changes state becomes classes:
  - `Database.DatabaseManager` holds the table as a sequence of rows and
    the transcripts.
  - `Files.Disk` maps each path to its size in bytes.
  - `Dispatch.Broker` keeps the sequence of task messages sent.
  - The services are classes whose methods are proved against specification
    functions.
- Loops become `while`/`for` loops with invariants. Examples are the
  registration loop, the transcript search, the configuration walk, the
  browser's source scan, the yt-dlp output search, the requeue sweeper's two
  passes and the reset script.

Everything outside the program is a function-typed parameter (an oracle):

- the clock;
- environment variables;
- HTTP responses per URL and attempt;
- the House and Senate endpoints;
- yt-dlp and the files it writes;
- ffmpeg audio extraction;
- the headless browser;
- the transcription provider;
- `uuid4`;
- the general date parser behind `dateutil` and `fromisoformat`.

Design decisions:

- **Keys.** The table's primary key is the video id alone, but every lookup
  and update matches id and source together, as the code does. Registering
  an id that already belongs to another source raises, because the insert
  hits the primary key (`Tasks.Clashes`).
- **Audio status.** `AudioStatus` is imported by the worker
  (`src/workers/tasks.py:15`) and by the models package itself
  (`src/models/__init__.py:4`), but the status module does not define it.
  As written, importing the models package therefore raises `ImportError`.
  Every service, both scrapers, the downloader and the worker import that
  package, so none of them loads and no path of the pipeline runs. The
  model defines `AudioStatus` from the values the worker and the table use
  (pending, extracting, extracted, failed) and models the program as it
  would run once the enum exists.
- **The worker's in-progress write.** The download worker marks the row in
  progress before calling the download service. As a result, the service's
  already-downloaded shortcut can never be taken from the worker
  (`Tasks.RunDownload`), though it is still modelled for direct callers.
- **Writing the download status.** `StateService.mark_video_processed` and
  the reset script call a store method that does not exist (see Findings).
  The rest of the model uses the write that was evidently intended:
  `update_video_status` with the download status and the path. That method
  ignores arguments that are `None`, so the reset script's `None` path
  leaves the stored path in place.

## Model

| member | source | states |
|---|---|---|
| Status.DownloadStatus.Value | src/models/processing_status.py:6-11 | every download status has one of the four values pending, downloaded, failed, in_progress |
| Status.ParseDownloadStatus | src/models/processing_status.py:6-11 | a string names a download status exactly when it is one of the four values, and it names the status with that value |
| Status.TranscriptionStatus.Value | src/models/processing_status.py:14-19 | every transcription status has one of the four values pending, completed, failed, in_progress |
| Status.ParseTranscriptionStatus | src/models/processing_status.py:14-19 | a string names a transcription status exactly when it is one of the four values, and it names the status with that value |
| Status.AudioStatus.Value | src/workers/tasks.py:130-140 | every audio status is one of pending, extracting, extracted, failed: the values the worker writes and the store default |
| Status.ParseAudioStatus | src/workers/tasks.py:127-137 | a string names an audio status exactly when it is one of those four values |
| Status.ValuesIdentifyMembers | src/models/processing_status.py:6-19 | distinct members have distinct string values, so comparing a status with its literal string is the same as comparing members; parsing a member's value gives the member back |
| Status.DefaultIsPending | src/models/processing_status.py:25-31 | a default processing status has download and transcription both pending |
| Metadata.Make | src/models/video_metadata.py:12-25 | the constructor keeps every given field, stream URL, committee and title default to absent, and a missing discovery time becomes the current time |
| Metadata.ToDict | src/models/video_metadata.py:35-47 | the dictionary has exactly the nine keys, the identifier under "id", and every field under its own key, absent values as null |
| Metadata.FromDict | src/models/video_metadata.py:49-62 | a missing "id" is an error; success needs the five required keys and reads the identifier back from "id"; a missing discovery time becomes the current time and a missing stream URL is absent |
| Metadata.RoundTrip | src/models/video_metadata.py:35-62 | reading back the dictionary form of any metadata reproduces it field for field |
| Config.Walk | src/utils/config.py:67-76 | the walk ends at the default, at its starting value, or at a value that is not null |
| Config.LookupTopLevel | src/utils/config.py:65-76 | a key without a dot gives the stored value whenever it is present and not null (falsy values included), and the default otherwise |
| Config.LookupNested | src/utils/config.py:65-76 | "a.b" gives entry b of section a when a is a dictionary holding a non-null b, and the default when a is missing, null or not a dictionary |
| Config.SetInSection | src/utils/config.py:35 | setdefault followed by an item write fails exactly when the section holds a non-dictionary; otherwise it sets the one key, creating the section if needed, and leaves every other section as it was |
| Config.Override | src/utils/config.py:34-43 | an unset or empty environment variable changes nothing |
| Config.Configuration.ApplyEnvOverrides | src/utils/config.py:31-43 | the configuration becomes the result of the three overrides in order (database path, log level, output directory), and the method reports whether one of them failed |
| Config.Configuration.Section | src/utils/config.py:45-63 | a named section is its stored value, or an empty dictionary when it is absent |
| Config.Configuration.Get | src/utils/config.py:65-76 | the loop returns the dotted lookup of the key, and never a null unless it is the default |
| Database.NewRecord | src/database/db_manager.py:26-35 | a new row has all three statuses pending, no paths, the discovery time now, and every given column as given |
| Database.IndexOfId | src/database/db_manager.py:18 | the position found holds the id and no earlier row does; no position means no row has the id |
| Database.Find | src/database/db_manager.py:133 | a row is found only when both id and source match; with unique ids, nothing found means no row has that pair |
| Database.Apply | src/database/db_manager.py:134-139 | each truthy argument replaces its column, every other column (and every column a falsy argument names) keeps its value |
| Database.ApplyKeepsPaths | src/database/db_manager.py:138-139 | an update can never clear a stored download path or audio path |
| Database.ApplyIdempotent | src/database/db_manager.py:134-139 | updating twice with the same arguments equals updating once; an update without truthy arguments changes nothing |
| Database.PatchRows | src/database/db_manager.py:131-140 | the table keeps its length; the row matching (id, source) is patched and every other row is unchanged; with no match the table is unchanged |
| Database.SetStreamUrl | src/database/db_manager.py:188-198 | only the stream URL of the matching row changes; with no match nothing changes; ids and sources stay put |
| Database.EmptyPatchChangesNothing | src/database/db_manager.py:190 | the update call that update_stream_url makes first, with only a None argument, leaves the table as it is |
| Database.PatchKeepsKeys | src/database/db_manager.py:131-140 | an update keeps ids unique and keeps the result of every lookup |
| Database.PatchedWhereStep | src/database/db_manager.py:131-140 | handling one more row in a sweep of updates patches it exactly when it satisfies the sweep's condition, and keeps ids unique |
| Database.FindRow | src/database/db_manager.py:18 | with unique ids, looking up a row's own (id, source) finds that row (also line 133) |
| Database.Select | src/database/db_manager.py:220-225 | a filter keeps exactly the rows that pass, never more rows than it was given, with no duplicates added |
| Database.InsertNewestFirst | src/database/db_manager.py:207 | inserting adds exactly the one row to the multiset of rows |
| Database.InsertKeepsOrder | src/database/db_manager.py:207 | inserting into a newest-first list keeps it newest first |
| Database.SortNewestFirst | src/database/db_manager.py:207 | the sorted list is a permutation of its input and is ordered newest first |
| Database.AllVideos | src/database/db_manager.py:200-209 | the result is ordered by recording date, newest first, and holds exactly the rows recorded on or after the cutoff (all rows when there is none), each as often as in the table |
| Database.UnprocessedVideos | src/database/db_manager.py:211-225 | the result holds exactly the rows with the requested download status, recorded on or after the cutoff, and from the lower-cased source when one is given |
| Database.HitOf | src/database/db_manager.py:234-247 | a transcript gives a hit exactly when its video exists and its lower-cased text matches the LIKE pattern `%query%` lower-cased; the hit carries the transcript's text, provider and video id |
| Database.LikeAll | src/database/db_manager.py:236 | the pattern `%` matches every text |
| Database.LikeLiteralPrefix | src/database/db_manager.py:236 | a pattern without wildcards followed by `%` matches exactly the texts that start with it |
| Database.LikeLeadingPercent | src/database/db_manager.py:236 | a pattern `%r` matches exactly when `r` matches some suffix of the text |
| Database.LiteralQueryMeansContains | src/database/db_manager.py:236 | a query without `%` or `_` finds exactly the transcripts that contain it, ignoring case |
| Database.UnderscoreIsWildcard | src/database/db_manager.py:236 | `_` in a query stands for any one character: "a_b" finds "AXB" |
| Database.Hits | src/database/db_manager.py:234-248 | there are never more hits than transcripts |
| Database.HitsExact | src/database/db_manager.py:229-248 | every hit comes from a matching transcript, and every matching transcript whose video exists gives its hit |
| Database.Count | src/database/db_manager.py:256-262 | a count never exceeds the number of rows |
| Database.GetStats | src/database/db_manager.py:252-269 | total is the number of rows, and each of the other counters is at most the total |
| Database.FailedCountedOnce | src/database/db_manager.py:259-262 | "failed" counts each row once: it equals the failed downloads plus the failed transcriptions minus the rows where both failed |
| Database.LastDownloadedDate | src/database/db_manager.py:273-286 | the result is absent exactly when no downloaded row of the lower-cased source exists; otherwise it is the recording date of such a row and no such row is recorded later |
| Database.DatabaseManager.constructor | src/database/db_manager.py:63-79 | the store starts with both tables empty |
| Database.DatabaseManager.CreateVideoRecord | src/database/db_manager.py:85-118 | an id already present fails and leaves the tables unchanged, whatever the source; otherwise exactly the new pending row is appended |
| Database.DatabaseManager.UpdateVideoStatus | src/database/db_manager.py:120-142 | the table becomes the patched table, transcripts unchanged, primary keys kept |
| Database.DatabaseManager.UpdateStreamUrl | src/database/db_manager.py:188-198 | the table becomes the one with only that row's stream URL set |
| Database.DatabaseManager.AddTranscript | src/database/db_manager.py:144-170 | a fresh identifier appends exactly the new transcript and never replaces one; the video table is unchanged; a reused identifier fails with nothing changed |
| Database.DatabaseManager.GetVideoRecord | src/database/db_manager.py:172-178 | a record is returned exactly when a row matches both id and source, and it is that row |
| Database.DatabaseManager.VideoExists | src/database/db_manager.py:180-186 | true exactly when get_video_record finds a row |
| Database.DatabaseManager.SearchTranscripts | src/database/db_manager.py:229-250 | the loop builds exactly the list of hits, one per matching transcript, in order |
| State.DiscoverRows | src/services/state_service.py:34-45 | registration never removes or changes an existing row: the old table is a prefix of the new one |
| State.IndexOfIdAppend | src/database/db_manager.py:18 | a row appended with a new id is the one found by that id (also line 110) |
| State.DiscoverRegisters | src/services/state_service.py:34-45 | when the id is new, the video is found afterwards under (id, source) in a row pending in every stage, discovered now, with no stream URL even if the metadata has one; when the id is taken, the table is unchanged |
| State.DiscoverIdempotent | src/services/state_service.py:34-45 | registering a video a second time, at any time, changes nothing |
| State.MarkVideoProcessedAsWritten | src/services/state_service.py:54-61 | the call as written fails exactly because the store has no update_download_status method, and would otherwise write the intended patch |
| State.MarkVideoProcessedAlwaysRaises | src/services/state_service.py:56 | every call of mark_video_processed as written raises and writes nothing |
| State.MarkProcessedTouchesOnlyDownload | src/services/state_service.py:54-61 | the corrected call changes only the matching row's download status to the status value, and its download path only when a non-empty path is given |
| State.FromRecord | src/services/state_service.py:77-86 | a stored row becomes metadata with the row's id, source, file name, URL, recording date, committee, title and discovery time, and without a stream URL |
| State.FromRecords | src/services/state_service.py:75-89 | the loop converts every record, one metadata per record, in order |
| State.StateService.GetDownloadPath | src/services/state_service.py:18-24 | a path is returned exactly when the matching row exists with a non-empty download path, whatever its status, and it is that path |
| State.StateService.IsVideoProcessed | src/services/state_service.py:26-32 | true exactly when the matching row exists and its download status is the value of DownloadStatus.DOWNLOADED |
| State.StateService.MarkVideoDiscovered | src/services/state_service.py:34-45 | the table becomes the registration result; a row is inserted exactly when the id is new; an id held by another source surfaces the store's duplicate-key error |
| State.StateService.MarkVideoProcessed | src/services/state_service.py:47-61 | the corrected call patches the matching row with the download status and the optional path |
| State.StateService.GetUnprocessedVideos | src/services/state_service.py:63-89 | one metadata per pending row the store selects, in store order, each built from a pending row on or after the cutoff |
| State.StateService.GetAllVideos | src/services/state_service.py:91-112 | one metadata per row the store lists, in its order, so newest recording first |
| State.StateService.constructor | src/services/state_service.py:14-16 | the service works on the store it is given |
| DateParser.ParseDate | src/utils/date_parser.py:9-17 | an empty string gives the default, an unparseable one gives the default, anything else gives the general parser's result |
| DateParser.SkipSpaces | src/utils/date_parser.py:35 | `\s*` consumes exactly the run of whitespace that follows |
| DateParser.SkipDigits | src/utils/date_parser.py:35 | `\d+` consumes exactly the run of digits that follows |
| DateParser.PartMatchAt | src/utils/date_parser.py:35 | a match of the "- Part N" pattern is never empty and stays inside the text |
| DateParser.StripPartsFrom | src/utils/date_parser.py:35 | the substitution never makes the text longer |
| DateParser.CopyUntil | src/utils/date_parser.py:35 | text where no match starts is copied unchanged |
| DateParser.NoDashUnchanged | src/utils/date_parser.py:35 | text without a dash is left as it is |
| DateParser.PartSuffixRemoved | src/utils/date_parser.py:35 | a trailing " - Part N" is removed, and nothing else |
| DateParser.SuffixMatches | src/utils/date_parser.py:35 | at the start of " - Part N" the pattern matches through the last digit |
| DateParser.ParseHouseDate | src/utils/date_parser.py:20-45 | an empty string gives no date; anything else gives the parser's result on the stripped text without "- Part N" parts and without what precedes the first comma |
| DateParser.HouseDateDropsWeekdayAndPart | src/utils/date_parser.py:22-41 | "Weekday, Month D, YYYY - Part N" reaches the parser as "Month D, YYYY" |
| DateParser.HouseDateDropsWeekday | src/utils/date_parser.py:22-41 | "Weekday, Month D, YYYY" reaches the parser as "Month D, YYYY" |
| DateParser.FindTriple | src/utils/date_parser.py:59-60 | the search finds the leftmost DD-DD-DD, and none is found only when none occurs |
| DateParser.FindTripleFirst | src/utils/date_parser.py:60 | a match with no match before it is the one the search finds |
| DateParser.ParseSenateDate | src/utils/date_parser.py:48-72 | an empty string gives no date; the first YY-MM-DD gives midnight of 2000+YY, MM, DD, and no date (not the fallback) when that is not a calendar date; without a match the general parser decides with no default |
| DateParser.SenateShortYear | src/utils/date_parser.py:50-67 | a label ending in YY-MM-DD, after text with no digits, is read as that day of year 20YY |
| DateParser.TwoDigits | src/utils/date_parser.py:63-66 | the two-digit rendering of a number reads back as that number |
| DateParser.ParseYmd | src/workers/tasks.py:35-36 | a ten-character text parses exactly when it reads YYYY-MM-DD (the day two digits, or a space and a non-zero digit, as the `%d` field accepts) and spells an existing day of a year from 1; the result is midnight of that year, month and day (also lines 48-49) |
| DateParser.ParseFormattedYmd | src/workers/tasks.py:35-36 | every day of the years 1 to 9999 written as YYYY-MM-DD parses back to its own midnight |
| DateParser.SpacePaddedDay | src/workers/tasks.py:35-36 | a day written as a space and a digit parses like the same day written with a leading zero |
| House.CommitteeName | src/scrapers/house_scraper.py:139-140 | the committee name holds no vertical bar, has no surrounding whitespace, and is taken from the text before the first bar |
| House.FirstParam | src/scrapers/house_scraper.py:184 | the search finds the leftmost "video=" followed by a character other than "&", and none is found only when none occurs |
| House.VideoParam | src/scrapers/house_scraper.py:184-188 | the captured file name is non-empty and holds no "&"; nothing is captured exactly when the pattern matches nowhere |
| House.UrlJoin | src/scrapers/house_scraper.py:203 | `urljoin` against https://house.mi.gov: an absolute http or https link is kept as it is; a reference without scheme or network location lands on https://house.mi.gov |
| House.Scheme | src/scrapers/house_scraper.py:203 | a scheme is found only before a ':' and is never empty |
| House.WebSchemes | src/scrapers/house_scraper.py:203 | "https://…" has the scheme https and "http://…" the scheme http, which is not https after lower-casing |
| House.RemoveDots | src/scrapers/house_scraper.py:203 | the resolved path holds no "." or ".." segment, is no longer than its input, and equals its input when there were none |
| House.ResolvePath | src/scrapers/house_scraper.py:203 | the resolved path of a non-empty path starts with '/' |
| House.Segments | src/scrapers/house_scraper.py:203 | an absolute path is walked as its own '/'-separated segments |
| House.JoinRelative | src/scrapers/house_scraper.py:203 | a relative reference joins to a URL starting with https://house.mi.gov |
| House.QueryAndFragment | src/scrapers/house_scraper.py:203 | nothing follows the path exactly when the query and the fragment are both empty |
| House.RelativeJoined | src/scrapers/house_scraper.py:203 | a reference with a path and no scheme or network location gives the base, the resolved path, then its query and fragment |
| House.RootRelativeKept | src/scrapers/house_scraper.py:203 | a root-relative link without dot segments, query or fragment is appended to https://house.mi.gov unchanged |
| House.DotSlashDropped | src/scrapers/house_scraper.py:203 | "./Page?q" joins to https://house.mi.gov/Page?q, the "./" resolved away |
| House.ParentAboveRootDropped | src/scrapers/house_scraper.py:203 | "../Page" joins to https://house.mi.gov/Page: a ".." above the root removes nothing |
| House.ResolveDotted | src/scrapers/house_scraper.py:203 | "./name" and "../name" resolve to the path "/name" |
| House.ParseVideoLink | src/scrapers/house_scraper.py:173-217 | no video exactly when there is no file name, no parseable date, or a date before the cutoff; otherwise a house video named by the file, whose id drops ".mp4", whose title is committee + " - " + link text, with no stream URL, recorded not before the cutoff |
| House.VideoIdIsStem | src/scrapers/house_scraper.py:188-189 | a link to "<stem>.mp4" gives the id "<stem>" |
| House.NextVideo | src/scrapers/house_scraper.py:150-161 | a link contributes only a house video inside the date window |
| House.ParseLinks | src/scrapers/house_scraper.py:145-166 | the links of a section only append to the videos gathered so far, and each appended video lies in the window |
| House.ParseLinksBounded | src/scrapers/house_scraper.py:165-166 | below a positive limit, one section never takes the running total past the limit |
| House.ParseItems | src/scrapers/house_scraper.py:133-171 | the sections only append, and each appended video lies in the window |
| House.ParseSection | src/scrapers/house_scraper.py:143-166 | the link loop with its limit break computes exactly the section's videos |
| House.ParseItem | src/scrapers/house_scraper.py:133-169 | a section without a title adds nothing and never stops the loop; a titled one adds its links' videos under the committee name, and the loop stops exactly when the running total reaches a positive limit |
| House.ParseArchiveHtml | src/scrapers/house_scraper.py:118-171 | the section loop, skipping sections without a title and stopping at the limit, computes exactly the page's videos |
| House.YearsToFetch | src/scrapers/house_scraper.py:50-53 | the years run upwards from the start's year to the end's year (the current year without an end), inclusive |
| House.FetchYears | src/scrapers/house_scraper.py:60-71 | each page fetched only appends, and each appended video lies in the window |
| House.WithinWindow | src/scrapers/house_scraper.py:74-83 | the final filter keeps exactly the videos inside the inclusive window, in order |
| House.SliceTo | src/scrapers/house_scraper.py:86-87 | Python slicing to n: the first n elements, or all but the last -n for a negative n |
| House.HouseFilter | src/scrapers/house_scraper.py:39-46 | range mode exactly when both start and end are given, otherwise from the cutoff with no end |
| House.DiscoverVideos | src/scrapers/house_scraper.py:30-94 | the year loop with its limit break gathers exactly the videos of the fetched pages, and the result is those filtered and truncated |
| House.DiscoverWithinWindow | src/scrapers/house_scraper.py:74-87 | every discovered video is a gathered house video inside the window, and there are at most limit of them when the limit is positive |
| House.Query | src/scrapers/house_scraper.py:229 | the query of a URL never includes the fragment |
| House.FirstValue | src/scrapers/house_scraper.py:229-230 | nothing exactly when no pair is kept with the decoded name asked for; otherwise the decoded, non-empty value of the first such pair |
| House.Unquote | src/scrapers/house_scraper.py:229 | percent-decoding keeps empty text empty and non-empty text non-empty |
| House.UnquotePlain | src/scrapers/house_scraper.py:229 | text without '%' decodes to itself |
| House.UnquotePlainPrefix | src/scrapers/house_scraper.py:229 | text without '%' in front of the rest is copied unchanged |
| House.UnquoteQuote | src/scrapers/house_scraper.py:229 | decoding undoes "%XX" escaping of every character below 256 |
| House.DecodeComponent | src/scrapers/house_scraper.py:229 | decoding '+' and escapes keeps empty text empty and non-empty text non-empty |
| House.DecodePlain | src/scrapers/house_scraper.py:229 | a name or value without '%' and '+' is its own decoding |
| House.EscapedSpaceDecoded | src/scrapers/house_scraper.py:229 | an escaped space "%20" between plain texts decodes to a space, e.g. "a%20b.mp4" gives "a b.mp4" |
| House.ResolveStreamUrl | src/scrapers/house_scraper.py:219-285 | nothing without a video parameter; otherwise nothing only when a 200 reply has a non-video type and a malformed length (the int() raises), and else the archive URL built from the parameter or a redirect target verified as video |
| House.QueryOfPlayerUrl | src/scrapers/house_scraper.py:229 | the query of "<page>?video=<file>" is "video=<file>" |
| House.VideoOfSinglePair | src/scrapers/house_scraper.py:230 | the pair "video=<file>" gives the decoded file name |
| House.PlayerUrlResolves | src/scrapers/house_scraper.py:276-281 | a player URL resolves to the archive file of the decoded file name even when verification fails |
| Senate.Get | src/scrapers/senate_scraper.py:159-171 | a lookup gives the stored value for a key of an object and nothing otherwise |
| Senate.Or | src/scrapers/senate_scraper.py:159 | Python's `or`: the first operand when it is true, so the result is true exactly when either operand is (also lines 166-168) |
| Senate.FirstListKey | src/scrapers/senate_scraper.py:141-143 | the key found is the first of the candidate keys whose value is a list, and none is found only when no candidate holds a list |
| Senate.ExtractVideoList | src/scrapers/senate_scraper.py:132-147 | a list is returned as it is; for an object, the list under the first of allFiles, items, videos, results, data that holds one, else empty; any other value gives an empty list |
| Senate.AllFilesFirst | src/scrapers/senate_scraper.py:134-143 | a list under "allFiles" wins over every other key |
| Senate.ApiStreamUrl | src/scrapers/senate_scraper.py:286-292 | the API gives a URL exactly when a 200 reply holds a non-empty text at `response.payload.data`, and then the URL is that text cut at its first '?' |
| Senate.ConstructCloudfrontUrl | src/scrapers/senate_scraper.py:268-298 | always a URL: the one the API gives (its text before the first '?') when there is one, else ".../outputs/{id}/Default/HLS/out.m3u8" |
| Senate.ResolveStreamUrl | src/scrapers/senate_scraper.py:264-266 | never absent: always the constructed CloudFront URL of the video's id |
| Senate.ParseVideoData | src/scrapers/senate_scraper.py:149-262 | nothing without an id (_id, else id) or a parseable date; otherwise a video exactly when the date lies in the inclusive range (range mode) or not before the cutoff, named by the id with filename id+".mp4", the player URL, the constructed stream URL, and the entry's title and committee |
| Senate.EntryTitle | src/scrapers/senate_scraper.py:165-168 | the title is metadata.title, else title, else name, the first true value winning, and "" when none is true |
| Senate.EntryCommittee | src/scrapers/senate_scraper.py:240-245 | the committee is the agenda's name, else its title, else the metadata's committee, else its playlist, the first true value winning; with none true there is no committee or a blank one |
| Senate.Parsed | src/scrapers/senate_scraper.py:105-120 | at most one video per entry, each a senate video inside the window |
| Senate.ParsedPrefix | src/scrapers/senate_scraper.py:105-123 | the videos of a shorter listing come first among those of a longer one, so breaking early keeps a prefix |
| Senate.StopAtLimit | src/scrapers/senate_scraper.py:119-123 | breaking as soon as the videos reach the limit leaves exactly the limited videos of the whole listing |
| Senate.AllUnderLimit | src/scrapers/senate_scraper.py:105-124 | a loop that never reaches the limit keeps every video of the listing |
| Senate.Cap | src/scrapers/senate_scraper.py:122 | a positive limit lets exactly that many through, and any non-zero limit at least one, because the check follows the append |
| Senate.Limited | src/scrapers/senate_scraper.py:119-123 | the limited list is a prefix of the videos, of length the cap, or all videos without a limit |
| Senate.DiscoverVideos | src/scrapers/senate_scraper.py:35-130 | a failed request gives an empty list; otherwise the loop with its limit break returns the first videos the listing gives, cut at the limit |
| Senate.ParseNext | src/scrapers/senate_scraper.py:105-123 | one turn of the loop over the listing: either it stops with the whole listing's videos cut at the limit, or it has the videos of one more entry and stays below a positive limit |
| Senate.DiscoverBounded | src/scrapers/senate_scraper.py:105-126 | every discovered video is a senate video in the window, there are at most limit of them for a positive limit, and they keep the API's order |
| Discovery.Pick | src/services/discovery_service.py:27-28 | the argument when it is non-empty, else the environment value when non-empty, else the fixed default |
| Discovery.Cutoff | src/services/discovery_service.py:63-64 | a given cutoff is kept; without one, a positive number of days gives a cutoff before now |
| Discovery.WithStream | src/services/discovery_service.py:92-94 | a video's stream URL is replaced only by a non-empty resolver result, and nothing else changes |
| Discovery.ResolveAll | src/services/discovery_service.py:89-94 | one video per input, each resolved in its place |
| Discovery.ResolveKeepsIdentity | src/services/discovery_service.py:89-94 | resolution changes no field but the stream URL, and that one only to a non-empty resolver result |
| Discovery.CountSource | src/services/discovery_service.py:97 | a per-source count never exceeds the list length (also line 127) |
| Discovery.CountAppend | src/services/discovery_service.py:96 | counts add up over the concatenation of the two parts (also line 126) |
| Discovery.CountNone | src/services/discovery_service.py:97 | a part without videos of an archive counts none of them (also line 127) |
| Discovery.ConcatSound | src/services/discovery_service.py:68 | House videos extended by Senate videos are each a House or Senate video of the window, every House video comes before every Senate one, a positive limit bounds each archive's count, and an archive the filter excludes contributes none (also lines 96, 126, 133) |
| Discovery.ResolvedStayInWindow | src/services/discovery_service.py:89-94 | resolution moves no video out of its archive or out of the window (also lines 119-124) |
| Discovery.HousePartSound | src/services/discovery_service.py:72-100 | every House video lies in the window the mode selects (range, or from the cutoff), and a positive limit bounds them |
| Discovery.SenateFoundSound | src/services/discovery_service.py:106-117 | the Senate scraper keeps only senate videos of the window, at most limit of them |
| Discovery.SenatePartSound | src/services/discovery_service.py:102-130 | every Senate video lies in the window the mode selects, and a positive limit bounds them |
| Discovery.DiscoveredSound | src/services/discovery_service.py:33-133 | every discovered video is a House or Senate video inside the window; all House videos come before all Senate videos; each archive contributes at most limit videos; an archive the source filter does not name contributes none |
| Discovery.UnknownSourceFindsNothing | src/services/discovery_service.py:73 | a source filter naming neither archive finds nothing (also line 103) |
| Discovery.DiscoveryService.constructor | src/services/discovery_service.py:16-31 | each archive URL is the argument, else the environment variable, else the fixed default |
| Discovery.DiscoveryService.ResolveStreams | src/services/discovery_service.py:89-94 | the in-place loop computes exactly the resolved list (also lines 119-124) |
| Discovery.DiscoveryService.DiscoverHouse | src/services/discovery_service.py:72-100 | the House half gives nothing when the source filter excludes it, else the scraper's videos for the mode's window, resolved when asked |
| Discovery.DiscoveryService.DiscoverSenate | src/services/discovery_service.py:102-130 | the Senate half gives nothing when the source filter excludes it, else the scraper's videos for the mode's window, resolved when asked |
| Discovery.DiscoveryService.DiscoverVideos | src/services/discovery_service.py:33-133 | the result is the House part followed by the Senate part |
| Blob.FirstUsable | src/downloaders/blob_handler.py:88-93 | the first `<source>` URL that is non-empty and not a blob, with every earlier one unusable; none when no source is usable |
| Blob.BrowserPick | src/downloaders/blob_handler.py:66-105 | browser extraction never yields an empty URL, and yields a blob URL only through the video's own `src` attribute |
| Blob.BlobHandler.constructor | src/downloaders/blob_handler.py:14-23 | browser automation is as requested and no browser is held |
| Blob.BlobHandler.ExtractVideoUrl | src/downloaders/blob_handler.py:29-64 | player pages and blob URLs go to the browser when enabled; a player page without browser and any other non-blob URL come back unchanged; a blob URL without browser yields nothing |
| Blob.BlobHandler.ExtractWithBrowser | src/downloaders/blob_handler.py:66-105 | the element-by-element scan yields exactly the browser pick for the loaded page |
| Blob.BlobHandler.Cleanup | src/downloaders/blob_handler.py:107-114 | afterwards no browser is held |
| Downloader.LowerBytes | src/downloaders/video_downloader.py:229 | ASCII lower-casing keeps the length and maps every byte on its own |
| Downloader.HtmlTestOnRawBytesRedundant | src/downloaders/video_downloader.py:231 | the HTML test is exactly "`<!doctype` or `<html` in the lower-cased first kilobyte": the third test on the raw bytes never changes the verdict |
| Downloader.FirstNonEmpty | src/downloaders/video_downloader.py:184-190 | the first kilobyte is sniffed from a non-empty chunk that was received, and none is sniffed only when every chunk is empty |
| Downloader.Head | src/downloaders/video_downloader.py:190 | the sniffed head is a prefix of the chunk of at most 1024 bytes, non-empty when the chunk is |
| Downloader.HtmlPayloadDeleted | src/downloaders/video_downloader.py:228-238 | with an announced size, an HTML payload fails with the HTML error and its file is deleted |
| Downloader.UnknownSizeNotValidated | src/downloaders/video_downloader.py:176 | without an announced size nothing is sniffed: the payload is kept and reported as downloaded, whatever it holds (also lines 218-226, 249-254) |
| Downloader.BrokenStreamLeavesPartialFile | src/downloaders/video_downloader.py:175-192 | a stream that breaks mid-way fails and leaves the partial file behind (also lines 256-267) |
| Downloader.SuccessfulAttemptKeepsFile | src/downloaders/video_downloader.py:228-254 | a successful attempt leaves its payload at the output path with the reported size; with an announced size it passed the HTML and the 1000-byte checks |
| Downloader.DownloadWithProgress | src/downloaders/video_downloader.py:145-267 | the chunk-by-chunk write yields the attempt's verdict and leaves the files that verdict describes |
| Downloader.WriteChunks | src/downloaders/video_downloader.py:175-192 | the loop writes exactly the non-empty chunks, counts their bytes, and keeps the first one's first kilobyte only when the size was announced |
| Downloader.RetrySucceedsIff | src/downloaders/video_downloader.py:124-129 | the direct route succeeds if and only if some attempt up to the retry limit succeeds, and then returns the first successful attempt |
| Downloader.RetryFailureReportsLastError | src/downloaders/video_downloader.py:130-143 | when every attempt fails, the failure names the retry limit and carries the last attempt's error |
| Downloader.RetryBounded | src/downloaders/video_downloader.py:125 | no attempt beyond the retry limit is made |
| Downloader.RetryKeepsFile | src/downloaders/video_downloader.py:124-129 | a successful direct download leaves its file at the output path with the reported size |
| Downloader.UseYtdlpIff | src/downloaders/video_downloader.py:80-87 | yt-dlp is used exactly for URLs containing `.m3u8`, a player page or one of the legislatures' video hosts |
| Downloader.Referer | src/downloaders/video_downloader.py:279-287 | House URLs get the House referer and origin, Senate hosts the Castus ones, and any other URL its part before `/outputs` |
| Downloader.NoEarlierOccurrence | src/downloaders/video_downloader.py:286 | the part before the first `/outputs` does not contain `/outputs` |
| Downloader.SearchExtensions | src/downloaders/video_downloader.py:386-401 | the extension loop never reports the output path as already there, and moves a candidate only when it exists and is not the output path itself |
| Downloader.Locate | src/downloaders/video_downloader.py:375-401 | the output path is used when it exists; otherwise a different existing file is moved onto it, or nothing was found |
| Downloader.YtdlpOutcome | src/downloaders/video_downloader.py:269-417 | a yt-dlp success leaves the file at the output path with the reported size |
| Downloader.YtdlpSearchOrder | src/downloaders/video_downloader.py:306 | for an `.mp4` output the template is the path without extension; a file written there is preferred, then one with `.mkv` (also lines 375-394) |
| Downloader.DownloadWithYtdlp | src/downloaders/video_downloader.py:269-417 | the run and the search for its output yield the yt-dlp outcome and the files it describes |
| Downloader.Settle | src/downloaders/video_downloader.py:375-408 | success is reported exactly when a file was found; a success always leaves that file at the output path with the reported size, and only a move changes the files |
| Downloader.PlaceOutput | src/downloaders/video_downloader.py:375-401 | checking the exact path, then the extensionless path, then the extension loop gives the result and files that the search's finding prescribes |
| Downloader.MoveFirstExtension | src/downloaders/video_downloader.py:386-401 | the loop renames the first candidate the search picks onto the output path, and reports output-not-found when there is none |
| Downloader.FindCandidate | src/downloaders/video_downloader.py:388-394 | the loop over `.mp4`, `.mkv`, `.webm` picks the same candidate as the search: the first that exists and is not the output path |
| Downloader.MoveOnto | src/downloaders/video_downloader.py:383-384 | the rename reports a success whose size is the moved file's, and leaves exactly the files a move prescribes (also lines 391-392) |
| Downloader.SearchMkv | src/downloaders/video_downloader.py:388-394 | with neither the output nor the extensionless path present, a `.mkv` file next to them is the one moved |
| Downloader.DownloadOutcome | src/downloaders/video_downloader.py:43-143 | the result always names the video |
| Downloader.ExistingFileShortcut | src/downloaders/video_downloader.py:65-73 | an existing output file is reported as downloaded with its size, and neither the server nor yt-dlp is consulted |
| Downloader.SuccessLeavesFile | src/downloaders/video_downloader.py:43-143 | a successful download leaves its file at the output path with the reported size, whichever route it took |
| Downloader.VideoDownloader.constructor | src/downloaders/video_downloader.py:32-41 | the retry limit is as given, three by default |
| Downloader.VideoDownloader.Download | src/downloaders/video_downloader.py:43-143 | the download yields the outcome the model defines and leaves the files it describes |
| Downloader.VideoDownloader.GetDirectVideoUrl | src/downloaders/video_downloader.py:419-433 | every URL comes back unchanged |
| DownloadSvc.ResolveStreamUrl | src/services/download_service.py:134-152 | the House or Senate resolver is consulted by exact source name; any other source, and any resolver exception, give nothing |
| DownloadSvc.ChooseUrlPriorities | src/services/download_service.py:64-90 | a stored stream URL wins over everything; the resolver decides only without one; the blob handler is consulted only for an origin URL containing `blob:`, and only it can leave no URL |
| DownloadSvc.GenerateFilename | src/services/download_service.py:154-165 | the name ends in `.mp4`, holds no unsafe character, is the id (with `.mp4` added when missing) with each unsafe character replaced by `_` |
| DownloadSvc.FilenameIsOneComponent | src/services/download_service.py:93-94 | the file name has no `/`, so the output path names exactly that file inside the output directory |
| DownloadSvc.ServiceRowsTerminal | src/services/download_service.py:57-59 | after a download the video's row is downloaded with the file path, or failed; its stream URL changes only to a resolved one; no other column and no other row changes (also lines 72-78, 106-118) |
| DownloadSvc.ServiceRowsAt | src/services/download_service.py:57-59 | the found row is the only one replaced, by itself with the terminal download status and path and any resolved stream URL; lookups still find it (also lines 72-78, 106-118) |
| DownloadSvc.TerminalRecord | src/services/download_service.py:57-59 | the in-progress write, the stream URL write and the terminal write together change only the row's download status, download path and stream URL (also lines 78, 106-118) |
| DownloadSvc.DownloadService.constructor | src/services/download_service.py:17-32 | the downloader gets the retry limit and the blob handler the browser setting |
| DownloadSvc.DownloadService.DownloadVideo | src/services/download_service.py:34-132 | an already downloaded video whose file exists is reported with its stored path and nothing changes; otherwise the rows end as the status writes describe, a missing URL fails without touching the disk, and any other URL gives exactly the downloader's outcome for the output path |
| DownloadSvc.DownloadService.DownloadFresh | src/services/download_service.py:57-132 | past the shortcut, the rows end as the service's three writes describe for the URL it chose, and a failed choice is reported as failed |
| DownloadSvc.DownloadService.PickUrl | src/services/download_service.py:64-90 | the URL used is the one the priorities choose, and the stream URL is written to the row exactly when it was newly resolved |
| DownloadSvc.DownloadService.DownloadVideos | src/services/download_service.py:167-176 | the results and the final rows and files are those of `download_video` run on each video in turn, each call on what the previous left; the transcripts are untouched, rows of unlisted videos are unchanged, every key stays in place, and a listed video's row ends with the status of its last call's result |
| DownloadSvc.DownloadService.Step | src/services/download_service.py:34-132 | one call changes only the video's own row, keeps every key, and leaves that row with the status its result stands for ("downloaded" exactly when it succeeded) |
| DownloadSvc.DownloadService.Fetched | src/services/download_service.py:90-102 | the fetch reports the video's id; with no URL it fails (the exception handler at lines 122-131) and leaves the disk as it was |
| DownloadSvc.DownloadService.Run | src/services/download_service.py:167-176 | the calls in turn keep ids unique and every key in place, and result j names video j |
| DownloadSvc.DownloadService.RunKeepsOthers | src/services/download_service.py:167-176 | a row whose key no listed video has is left as it was |
| DownloadSvc.DownloadService.RunTerminal | src/services/download_service.py:167-176 | a listed video's row stays where it was and ends with the status of the result of the last call for its key |
| DownloadSvc.DownloadService.RunTerminalAll | src/services/download_service.py:167-176 | the same for every listed video at once |
| DownloadSvc.DownloadService.AlreadyDownloadedIn | src/services/download_service.py:46-53 | the shortcut test holds exactly when the row says downloaded and names a path that exists, and it reports that row's path |
| DownloadSvc.ServiceRowsFrame | src/services/download_service.py:57-59 | the status writes of one call change only that video's row, keep every key, and leave the row with the status its result stands for (also lines 106-118) |
| Tasks.EnvOr | src/workers/tasks.py:119 | the environment value when the variable is set, even to the empty string; the default only when unset (also line 162) |
| Tasks.ParseArgument | src/workers/tasks.py:32-41 | a ten-character date parses as YYYY-MM-DD (the end date moved to 23:59:59); other texts go through ISO parsing with `Z` read as `+00:00`; where the first parse fails the raw text is parsed once more (also lines 45-56) |
| Tasks.DayArguments | src/workers/tasks.py:35-36 | a day given as both start and end covers every valid instant of that day, from midnight to the last second (also lines 48-51) |
| Tasks.TaskWindow | src/workers/tasks.py:29-66 | with both date texts non-empty the window is the parsed range, and the task fails exactly when a text does not parse; otherwise it looks back `days or 2` days from now (also lines 73-81) |
| Tasks.DefaultLookback | src/workers/tasks.py:63 | with no range and no day count the cutoff is two days before now (also line 80) |
| Tasks.Register | src/workers/tasks.py:83-87 | the loop sends at most one message per video, and one per video when it finishes |
| Tasks.RegisterSends | src/workers/tasks.py:83-87 | the k-th message dispatches the k-th video's download |
| Tasks.RegisterAppends | src/workers/tasks.py:83-87 | registration only appends rows: every row present before is still there, unchanged and in place |
| Tasks.IndexOfIdAppendKeeps | src/database/db_manager.py:110 | appending a row with a new id leaves the position of every existing id unchanged |
| Tasks.DiscoverKeepsFinds | src/services/state_service.py:18-24 | registering a video keeps every row a lookup already found where it was |
| Tasks.RegisterFindsAll | src/workers/tasks.py:83-87 | when the loop finishes, every discovered video has a row under its own id and source, so every dispatched download finds its record |
| Tasks.RegisterKeepsFinds | src/workers/tasks.py:83-87 | the loop never moves or loses a row that lookups already find |
| Tasks.RegisterKnown | src/workers/tasks.py:83-87 | over a store that already holds every video, the loop changes no row and finishes |
| Tasks.RegisterIdempotent | src/workers/tasks.py:83-87 | running the loop again over the same videos, at any later time, changes no row and dispatches the same downloads |
| Tasks.DiscoverVideosTask | src/workers/tasks.py:19-89 | a bad date text raises before anything changes; otherwise the rows and messages are those of the registration loop over what discovery finds, and the count returned is the number of videos |
| Tasks.RunDiscovery | src/workers/tasks.py:69 | discovery runs with the service's defaults over the task's window (also lines 73-81) |
| Tasks.RegisterAll | src/workers/tasks.py:83-87 | the loop leaves the rows and the messages the registration function describes, and succeeds exactly when it finishes |
| Tasks.RegisterTurn | src/workers/tasks.py:83-87 | registering one more video either fails with the rows and messages registration describes up to it, or leaves what registering the remaining videos still has to add |
| Tasks.RegisterStep | src/workers/tasks.py:83-87 | before each video, a clash ends the registration with the rows and messages so far; anything else registers it and appends its download message |
| Tasks.PathText | src/workers/tasks.py:127 | a missing file path is spelled as the non-empty text `None` (also line 134) |
| Tasks.AudioPath | src/workers/tasks.py:134-135 | an audio path exists exactly when extraction produced a file, and is that file's path |
| Tasks.RecordDict | src/workers/tasks.py:107-116 | the dictionary holds every metadata column except the discovery time |
| Tasks.RecordMetadata | src/workers/tasks.py:106-116 | the metadata rebuilt from a row always parses, carries the row's columns, and takes its discovery time from the task's clock |
| Database.PatchAt | src/database/db_manager.py:131-140 | a status update of a row the lookup finds changes that row only, and the lookup still finds it |
| Tasks.DownloadVideoTask | src/workers/tasks.py:91-143 | without a record nothing changes; otherwise only the video's row changes, to the download result and, after a success, the audio outcome; a transcription is dispatched exactly when the audio was extracted |
| Tasks.RecordDownloaded | src/workers/tasks.py:125-140 | after a download the row holds downloaded with the path text, then extracted with the audio path and a transcription message, or audio failed |
| Tasks.RunDownload | src/workers/tasks.py:97-123 | the row ends with the service's terminal download status and path; only it and the stream URL change |
| Tasks.RunService | src/workers/tasks.py:118-123 | the service, over a row already marked in progress, never takes its shortcut and leaves the rows its writes describe |
| Tasks.DownloadRows | src/workers/tasks.py:122-123 | the task's in-progress write followed by the service's writes change only the task's row, and only its download status, path and stream URL |
| Tasks.DownloadedWrites | src/workers/tasks.py:127-140 | after a success the writes change only the row's download and audio columns: downloaded with the path, then extracted with the audio path or failed |
| Tasks.RecordAudio | src/workers/tasks.py:135-140 | the audio outcome is written and a transcription message is sent exactly when there is an audio path |
| Tasks.TranscriptPath | src/workers/tasks.py:174-178 | the transcript file is named after the video id with `.txt` |
| Tasks.TranscribeAudioTask | src/workers/tasks.py:145-196 | without a record or audio path nothing changes; otherwise the transcription status ends completed exactly when the provider gave text and the transcript was stored, else failed; a stored transcript is appended with the provider, text and file path |
| Tasks.TranscribeRow | src/workers/tasks.py:158-196 | the row's transcription status ends completed exactly when the provider gave text and the transcript was stored, else failed; the text is saved under the transcript path |
| Tasks.TranscriptionWrites | src/workers/tasks.py:158 | the in-progress write followed by either terminal write changes only the row's transcription status, to the terminal one (also lines 191, 196) |
| Tasks.RetryCall | src/workers/tasks.py:211-224 | a failed transcription is requeued exactly when its audio exists on disk; otherwise its download is restarted |
| Tasks.RetryCalls | src/workers/tasks.py:211-224 | one message per failed transcription, in order, each the retry for its row |
| Tasks.DownloadCalls | src/workers/tasks.py:228-231 | one download message per failed download, in order |
| Tasks.CountAudio | src/workers/tasks.py:215 | the requeued count never exceeds the number of failed transcriptions |
| Tasks.AfterTranscriptionPass | src/workers/tasks.py:211-224 | a failed transcription without audio on disk is reset to pending download and transcription; every other row is unchanged |
| Tasks.AfterDownloadPass | src/workers/tasks.py:226-232 | no row is left with a failed download: those are reset to pending, the rest unchanged |
| Tasks.SweepNeedsAudio | src/workers/tasks.py:212-214 | every transcription the sweep dispatches is for a row whose transcription failed and whose audio exists on disk |
| Tasks.RetryTranscriptions | src/workers/tasks.py:206-224 | the first pass patches exactly the failed rows without audio, sends one message per failed row, and its counts add up to the number of failed rows |
| Tasks.FirstPassTurn | src/workers/tasks.py:211-224 | one failed row more is handled by the first pass: requeued when its audio is on disk, otherwise reset and sent to download |
| Tasks.FirstPassStep | src/workers/tasks.py:211-224 | one turn of the first pass keeps its invariant: the rows patched so far, the messages so far, and the two counts adding up to the rows handled |
| Tasks.RetryDownloads | src/workers/tasks.py:226-232 | the second pass resets every failed download to pending and sends one download message each |
| Tasks.SecondPassStep | src/workers/tasks.py:226-232 | one turn of the second pass keeps its invariant: the failed downloads so far reset, one download message each |
| Tasks.RequeueFailedTasks | src/workers/tasks.py:198-235 | every row ends as both passes describe, the messages are those of the sweep in order, the requeued count is the number of failed transcriptions with audio on disk, and the two counts add up to the messages sent |
| Tasks.SweepRows | src/workers/tasks.py:206-232 | the second pass over the rows left by the first gives, row by row, both passes applied in turn |
| Tasks.MiddleAfterFirstPass | src/workers/tasks.py:211-224 | the store the first pass leaves is the first pass applied to every row |
| Tasks.RegisterOne | src/workers/tasks.py:83-87 | one turn registers the video as discovery does and sends its download message, unless the registration raises, in which case nothing changes |
| FixDownloads.Doomed | fix_invalid_downloads.py:26-32 | only files that exist and are below 10000 bytes are deleted |
| FixDownloads.CountQualifying | fix_invalid_downloads.py:15-38 | the reset count never exceeds the number of records |
| FixDownloads.ResetAsWritten | fix_invalid_downloads.py:16-38 | as written, the script finishes only when no record qualifies, and then resets none; any qualifying record makes it raise on the missing store method |
| FixDownloads.ResetAsWrittenRaises | fix_invalid_downloads.py:24 | the store has no `update_download_status`, so one failed record without a path already makes the script raise instead of counting it (also lines 28, 34-38) |
| FixDownloads.QualifiesAfterDeletes | fix_invalid_downloads.py:26-33 | deleting small files changes no record's verdict: a deleted file counts as missing, which qualifies as well |
| FixDownloads.DoomedSnoc | fix_invalid_downloads.py:16 | the files deleted for a listing grow one record at a time (also lines 26-32) |
| FixDownloads.ResetOne | fix_invalid_downloads.py:17-38 | a record is reset exactly when it qualifies; only its row changes, and its file is deleted exactly when it exists and is small |
| FixDownloads.ResetInvalidDownloads | fix_invalid_downloads.py:8-41 | the count is the number of qualifying records; exactly those rows go back to pending and every other row is unchanged; exactly the small files are deleted |
| FixDownloads.ResetListed | fix_invalid_downloads.py:16-38 | after the loop over the listing, the rows, the files and the count match the reset's description of every listed record, and the table stays keyed by id |
| FixDownloads.ResetNext | fix_invalid_downloads.py:17-38 | handling one more record of the listing keeps the rows, the files and the count described |
| FixDownloads.ProgressStep | fix_invalid_downloads.py:16-38 | each record handled keeps the rows, the files and the count in line with the reset's description of the records seen so far |
| FixDownloads.Finish | fix_invalid_downloads.py:11 | a loop over the full listing accounts for every row, every deleted file and the count (also lines 16-41) |
| FixDownloads.ResetOutcome | fix_invalid_downloads.py:18-38 | a reset record is the same record with status pending; a file of 10000 bytes or more survives; every deleted file was the small file of a record |
| Clock.ShiftBackEarlier | src/workers/tasks.py:80 | going back a positive number of days gives an earlier instant, and going back any number no later one |
| Clock.ShiftBackMonotone | src/services/discovery_service.py:64 | going back more days gives a cutoff no later |
| Clock.Trichotomy | src/scrapers/senate_scraper.py:194-226 | of two datetimes exactly one is earlier, or they are equal |
| Clock.StartOfDay | src/workers/tasks.py:35-36 | a bare date keeps its day and lies no later than any instant of that day |
| Clock.EndOfDay | src/workers/tasks.py:51 | moving to 23:59:59 keeps the day and lies no earlier than any instant of that day |
| Text.Lower | src/services/discovery_service.py:73 | lower-casing keeps the length and maps each character on its own (also line 103) |
| Text.SplitJoin | src/utils/config.py:67 | splitting on the separator loses nothing: joining the parts gives back the text |
| Text.RemoveTrailingExtension | src/scrapers/house_scraper.py:189 | dropping `.mp4` from a file name ending in `.mp4`, once, gives the name without it |
| Text.ReplaceChars | src/services/download_service.py:163 | each character of the set is replaced and every other one kept, so no character of the set remains |
| Files.WithSuffix | src/downloaders/video_downloader.py:306 | replacing the suffix fails exactly on an empty name, and the result ends in the new suffix (also lines 381, 389) |
| Files.Disk.Unlink | src/downloaders/video_downloader.py:233 | deleting removes exactly that path, and fails exactly when it was missing (also line 242) |
| Files.Disk.Rename | src/downloaders/video_downloader.py:383 | a rename moves the source's size onto the destination, replacing any file there, and fails without change when the source is missing (also line 391) |
| Dispatch.Broker.Send | src/workers/tasks.py:87 | a dispatch appends one message and changes none already sent (also lines 138, 214, 223, 231) |

## Left out

- Network, browser, media tools and providers. HTTP requests, HTML parsing with BeautifulSoup, the Senate listing and Castus APIs, playwright, yt-dlp with aria2c, ffmpeg audio extraction, and the speech-to-text providers are all oracles passed as parameters. What they do inside is not modelled.
- Clock, environment and randomness. `datetime.now`/`utcnow`, `os.getenv` and `uuid4` are parameters.
- General date parsing. `dateutil` and `fromisoformat` are a date oracle. Only the string pre-processing around them is modelled.
- Time zones. The Senate scraper's normalisation to UTC is not modelled: dates are naive date-times compared field by field.
- Task queues. Celery dispatch (`delay`, `apply_async`) is modelled as appending a (task, id, source) message to `Dispatch.Broker.sent`. Queues, workers and retries are not modelled, and neither is concurrency between workers, which the code does not coordinate.
- Database plumbing. SQLAlchemy sessions, engine setup, table creation and the `get_db_manager` singleton are left out. The store is one in-memory `DatabaseManager` that every task receives.
- Logging. The logger, the printed progress lines and the "agent log" regions that append to a hard-coded debug file are not modelled: they do not affect results.
- Progress display and sleeping. tqdm progress bars and the yt-dlp progress hook (float percentages) are display only. `time.sleep` is not modelled either.
- Retry backoff. The 2^attempt wait in the direct-download loop is not modelled: `_download_with_progress` catches every exception, so that branch cannot be reached.
- YAML loading. Reading and parsing the file, and the missing-file error, are left out. `Config.Configuration.constructor` takes the already loaded mapping.
- Paths. `pathlib` normalisation (for instance of "./data") is not modelled: paths are joined with "/" (`Files.JoinPath`).
- File contents. The model records only each file's size in bytes.
- Case folding and whitespace. Lower-casing, stripping and the regular-expression classes `\s` and `\d` are ASCII-only.
- Senate identifiers. Non-string JSON scalars used as Senate ids or dates (which Python would stringify, e.g. `str(True)`) are treated as absent.
- Discovery error handlers. The per-archive `except` handlers in `discover_videos` are not modelled. The modelled scrapers and resolvers already turn their own failures into an empty list or no URL, so each archive's part is computed on its own and the other archive's part is unaffected.
- Ignored settings. The downloader's `timeout` and `chunk_size` settings only tune transfers and are not modelled.
- Other programs and scripts are not part of this model: the Streamlit dashboard, the click CLI, the transcription service module, and the one-off debugging and URL-probing scripts.
- Tasks.DownloadVideoTask: the row's stream URL is only stated to be unchanged or replaced by a non-empty URL. Which resolver result ends up there is stated one level down, in `DownloadSvc.DownloadService.DownloadVideo`.
- Database.MatchesQuery: the search follows the default SQLite store, where the pattern `%query%` has no escape character and case is folded for ASCII letters only. On PostgreSQL (a `DATABASE_URL` naming one) a backslash in the query escapes the next character, and the model does not capture that.
- House.UrlJoin: an absolute link with a network location is returned as written (only the scheme is lower-cased), where `urlunparse` also drops an empty '?' or '#'. Leading spaces and embedded tabs or newlines, which `urlsplit` strips, and `;` parameters in the last path segment are not modelled.
- House.Unquote: an escape "%XX" gives the character with code XX, so a value at or above 0x80 becomes a Latin-1 character. Python's `unquote` decodes such bytes as UTF-8 and puts U+FFFD in place of an invalid sequence.
- Database.DatabaseManager.AddTranscript: the `raw_data` JSON column (the provider's segments) is not stored. The transcript keeps the text, the provider name, the file path and the creation time.

## Findings

| source | as written | input that shows it | evidently intended | confidence | as-written member | corrected member |
|---|---|---|---|---|---|---|
| src/services/state_service.py:56 | `mark_video_processed` calls `update_download_status`, which `DatabaseManager` does not define, so every call raises `AttributeError` and writes nothing | any call, e.g. the download service marking a video in progress | write the download status, and the path when one is given, with `update_video_status` | high, not executed | State.MarkVideoProcessedAlwaysRaises | State.StateService.MarkVideoProcessed |
| fix_invalid_downloads.py:24 | the reset script calls the same missing `update_download_status` for every qualifying record, so it raises on the first one and never resets anything. As written it fails even earlier: line 10 hands the bare file path `./data/database/videos.db` to `get_db_manager`, and `create_engine` (src/database/db_manager.py:73) rejects a text that is not a database URL, so the script raises before it lists any record; the model starts from an opened store | a single record with download status "failed" and no download path | put each qualifying record back to pending with `update_video_status`, delete its small file and count it | high, not executed | FixDownloads.ResetAsWrittenRaises | FixDownloads.ResetInvalidDownloads |
