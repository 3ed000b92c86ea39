# Football schedule scraper and live-data encryptor, modelled in Dafny

This project models the data-shaping core of two Python scripts.

`football_scraper.py`:
- reads the streamed.su match API (the streamed entries);
- parses the sportsonline.gl text programme (the sportsonline entries) and groups its rows into one entry per event;
- merges the two lists by team-name similarity;
- upserts the result into the previous snapshot, keyed by (home name, away name, date).

`comradicaloculiwersetyouts.py`:
- prunes its own log file of lines older than a cutoff;
- encrypts a JSON payload with a two-layer, position-keyed XOR stream, laid out as IV ‖ ciphertext ‖ HMAC tag.

The only snapshot key is the ordered tuple (team1 name, team2 name, date) built at `football_scraper.py:437`; the model uses it.

Modules, one per concern of the code:
- `PyStrings` (`strings.dfy`): the Python string built-ins the code relies on. These are `str.strip`, `split`, `replace`, `in`, `startswith`, `int()`, `upper`/`lower` and zero-padded printing.
- `Sequences` (`sequences.dfy`): list helpers. These are `dict.fromkeys` order de-duplication, filter, filter-map, flat-map and a stable sort.
- `Optional`: `Option`.
- `MatchData`: the match record, the placeholder-name validator, the shuffle abstraction and `normalize_team_name`.
- `ClockText`: `time_to_minutes` and `subtract_hour_from_time`.
- `Calendar`: `get_match_date_from_timestamp`, on a proleptic Gregorian calendar of its own.
- `Streamed`: `fetch_streamed_matches` after the HTTP calls.
- `Sportsonline`: `parse_sportsonline_data`.
- `SportsonlineGroups`: `group_sportsonline_matches`.
- `MatchMerge`: `merge_matches`.
- `ExistingMerge`: `merge_with_existing_data`.
- `LogCleanup`: the filter loop of `cleanup_old_logs`.
- `Encryptor`: `LiveDataEncryptor`, a class whose `config` field `FetchRemoteConfig` updates.

Each loop of the source is a method with invariants. Each method is proved equal to a specification function. The lemmas state the promised properties about those functions.

These inputs become parameters:
- the current weekday, hour and dates;
- the log cutoff;
- the similarity oracle and the shuffle;
- the HTTP answers;
- the IV and the clock readings;
- the JSON encoding.

## Model

| member | source | states |
|---|---|---|
| MatchData.IsValidTeamData | football_scraper.py:49-55 | true exactly when neither name is "Not Found", "Name Not Found", empty or whitespace only |
| MatchData.ShuffleKeepsElements | football_scraper.py:470 | a shuffled link list has the same links with the same multiplicities, hence the same length and members |
| MatchData.WomenFromW | football_scraper.py:390 | a clean name followed by " w" normalises to the lower-cased name followed by " women" |
| MatchData.WomenFromParenW | football_scraper.py:391 | a name followed by " (w)" normalises to the lower-cased name followed by " women" |
| MatchData.WomenFromWomen | football_scraper.py:394 | a name followed by " women" normalises to the lower-cased name followed by " women" |
| MatchData.WomenFromFemale | football_scraper.py:395 | a name followed by " female" normalises to the lower-cased name followed by " women" |
| ClockText.TimeToMinutes | football_scraper.py:214-222 | the result is in 0..1439, and 0 for text that does not read as an in-range H:M |
| ClockText.TimeToMinutesOfClock | football_scraper.py:214-220 | printed HH:MM text gives 60·HH + MM |
| ClockText.HourEarlier | football_scraper.py:207-208 | the hour before is a valid clock with the same minute and 60 minutes earlier, wrapping past midnight |
| ClockText.SubtractHourFromTime | football_scraper.py:199-212 | text that does not parse, or that has an out-of-range hour or minute, comes back unchanged |
| ClockText.SubtractHourIsOneHourEarlier | football_scraper.py:202-209 | a valid time comes back as text that reads as the hour before, same minute |
| ClockText.SubtractHourMinutes | football_scraper.py:202-209 | in minutes since midnight the result is 60 earlier, wrapping 00:MM to 23:MM |
| ClockText.SubtractHourIsPadded | football_scraper.py:209 | a valid time comes back zero-padded in the HH:MM form |
| ClockText.SubtractHourOutOfRange | football_scraper.py:204-205 | an hour above 23 or a minute above 59 leaves the text unchanged |
| ClockText.ClockStringParses | football_scraper.py:209 | what strftime("%H:%M") prints reads back as the same hour and minute |
| ClockText.PaddedPairParses | football_scraper.py:202 | two zero-padded numbers around a colon split and parse back as those numbers |
| Calendar.TimestampFields | football_scraper.py:57-68 | for a year in 1..9999, the printed date and time are those of the instant: milliseconds = day number·86400000 + hour·3600000 + minute·60000 + a remainder below one minute |
| Calendar.TimestampOutOfRange | football_scraper.py:69-71 | a year outside 1..9999 gives ("Not Found", "Not Found") |
| Calendar.DateOfDayNumber | football_scraper.py:61 | date to day number and back returns the date |
| Calendar.DayNumberOfDateOfDay | football_scraper.py:61 | day number to date and back returns the day number |
| Calendar.DateOfDayFromEpoch | football_scraper.py:61 | a day on or after the epoch falls in 1970 or later |
| Calendar.EpochDay | football_scraper.py:61 | day 0 is 1 January 1970 |
| Calendar.DateString | football_scraper.py:66 | DD-MM-YYYY is ten characters with dashes at positions 2 and 5 |
| Calendar.ClockOfSecond | football_scraper.py:65 | the hour and minute printed are those of the minute the second lies in |
| Streamed.FetchStreamedMatches | football_scraper.py:73-171 | the loop's output is the filter-map of the match list by the per-match entry, and empty when the request fails or the list is empty |
| Streamed.KeepEmbedLinks | football_scraper.py:149-152 | keeps, in order, exactly the embed URLs that are non-empty, contain no "admin" and start with http:// or https:// |
| Streamed.CollectStreamLinks | football_scraper.py:137-153 | concatenates, in source order, the kept links of every source with a name and id whose request answers |
| Streamed.UpdateTeam | football_scraper.py:108-124 | a side with a non-blank name gives its stripped name and its badge URL when it has a badge; anything else keeps the placeholder team |
| Streamed.TeamOfSpec | football_scraper.py:108-124 | a team name other than "Not Found" is the stripped name of a present side; a non-default logo is that side's badge URL; a missing side gives the placeholder team |
| Streamed.StreamLinksMember | football_scraper.py:137-152 | a URL is collected exactly when it passes the embed filter and some source lists it |
| Streamed.FetchedStreamsNeedNameAndId | football_scraper.py:139-148 | a source contributes streams only when it has both a name and an id and its request answered |
| Streamed.MatchTimesFound | football_scraper.py:98-105 | time and date are not "Not Found" exactly when the timestamp is present, positive and has a year of at most 9999 |
| Streamed.StreamedEntryKept | football_scraper.py:86-158 | a match yields an entry exactly when it is football, both names are valid, the timestamp is positive and printable, and some link is collected |
| Streamed.StreamedEntryFields | football_scraper.py:160-167 | an entry carries the API title (or "Title Not Found"), both stripped team names, the printed time and date, and every collected link |
| Streamed.StreamedOutputSound | football_scraper.py:86-168 | every output entry comes from a football match of the list and has valid names, a printed time and date, and only embed links, at least one |
| Streamed.StreamedOutputComplete | football_scraper.py:86-168 | every football match that passes every check has its entry in the output |
| Sportsonline.CurrentDay | football_scraper.py:194-197 | the day name for a weekday number is one of the seven section headers |
| Sportsonline.MatchTimeTitle | football_scraper.py:258-261 | a match gives a one- or two-digit-hour H:MM time that starts the text, whitespace, then a non-empty title that ends the text |
| Sportsonline.TimeTitleMatches | football_scraper.py:258 | a time, whitespace and a title starting with a non-space character are matched as exactly those groups |
| Sportsonline.EventParts | football_scraper.py:248-261 | an accepted line has a time of the H:MM shape, a stripped title and an http(s) URL |
| Sportsonline.ParseEventLine | football_scraper.py:248-281 | every row it yields has an http(s) URL and a title without ':' |
| Sportsonline.EventLineRow | football_scraper.py:263-281 | a row is yielded exactly when the title has no ':', contains " vs " or " x " and splits into two non-blank sides; the row keeps the URL, rewrites " x " as " vs ", and moves a valid time one hour back |
| Sportsonline.LineRow | football_scraper.py:235-246 | blank lines, weekday headers and channel headers yield nothing; every other line yields what the event-line parser yields |
| Sportsonline.Stripped | football_scraper.py:234 | every line is stripped, and the count is unchanged |
| Sportsonline.ScanLines | football_scraper.py:231-281 | the loop with its in_current_day_section flag returns the rows of the lines read while the flag is set, in line order |
| Sportsonline.ParseSportsonlineData | football_scraper.py:224-287 | the rows are those of the stripped lines of the stripped text split at line breaks |
| Sportsonline.SectionFlagMeansInSection | football_scraper.py:238-246 | the flag is set exactly when the last weekday header seen names the current day |
| Sportsonline.InSectionAtHeader | football_scraper.py:238-240 | right after a weekday header, the section is open exactly when that header names the current day |
| Sportsonline.InSectionPastLine | football_scraper.py:241-246 | any other line leaves the section as it was |
| Sportsonline.RowsFromSection | football_scraper.py:233-281 | a row is in the output exactly when some line read inside the section yields it |
| Sportsonline.ParsedRowsComeFromDaySection | football_scraper.py:233-281 | every row has an http(s) URL and a colon-free title, and comes from a non-header line inside the current day's section |
| Sportsonline.DaySectionRowsAreParsed | football_scraper.py:233-281 | every event line inside the current day's section that the event parser accepts contributes its row |
| Sportsonline.NoRowsForUnknownDay | football_scraper.py:238-239 | a day name that is none of the seven weekday names selects no rows |
| SportsonlineGroups.GroupRows | football_scraper.py:291-300 | the groups in dict insertion order, each key with its URLs in row order |
| SportsonlineGroups.CollectUrls | football_scraper.py:291-295 | after the defaultdict loop, the keys are the distinct row keys in first-seen order and each maps to its rows' URLs |
| SportsonlineGroups.GroupItems | football_scraper.py:297-300 | the items loop lists every key with its URLs, in insertion order |
| SportsonlineGroups.GroupedSeenKey | football_scraper.py:294-295 | a row with a key already present appends its URL under that key |
| SportsonlineGroups.GroupedNewKey | football_scraper.py:294-295 | a row with a new key adds the key at the end of the order, with its URL alone |
| SportsonlineGroups.UrlsOfMembers | football_scraper.py:293-295 | a URL is collected under a key exactly when some row with that key carries it |
| SportsonlineGroups.GroupsNonEmpty | football_scraper.py:291-300 | every group has at least one URL, and its key is a row's key |
| SportsonlineGroups.GroupsCover | football_scraper.py:291-300 | every row's key has a group |
| SportsonlineGroups.GroupsFirstSeen | football_scraper.py:299-300 | the group keys are distinct and come in order of first appearance |
| SportsonlineGroups.SortKey | football_scraper.py:302-307 | the key lies in 360..1799 |
| SportsonlineGroups.SortKeyOfClock | football_scraper.py:302-307 | for HH:MM the key is 60·HH + MM, plus 1440 when HH < 6 |
| SportsonlineGroups.SortKeyOfInvalid | football_scraper.py:304-306 | text that is not a valid time sorts like 00:00 |
| SportsonlineGroups.SortGroups | football_scraper.py:309 | the sort is a permutation of the groups and ordered by the key |
| SportsonlineGroups.SortGroupsStable | football_scraper.py:309 | groups with equal keys keep their relative order |
| SportsonlineGroups.TeamNamesSplitTitle | football_scraper.py:312-315 | with a " vs ", the names are the stripped sides of its first occurrence |
| SportsonlineGroups.TeamNamesWithoutVs | football_scraper.py:316-322 | without a " vs ", the names never pass the validator |
| SportsonlineGroups.UniqueHttpStreams | football_scraper.py:324-329 | the seen-set loop returns the http(s) URLs in first-seen order, each once |
| SportsonlineGroups.UniqueStreamsProperties | football_scraper.py:324-329 | the result has no duplicates, holds exactly the http(s) URLs of the list, and equals the http(s) URLs among the order-de-duplicated list |
| SportsonlineGroups.MatchDate | football_scraper.py:336-349 | the date is always today's or tomorrow's |
| SportsonlineGroups.MatchDateOfClock | football_scraper.py:338-347 | for HH:MM the date is tomorrow's exactly when HH is 00-05 and the current hour is 18 or later |
| SportsonlineGroups.GroupSportsonlineMatches | football_scraper.py:289-362 | the output is the sorted groups' entries, with skipped groups left out |
| SportsonlineGroups.AddEntry | football_scraper.py:311-360 | one turn of the loop appends the group's entry, or nothing when the group is skipped |
| SportsonlineGroups.EntryForSpec | football_scraper.py:311-358 | a group yields an entry exactly when its names are valid and some URL is http(s); the entry holds the title, the time, both names with the default logo, the distinct http(s) URLs and the match date |
| SportsonlineGroups.GroupedMatchesSorted | football_scraper.py:309-360 | the output is ordered non-decreasingly by the sort key of each entry's time |
| SportsonlineGroups.EntrySource | football_scraper.py:311-360 | every output entry is the entry of some group |
| SportsonlineGroups.GroupedEntryTeams | football_scraper.py:311-358 | every output entry has a row's time and title, two valid names with the default logo, and today's or tomorrow's date |
| SportsonlineGroups.GroupedEntryLinks | football_scraper.py:324-357 | an entry's links are non-empty, have no duplicates, and are exactly the http(s) URLs of the rows with its time and title, in first-seen order |
| SportsonlineGroups.GroupedMatchesComplete | football_scraper.py:291-360 | every row with valid names and an http(s) URL shows up in some entry with its time and title that lists its URL |
| MatchMerge.ScanBest | football_scraper.py:501-523 | the best index is -1 with similarity 0, or a scanned, unused index together with its similarity |
| MatchMerge.ScanBestIsFirstMaximum | football_scraper.py:508-523 | the search finds the first unused candidate of largest similarity when one scores above 0, and -1 otherwise |
| MatchMerge.FindBest | football_scraper.py:501-523 | the search loop's result is that scan over all candidates |
| MatchMerge.PairingStep | football_scraper.py:500-541 | entry i is merged exactly when the best unused similarity reaches 0.9, and then with that candidate, not with one taken before |
| MatchMerge.PairingIsOneToOne | football_scraper.py:509-541 | no sportsonline entry is taken twice |
| MatchMerge.MergeLoopTakes | football_scraper.py:525-545 | one turn extends the pairing by the best index, or by -1 below the threshold, and adds that index to the used set |
| MatchMerge.UsedOfAppend | football_scraper.py:541 | appending an index adds it to the used set; -1 adds nothing |
| MatchMerge.MergeLoopAppends | football_scraper.py:525-545 | one turn appends the merged entry, or the streamed entry as it is |
| MatchMerge.PairNext | football_scraper.py:500-545 | one turn of the first loop extends the output and the used set to the longer prefix |
| MatchMerge.PairStreamed | football_scraper.py:497-545 | the first loop gives the paired streamed entries and the set of taken indices |
| MatchMerge.AppendUnpaired | football_scraper.py:548-550 | the second loop appends the untaken sportsonline entries in order |
| MatchMerge.MergeMatches | football_scraper.py:493-552 | the result is the paired streamed entries followed by the untaken sportsonline entries |
| MatchMerge.UsedOfLast | football_scraper.py:541 | a taken index is new to the used set |
| MatchMerge.UsedOfCount | football_scraper.py:498-541 | the used set has one member per merge |
| MatchMerge.UnpairedLength | football_scraper.py:548-550 | the untaken entries number the sportsonline entries minus the taken ones |
| MatchMerge.MergedMatchesLength | football_scraper.py:493-552 | output length = streamed + sportsonline − number of merges |
| MatchMerge.MergedEntryFields | football_scraper.py:527-539 | a merged entry keeps the streamed title, teams, time and date; its links are a reordering of the de-duplicated links of both |
| MatchMerge.MergedEntryLinks | football_scraper.py:527-530 | merged links have no duplicates and hold exactly the links of either entry |
| MatchMerge.MergedMatchesShape | football_scraper.py:500-545 | output position i holds streamed entry i, merged with its partner when it has one |
| ExistingMerge.LookupDomain | football_scraper.py:435-438 | the index holds exactly the snapshot's keys, each entry under its own key |
| ExistingMerge.LookupLast | football_scraper.py:435-438 | for a repeated key the index keeps the last snapshot entry with it |
| ExistingMerge.LookupIsLast | football_scraper.py:435-438 | every index entry is the last snapshot entry with its key |
| ExistingMerge.BuildLookup | football_scraper.py:435-438 | the first loop builds that index and its key insertion order |
| ExistingMerge.UpgradeLogo | football_scraper.py:454-462 | the logo changes exactly when the existing one is the default and the new one is not, and then to the new one |
| ExistingMerge.UpdateExisting | football_scraper.py:447-472 | an update keeps the key, title and time |
| ExistingMerge.UpdateExistingLinks | football_scraper.py:464-472 | links change exactly when the union of old and new has more distinct links than the old list has entries; they then hold that union, each link once |
| ExistingMerge.UpdateExistingMatch | football_scraper.py:448-472 | the in-place field updates give that updated entry |
| ExistingMerge.ConsumeNew | football_scraper.py:444-484 | the second loop's output and what is left of the index |
| ExistingMerge.ConsumedRest | football_scraper.py:478-479 | after the loop the index holds exactly the keys no new entry has, unchanged |
| ExistingMerge.ConsumedAt | football_scraper.py:444-484 | for new entry j, the output holds the updated index entry when its key is stored and no earlier new entry took it, and the new entry otherwise |
| ExistingMerge.AppendRemaining | football_scraper.py:486-488 | the last loop appends the index entries left, in insertion order |
| ExistingMerge.RemainingLength | football_scraper.py:486-488 | as many entries are appended as there are keys left |
| ExistingMerge.RemainingMember | football_scraper.py:486-488 | an entry is appended exactly when it is stored under some key left |
| ExistingMerge.MergeWithExistingData | football_scraper.py:430-491 | the three loops together give the merge result |
| ExistingMerge.RestKeys | football_scraper.py:479 | the keys left are the snapshot keys minus the new keys |
| ExistingMerge.KeyOrderElems | football_scraper.py:435-438 | the insertion order lists each snapshot key exactly once |
| ExistingMerge.KeyOrderMember | football_scraper.py:487 | a key is in the insertion order exactly when it is in the index |
| ExistingMerge.MergedLength | football_scraper.py:430-491 | output length = new entries + distinct snapshot keys − distinct snapshot keys also among the new keys |
| ExistingMerge.MergedNewPosition | football_scraper.py:444-484 | output position j has new entry j's key, and holds the updated snapshot entry or the new entry |
| ExistingMerge.RepeatedKeyIsNew | football_scraper.py:444-483 | a new entry whose key an earlier new entry had is appended unchanged |
| ExistingMerge.MergedTail | football_scraper.py:486-488 | after the new entries come exactly the last snapshot entries of the keys no new entry has, unchanged |
| LogCleanup.ParseTimestamp | comradicaloculiwersetyouts.py:61 | strptime either fails or gives a time with zero microseconds |
| LogCleanup.LineVerdict | comradicaloculiwersetyouts.py:58-65 | keep exactly when there is no time-stamp prefix or the stamp is not before the cutoff; remove exactly when it is before; abort exactly when the stamp is not a real date and time |
| LogCleanup.CleanupOldLogs | comradicaloculiwersetyouts.py:54-75 | the loop and the rewrite decision give the cleanup outcome |
| LogCleanup.ScanAborts | comradicaloculiwersetyouts.py:58-61 | the cleanup aborts exactly when some line has an invalid stamp |
| LogCleanup.ScanKeeps | comradicaloculiwersetyouts.py:58-65 | the kept lines are the lines with verdict "keep", in order, and removed_count counts all the others |
| LogCleanup.CleanupRewrites | comradicaloculiwersetyouts.py:58-75 | the file is rewritten exactly when nothing aborts and some line is old; it then holds the kept lines, and the count of dropped lines is positive; with nothing to remove, every line is kept |
| LogCleanup.FormatTimestamp | comradicaloculiwersetyouts.py:29 | the printed %Y-%m-%d %H:%M:%S stamp is 19 characters |
| LogCleanup.FormattedLineParses | comradicaloculiwersetyouts.py:59-61 | a line starting with a printed stamp has the prefix, and it reads back as that time to the second |
| LogCleanup.FormattedLineVerdict | comradicaloculiwersetyouts.py:58-65 | such a line is removed exactly when its time is before the cutoff |
| Encryptor.PackU32 | comradicaloculiwersetyouts.py:160 | struct.pack('<I') gives four bytes |
| Encryptor.PackU32RoundTrip | comradicaloculiwersetyouts.py:160 | unpacking a packed value gives it back, and every four bytes are a packing |
| Encryptor.PackU64 | comradicaloculiwersetyouts.py:186 | struct.pack('<Q') gives eight bytes |
| Encryptor.PackU64RoundTrip | comradicaloculiwersetyouts.py:186 | unpacking a packed value gives it back, and every eight bytes are a packing |
| Encryptor.DecimalString | comradicaloculiwersetyouts.py:151 | str(n) is non-empty |
| Encryptor.Utf8Char | comradicaloculiwersetyouts.py:173 | one character encodes to 1 to 4 bytes, one byte exactly for ASCII |
| Encryptor.Utf8 | comradicaloculiwersetyouts.py:173 | the encoding is at least as long as the text |
| Encryptor.Hex | comradicaloculiwersetyouts.py:109 | token_hex gives two lower-case hexadecimal digits per byte |
| Encryptor.LiveDataEncryptor.constructor | comradicaloculiwersetyouts.py:104-110 | no configuration yet, and an output file name of 50 hex digits plus ".json" |
| Encryptor.LiveDataEncryptor.FetchRemoteConfig | comradicaloculiwersetyouts.py:112-130 | succeeds exactly when the response has all five required keys; only then is the configuration replaced |
| Encryptor.LiveDataEncryptor.DeterministicKey | comradicaloculiwersetyouts.py:149-153 | a key is derived only when a configuration with key_iterations is loaded |
| Encryptor.LiveDataEncryptor.StreamCipher | comradicaloculiwersetyouts.py:155-162 | the output has the input's length |
| Encryptor.LiveDataEncryptor.StreamEncrypt | comradicaloculiwersetyouts.py:155-162 | the byte loop computes the position-keyed cipher: byte i XORed with the first byte of sha256(key_hash + pack('<I', i)); it then undoes itself by StreamCipherInvolution |
| Encryptor.LiveDataEncryptor.EncryptPayload | comradicaloculiwersetyouts.py:168-207 | the steps give the encryption result, None on every path that raises |
| Encryptor.StreamCipherInvolution | comradicaloculiwersetyouts.py:158-161 | enciphering twice with the same key and IV returns the data |
| Encryptor.FramedPayloadLayout | comradicaloculiwersetyouts.py:189-195 | the payload is the IV, then as many ciphertext bytes as plaintext bytes, then the tag over exactly IV ‖ ciphertext; deciphering layer 2 and then layer 1 returns the plaintext |
| Encryptor.EncryptionResult | comradicaloculiwersetyouts.py:168-207 | over 10 MiB, or without a configuration, the result is None; on success data_size is the JSON length, status is "success", and encrypted_data is the Base64 of a 16 + 8 + length + 32 byte payload: the packed time stamp and the JSON bytes enciphered under the layer1 and layer2 keys and tagged under the hmac key that DeterministicKey derives from the configuration's salt, identifier and version; deciphering with those keys gives them back |

## Left out

- HTTP, file and OS I/O are not modelled: requests, open, glob, os.remove, logging, time.sleep. The model takes their results as parameters. The updated_count and new_count counters only feed log messages.
- `datetime.now()`, `time.time()`, `secrets`, `uuid` and `random.shuffle` become parameters: the weekday, the hour, today's and tomorrow's dates, the log cutoff, the clock readings, the IV, the token and a shuffle function. The merge contracts hold for every shuffle that only reorders.
- Randomness makes the order of shuffled links unspecified, so links after a shuffle are specified as sets or multisets.
- Python's `list(set(...))` in `merge_with_existing_data` is modelled as the order de-duplication followed by the shuffle. The set's own iteration order is lost in the shuffle anyway.
- `calculate_team_similarity` and difflib's `SequenceMatcher` use floating point; they are an oracle of type `(string, string, string, string) -> real`.
- SHA-256, HMAC-SHA256, PBKDF2 and Base64 (section 4 of RFC 4648) are functions held by the encryptor, not implemented.
- The JSON decoding of the responses and `json.dumps` are not modelled. The config response is an `Option<Config>` and the encoded payload is a byte-string parameter.
- `cleanup_old_log_files`, `generate_run_code`, `generate_fetch_code`, `fetch_live_data`, `save_encrypted_data`, `run_encryption_cycle`, both `main` functions, `load_existing_data`, `save_data`, `fetch_data`, `fetch_sportsonline_data` and `fetch_sportsonline_matches` are I/O or orchestration and are not modelled.
- Streamed timestamps are integers. A float `date` and the platform limits of `datetime.fromtimestamp` (OSError, OverflowError) are not modelled. Only the 1..9999 year range is.
- Calendar.DateString: pads years below 1000 to four digits. Positive timestamps never reach them.
- Regex classes `\d` and `\s` are modelled as their ASCII and Python-whitespace sets. Unicode digits are not modelled. `upper`/`lower` fold ASCII letters only.
- The regexes act on lines that carry no trailing line break, so the `$`-before-newline case of `re.match` never arises.
- The `AttributeError` branches of `time_to_minutes` and `subtract_hour_from_time` (a non-string argument) cannot arise for string inputs.
- The `except Exception` branch of `parse_sportsonline_data` is likewise unreachable for a string input.
- Aliasing is modelled by value, including the shared team dictionaries between a merged entry and its streamed source, and the in-place update of `existing_match` inside the snapshot list.
- Encryptor.LiveDataEncryptor.StreamEncrypt: requires at most 2^32 bytes, where `struct.pack('<I', i)` would raise. Callers never reach that length, because of the 10 MiB check.
- Encryptor.LiveDataEncryptor.DeterministicKey: treats `key_iterations` outside 1..2^31-1, or a non-integer one, as raising. A float or a boolean value is not modelled.
- Streamed.UpdateTeam: requires the placeholder team it is always called with.
