# WeaselBot, modelled in Dafny

WeaselBot is a Slack bot for F3 regions. Three jobs make up its core:

- **The nation data builder** copies each region's PAXminer schema (users, AOs, beatdowns,
  attendance) into one set of `weaselbot.combined_*` tables. A region's own watermark
  (the newest beatdown `timestamp` and `ts_edited` already merged) decides how much of it
  is pulled. Users are merged across regions by lower-cased e-mail, and the home region is
  the region where they attended most. The builder then writes beatdowns and attendance
  with `INSERT … ON DUPLICATE KEY UPDATE`, in chunks of 1000 rows.
- **The achievements job** groups the national beatdown data by period (year, month or
  week), pax and region. It awards the fourteen achievements of the catalogue from
  thresholds on those groups. It then drops the awards a pax already holds for that
  period, and posts a Slack message for each new award. The second and later "6 pack" of
  a year goes to the pax as a direct message.
- **The Kotter report** tells each site Q which men have not posted, have not led
  ("Q'd") for a while, or have never led. A default site Q receives the whole list.

The model is a set of pure functions over immutable datatypes, one module per concern:

- `Wrappers`: `Option`/`Result`.
- `Text`: split, strip, lower-case, integer printing.
- `Logic`: SQL/Polars three-valued logic.
- `Seqs`: filter, chunks, keep-first de-duplication, sorting, best row per key.
- `Upsert`: a keyed table with auto-increment ids under `ON DUPLICATE KEY UPDATE`.
- `Warehouse`: the six combined tables with their keys and update clauses.
- `SlackIds`: `extract_user_id`.
- `Extraction`: the watermark, the pull-mode selector, the `WHERE` clause and the
  per-region pull.
- `Identity`: users and aliases.
- `Merge`: beatdowns and attendance.
- `Requirements`: `parse_requirements` of `setup.py`.
- `Rules`: the achievement rules.
- `Awards`: finding new awards, message text, sending and bookkeeping.
- `HomeRegion`: the attendance fallback window, the home region, the national frame and
  schema selection.
- `Kotter` and `KotterLegacy`: the newer and older report text and recipients.

Things the program takes from outside are parameters:

- the database contents, as sequences of rows;
- the current date and year (`today`, `year`);
- calendar projections (`Calendar`: year, month, ISO week);
- date formatting (`fmt`, `show`);
- the regular-expression filters on backblasts and AO names (`Filters`), as three-valued
  predicates.

## Model

| member | source | states |
|---|---|---|
| SlackIds.ExtractUserId | f3_data_builder.py:123-132 | None stays None; an id starting with "U" is returned unchanged; otherwise there is a result exactly when the text contains "/team/"; a result never contains "\|" or "/team/" |
| SlackIds.ExtractUserIdLocation | f3_data_builder.py:130 | for a link, the id is the text after the first "/team/", cut at the earlier of the next "\|" or the next "/team/" |
| SlackIds.ExtractUserIdExamples | f3_data_builder.py:124-132 | None gives None, "U012ABC" is returned as is, and "bob" (no "/team/") gives None |
| SlackIds.ExtractUserIdLinkExample | f3_data_builder.py:130 | "/team/U9\|b" gives "U9" |
| Text.Split | f3_data_builder.py:130 | joining the parts with the separator gives back the text; no part contains the separator; there is more than one part exactly when the text contains it; the first part is the text before its first occurrence |
| Text.Strip | setup.py:5 | the result has no surrounding blanks and is a contiguous slice of the input |
| Text.StripIdempotent | setup.py:5 | stripping twice equals stripping once |
| Text.StripSkipsIndent | setup.py:5-6 | after leading blanks, the first non-blank character is the first character of the stripped line, so an indented "#" still starts the line |
| Text.Lower | f3_data_builder.py:88 | same length, no upper-case ASCII letter, and each character agrees with the input's once both are lower-cased |
| Text.LowerIdempotent | f3_data_builder.py:88 | lower-casing twice equals lower-casing once |
| Text.NatToStringRoundTrip | weaselbot/utils.py:250 | the decimal text of a count parses back to the same count |
| Logic.Or | pax_achievements.py:139 | Kleene OR: true if either side is true, false only if both are false, otherwise unknown |
| Logic.And | pax_achievements.py:209 | Kleene AND: true only if both are true, false if either is false, otherwise unknown |
| Logic.Not | pax_achievements.py:323-326 | negation swaps true and false and keeps unknown unknown |
| Seqs.Filter | f3_data_builder.py:89 | a row is kept exactly when it is an input row satisfying the predicate; the result is a sub-multiset of the input |
| Seqs.FilterIdempotent | f3_data_builder.py:234-235 | filtering twice by the same predicate equals filtering once |
| Seqs.Chunks | f3_data_builder.py:192 | the chunks concatenate to the input; each chunk is non-empty and at most n long; every chunk but the last has exactly n rows |
| Seqs.DedupBy | f3_data_builder.py:233 | keys of the result are unique, they are exactly the input's keys, and every kept row is an input row |
| Seqs.DedupByKeepsFirst | f3_data_builder.py:99 | the kept row for each key is the first input row with that key |
| Seqs.DedupFilterCommute | f3_data_builder.py:233-235 | de-duplicating then filtering on a key-determined predicate equals filtering then de-duplicating |
| Seqs.SortBy | f3_data_builder.py:97 | the result is ordered by the measure (descending count is the negated measure) and is a permutation of the input |
| Seqs.BestPerKey | weaselbot/kotter_report.py:360 | one row per key, the same key set as the input, every row from the input |
| Seqs.BestPerKeyMaximal | pax_achievements.py:304 | the row kept for a key has the largest measure among that key's input rows |
| Upsert.UpsertRow | f3_data_builder.py:194 | the key set gains the row's key; an existing key keeps its id and takes the update clause's value; a new key takes the next id; all other keys are unchanged; table validity is preserved |
| Upsert.UpsertBatchAppend | f3_data_builder.py:197-201 | upserting a + b equals upserting a then b |
| Upsert.UpsertChunks | f3_data_builder.py:196-201 | upserting the chunks one by one equals upserting the whole batch |
| Upsert.UpsertBatchValue | f3_data_builder.py:194 | when the update clause overwrites every column it names, a key's final value is the clause applied to its starting value and the last batch row with that key |
| Upsert.UpsertIdempotent | f3_data_builder.py:194 | when the update clause overwrites every column it names, upserting the same batch twice equals upserting it once |
| Warehouse.RegionUpdate | f3_data_builder.py:31 | a re-inserted region keeps its schema name and Slack team and takes the new name and watermarks |
| Warehouse.UpsertRegionsIdempotent | f3_data_builder.py:38-41 | re-running the region insert with the same rows changes nothing |
| Warehouse.UserUpdate | f3_data_builder.py:100 | a re-inserted user takes every column of the new row |
| Warehouse.UpsertUsersIdempotent | f3_data_builder.py:104 | re-running the user insert with the same rows changes nothing |
| Warehouse.AliasUpdate | f3_data_builder.py:101 | a re-inserted alias keeps its Slack id and takes name, e-mail, region and user id |
| Warehouse.UpsertAliasesIdempotent | f3_data_builder.py:108-111 | re-running the alias insert with the same rows changes nothing |
| Warehouse.AoUpdate | f3_data_builder.py:115 | a re-inserted AO changes only its name |
| Warehouse.UpsertAosIdempotent | f3_data_builder.py:118 | re-running the AO insert with the same rows changes nothing |
| Warehouse.BeatdownUpdate | f3_data_builder.py:194 | a re-inserted beatdown keeps AO, date and Q and takes the co-Q, counts, timestamps, backblast and json |
| Warehouse.BeatdownReEditUpdatesInPlace | f3_data_builder.py:194 | re-pulling an edited beatdown adds no key, keeps its id and stores the new pax count |
| Warehouse.UpsertBeatdownsIdempotent | f3_data_builder.py:196-201 | re-running the beatdown insert with the same rows changes nothing |
| Warehouse.AttendanceUpdate | f3_data_builder.py:236 | a re-inserted attendance row keeps its user and takes the beatdown id and json |
| Warehouse.UpsertAttendanceIdempotent | f3_data_builder.py:239 | re-running the attendance insert with the same rows changes nothing |
| Extraction.DiscoverRegions | f3_data_builder.py:17-22 | the regions are exactly the directory rows other than "f3dc" |
| Extraction.SqlMax | f3_data_builder.py:21 | MAX is NULL exactly when every value is NULL; otherwise it is one of the values and no value exceeds it |
| Extraction.RegionWatermark | f3_data_builder.py:24-29 | the beatdown count is NULL exactly when the region has no merged beatdowns and is at least 1 otherwise; with a NULL count both maxima are NULL |
| Extraction.SelectMode | f3_data_builder.py:68-76 | both watermarks give the two-column filter; only the timestamp gives the timestamp filter; no timestamp and count 0 gives everything; anything else pulls nothing |
| Extraction.EverythingUnreachable | f3_data_builder.py:74 | no watermark computed by the region query selects the full pull |
| Extraction.NewRegionNeverPulled | f3_data_builder.py:74-76 | a region with no merged beatdowns is never pulled |
| Extraction.SelectModeIntended | tests/test_f3_data_builder.py:137-176 | a region with no watermark is pulled in full; the other branches are unchanged |
| Extraction.NewRegionPulledInFull | tests/test_f3_data_builder.py:137-176 | under the intended selector a new region is pulled in full |
| Extraction.SelectorsAgreeWithWatermark | f3_data_builder.py:68-73 | the two selectors agree whenever a timestamp watermark exists |
| Extraction.SqlGreater | f3_data_builder.py:58 | a comparison with NULL is unknown; otherwise it is true exactly when the value is larger |
| Extraction.SelectRows | f3_data_builder.py:58-63 | no rows when nothing is pulled; otherwise the rows kept are exactly those newer than the watermark; the full pull keeps every row |
| Extraction.WhereClauseOnRows | f3_data_builder.py:58-63 | the SQL `WHERE` clause holds for a row exactly when the row is newer than the watermark |
| Extraction.IncrementalFilterExample | f3_data_builder.py:58 | with watermarks 100 and 50, a row at 90 edited at 60 is pulled and one edited at 40 is not |
| Extraction.Stamp | f3_data_builder.py:55-56 | every row keeps its content and order and carries the region id |
| Extraction.PullRegion | f3_data_builder.py:65-76 | users and AOs are always pulled; beatdowns and attendance are absent exactly when the mode pulls nothing; otherwise they are the selected rows |
| Extraction.PullEach | f3_data_builder.py:50-76 | the pull succeeds exactly when every region's schema exists, with one pull per region in order; otherwise the error names the first region whose schema is missing |
| Extraction.PullAll | f3_data_builder.py:50-81 | success exactly when every schema exists and some region's watermark selects a pull; a missing schema is reported by a region's schema name, and with every schema present the only failure is an empty list to concatenate |
| Extraction.FramesPresentIff | f3_data_builder.py:78-81 | there is a beatdown frame, and an attendance frame, to concatenate exactly when some region's watermark selects a pull |
| Identity.NormalizeUsers | f3_data_builder.py:88-89 | e-mails are lower-cased; users without e-mail are dropped; every other user is kept |
| Identity.AttendanceCount | f3_data_builder.py:91-93 | a Slack id's count is zero exactly when no attendance row names it, and never exceeds the row count |
| Identity.AttendanceCountAppend | f3_data_builder.py:91-93 | counting over concatenated attendance adds the counts |
| Identity.WithCounts | f3_data_builder.py:94-96 | each candidate, in order, gets the attendance count of its Slack id |
| Identity.ChooseUsersEmails | f3_data_builder.py:94-99 | one user row per distinct e-mail, and every candidate e-mail gets one |
| Identity.ChooseUsersHome | f3_data_builder.py:94-99 | each user row comes from a candidate with that e-mail, carries its name or "0" when it has none (`fillna(0)`), and no candidate with that e-mail attended more |
| Identity.UserIdOf | f3_data_builder.py:106-107 | in a valid table the id is at least 1 exactly when the e-mail is stored, and 0 otherwise |
| Identity.AssignUserIds | f3_data_builder.py:103-107 | one alias row per candidate, in order, with its Slack id, region and e-mail, and its name or "0" when it has none (`fillna(0)`) |
| Identity.AliasIdsResolve | f3_data_builder.py:103-107 | after the user insert, every candidate's e-mail is in the users table |
| Identity.AliasIdsIdentifyPeople | f3_data_builder.py:104-107 | two aliases get the same user id exactly when they share an e-mail |
| Identity.BuildIdentities | f3_data_builder.py:103-111 | valid user and alias tables stay valid |
| Identity.AliasesPointAtUsers | f3_data_builder.py:103-111 | every alias written in this run points at the stored user with its e-mail |
| Identity.PulledUserIsCandidate | f3_data_builder.py:88-89 | a pulled user with an e-mail becomes a candidate with the same Slack id and region |
| Merge.ResolveUser | f3_data_builder.py:140-161 | a Slack id resolves exactly when an alias exists for it in that region; the user id comes from such an alias |
| Merge.ResolveAo | f3_data_builder.py:162-166 | a channel resolves exactly when the AO is stored for that region, to its id |
| Merge.EditedValue | f3_data_builder.py:169-170 | "NA" and missing edit times become NULL; numbers are kept |
| Merge.CleanBeatdown | f3_data_builder.py:136-189 | a beatdown is written exactly when its AO resolves, with Q and co-Q resolved, a missing FNG count as 0 and "NA" edits as NULL |
| Merge.CleanBeatdowns | f3_data_builder.py:175-189 | the rows written are exactly the cleaned beatdowns whose AO resolves |
| Merge.BeatdownKeptWhenAoKnown | f3_data_builder.py:175 | a pulled beatdown whose AO is known is written |
| Merge.LoadBeatdownsChunked | f3_data_builder.py:192-201 | writing in chunks of 1000 gives the same table as writing the whole batch |
| Merge.FindBeatdown | f3_data_builder.py:227-231 | an attendance row finds a beatdown exactly when one is stored with its AO, date and Q, and gets that id |
| Merge.NullQMatchesNullQ | f3_data_builder.py:227-231 | a NULL Q matches a beatdown stored with a NULL Q |
| Merge.LinkAll | f3_data_builder.py:206-231 | one linked row per attendance row, each linked independently |
| Merge.CompleteLinks | f3_data_builder.py:232-235 | only rows with both a beatdown and a user survive |
| Merge.LinkAttendanceUnique | f3_data_builder.py:233 | the written attendance has at most one row per beatdown and user |
| Merge.LinkAttendanceSound | f3_data_builder.py:206-239 | every written row comes from an attendance row that links completely |
| Merge.LinkAttendanceComplete | f3_data_builder.py:206-239 | every attendance row that links completely has its key written |
| Requirements.ParseRequirements | setup.py:3-6 | no more entries than lines, and each entry is already stripped, non-empty and not a comment |
| Requirements.ParseRequirementsMembers | setup.py:5-6 | a text is in the result exactly when it is some line stripped, non-empty and not a comment |
| Requirements.ParseRequirementsAppend | setup.py:3-6 | parsing concatenated files concatenates the results |
| Requirements.ParseRequirementsSingle | setup.py:5-6 | a single line gives its stripped text exactly when that is a requirement |
| Requirements.ParseRequirementsIdempotent | setup.py:3-6 | parsing the parsed list again gives it back |
| Requirements.IndentedCommentDropped | setup.py:5-6 | an indented comment line is dropped |
| Requirements.BlankLineDropped | setup.py:5-6 | a blank line is dropped |
| Rules.DistinctAosAtMostRows | pax_achievements.py:211 | the number of distinct AOs in a group never exceeds its number of rows |
| Rules.LastDate | pax_achievements.py:141 | the award date is a date of the group and no date of the group is later |
| Rules.Tallies | pax_achievements.py:140-141 | one tally per group key, the keys are exactly those of the filtered rows, and each tally counts its group |
| Rules.AwardsAtLeast | pax_achievements.py:142-144 | an award is listed exactly when its group's tally reaches the threshold, dated with the group's last date |
| Rules.Apply | pax_achievements.py:135-146 | one award per period, pax and region, and an award is listed exactly when the rule's filtered group reaches its threshold; the eight rules at lines 135-255 are instances |
| Rules.ApplyMembers | pax_achievements.py:135-146 | an award passes the tally threshold exactly when the rule's filtered group earns it |
| Rules.EarnedIsListed | pax_achievements.py:135-146 | a group that reaches the threshold is listed with its last date |
| Rules.ListedIsEarned | pax_achievements.py:135-146 | a listed award has a group reaching the threshold |
| Rules.ApplyMonotone | pax_achievements.py:135-146 | lowering a rule's threshold never removes an award |
| Rules.BossIsLeader | pax_achievements.py:163-188 | every "The Boss" award is also a "Leader of Men" award for the same month |
| Rules.CadreIsBoss | pax_achievements.py:177-216 | every "Cadre" award comes with a "The Boss" award for the same month |
| Rules.CadreCountsDistinctAos | pax_achievements.py:211 | "Cadre" counts distinct AOs: any number of Qs at one AO count once |
| Rules.PostRung | pax_achievements.py:335-340 | a rung lists a yearly post group exactly when its count reaches the rung |
| Rules.PostRungMonotone | pax_achievements.py:336 | a higher rung's awards are among a lower rung's |
| Rules.PostLadderNests | pax_achievements.py:336-340 | the 25/50/100/150/200 post awards nest |
| Rules.Hdtf | pax_achievements.py:258-269 | "Holding Down the Fort" groups by AO as well; a pax, region and year is listed exactly when some AO's group reaches 50 posts |
| Rules.HdtfMembers | pax_achievements.py:258-269 | an award passes the per-AO tally threshold exactly when some AO's group reaches 50 |
| Rules.FortEarnedIsListed | pax_achievements.py:258-269 | reaching 50 posts at one AO lists the pax for that year |
| Rules.DfsFollowsCatalogue | pax_achievements.py:316-342 | the frames come in the order of the achievement list, so frame k is computed by the rule of achievement k |
| Rules.SixPackIsThirteenth | weaselbot/achievement_tables.py:161-166 | the 13th entry of the achievement list is the 6 pack |
| Awards.OrdinalSuffix | weaselbot/utils.py:123-132 | the suffix is one of "st", "nd", "rd", "th" |
| Awards.OrdinalSuffixEnglish | weaselbot/utils.py:128-131 | 11 to 13 modulo 100 give "th"; otherwise the last digit 1, 2 or 3 gives "st", "nd" or "rd" and anything else gives "th" |
| Awards.OrdinalSuffixExamples | tests/test_utils.py:11-16 | 1, 21 and 1000001 take "st"; 2 and 52 take "nd"; 3 and 93 take "rd"; 11 to 14, 112 and 113 take "th" |
| Awards.PeriodColumn | weaselbot/utils.py:97-106 | "month" and "week" select those periods; every other first column selects the year |
| Awards.PeriodColumnRoundTrip | weaselbot/utils.py:97-106 | a period's column name selects that period again |
| Awards.CheckForNewResults | weaselbot/utils.py:108-120 | the new results are among the frame's rows and all carry the schema as region |
| Awards.CheckForNewResultsMembers | weaselbot/utils.py:108-120 | a row is new exactly when it is for this region and no award of this id and year exists for its pax and period |
| Awards.NoRepeatAfterUpload | weaselbot/utils.py:112-119 | once the new results are recorded as awarded, checking again finds nothing new |
| Awards.CheckForNewResultsMonthExample | tests/test_utils.py:18-35 | with U1 already holding achievement 3 for January, only U2's February row is new |
| Awards.Count | weaselbot/utils.py:144 | a pax's count for an achievement is zero exactly when no event records that pax and id |
| Awards.CountAtMostTotal | weaselbot/utils.py:224-225 | a pax's count for one achievement never exceeds the pax's total |
| Awards.CountBump | weaselbot/utils.py:215 | recording an award adds one to that pax and id and to the pax total, and changes no other count |
| Awards.AchievementCounts | weaselbot/utils.py:135-145 | a pax and achievement is counted exactly when some award of this year has them |
| Awards.CountsIgnoreOtherYears | weaselbot/utils.py:139 | adding awards from another year does not change the counts |
| Awards.LongIsNotShort | weaselbot/utils.py:174-182 | the long text starts with the congratulation and not the 6 pack opening |
| Awards.ShortIsNotLong | weaselbot/utils.py:172 | the short text starts with the 6 pack opening and not the congratulation |
| Awards.FormatAsWritten | weaselbot/utils.py:166-182 | as written, every text starts with the congratulation and not the 6 pack opening, and names the pax and the count with its suffix |
| Awards.FormatAsWrittenNeverShort | weaselbot/utils.py:171 | as written, the message is always the long one |
| Awards.SixPackRepeatGetsLongMessage | weaselbot/utils.py:171-172 | as written, a second 6 pack in a year gets the long message |
| Awards.FormatAchievementMessage | weaselbot/utils.py:166-182 | the short text is used exactly for achievement 13 with a count above 1; the long text otherwise |
| Awards.LongMessageMentionsPax | weaselbot/utils.py:176-179 | the long text mentions the pax |
| Awards.LongMentionsPax | weaselbot/utils.py:176-179 | the long congratulation mentions the pax |
| Awards.MessagesUseOrdinalOfCount | weaselbot/utils.py:170-180 | both texts state the count with its ordinal suffix |
| Awards.Compose | weaselbot/utils.py:166-182 | as written, the text is the congratulation naming the pax; with the intended guard, the 6 pack opening appears exactly for achievement 13 with a count above 1; either way the text states the count with its suffix |
| Awards.Announce | weaselbot/utils.py:214-229 | a repeat 6 pack (achievement 13 with a count above 1 after the bump) goes to the pax, anything else to the channel; as written its text is the congratulation naming the pax; with the intended guard it starts with the 6 pack opening exactly for a repeat 6 pack |
| Awards.FirstAward | weaselbot/utils.py:217-218 | the award name and verb come from the first catalogue row with that id |
| Awards.Step | weaselbot/utils.py:214-235 | one record bumps its count, appends its upload row and appends one notice carrying the counts right after the bump |
| Awards.StepReplays | weaselbot/utils.py:214-235 | one record keeps the sender's state a replay of its upload list |
| Awards.SendToSlackBookkeeping | weaselbot/utils.py:198-235 | one message per uploaded award; the final counts are the starting counts plus the uploads; every uploaded id is in the catalogue; message j, in either wording, is the one `Awards.Announce` renders from the counts after replaying the first j+1 uploads, which fixes its text and whether it goes to the pax as a 6 pack DM |
| Awards.SentRepeatSixPackIsLong | weaselbot/utils.py:171-229 | as written, a pax's repeat 6 pack this year, counting the ones uploaded earlier in the run, is sent to the pax directly but with the long congratulation and not the 6 pack text |
| Awards.SendToSlackUploads | weaselbot/utils.py:200-245 | the upload is, frame by frame, the new results of every frame whose id is in the catalogue, tagged with that id |
| Awards.ExpectedUploadOrigin | weaselbot/utils.py:200-245 | every uploaded row is a new result of the frame its id names |
| Awards.ExpectedUploadFrame | weaselbot/utils.py:200-245 | every uploaded row is among the rows uploaded for frame i, whose number is i after the starting number |
| Awards.FrameUploadOrigin | weaselbot/utils.py:238-245 | a frame's uploaded rows carry its id and come from its new results |
| HomeRegion.FirstPresent | weaselbot/kotter_report.py:94-99 | the first non-NULL window count, if any |
| HomeRegion.Attendance | weaselbot/kotter_report.py:94-100 | the 30-day count if present, else the 60, 90 or 120-day one in turn, else the all-time count |
| HomeRegion.AttendanceIsOneOfTheCounts | pax_achievements.py:60-66 | the attendance is one of the window counts or the all-time count |
| HomeRegion.HomeRegions | weaselbot/kotter_report.py:360 | one row per e-mail, the same e-mails as the input, every row from the input, each with the largest attendance for its e-mail |
| HomeRegion.HomeRegionPerEmail | pax_achievements.py:304 | an e-mail has a home row exactly when it has some attendance row |
| HomeRegion.JoinHome | weaselbot/kotter_report.py:361 | a beatdown row is kept exactly when its e-mail has a home row, and gains that home region |
| HomeRegion.JoinHomeNoLarger | pax_achievements.py:306 | the inner join never adds rows |
| HomeRegion.JoinedRegionIsBest | kotter_report.py:277-278 | the region attached to a post is the one with the most attendance for that e-mail |
| HomeRegion.NationFrame | pax_achievements.py:303-306 | no more rows than posts; every row is a post tagged with a home region of largest attendance for its e-mail; a post survives exactly when its e-mail has a home row |
| HomeRegion.PostKeptIff | pax_achievements.py:306 | a post survives exactly when its e-mail has a home region |
| HomeRegion.AchievementSchemas | pax_achievements.py:47-48 | the schemas are the "f3%" ones other than the two development schemas; the older Kotter report (kotter_report.py:95-96) applies the same filter |
| HomeRegion.SchemaCaseExample | pax_achievements.py:292 | LIKE "f3%" keeps "F3Omaha" and drops "paxminer" |
| HomeRegion.KotterSchemas | weaselbot/kotter_report.py:348-349 | the "f3%" schemas other than the development schemas and "f3csra" |
| HomeRegion.KotterSchemasNarrowAchievementSchemas | weaselbot/kotter_report.py:349 | the Kotter schemas are the achievements schemas with "f3csra" removed |
| HomeRegion.CsraExample | weaselbot/kotter_report.py:349 | "f3csra" is an achievements schema but not a Kotter schema |
| Kotter.Mention | weaselbot/kotter_report.py:199-203 | an "@" mention exactly when the site Q is a user id starting with "u" or "U", followed by the id; otherwise "!channel" |
| Kotter.MentionExamples | weaselbot/kotter_report.py:199-203 | "U1" and "u1" are mentioned; a channel id, an empty id and no id become "!channel" |
| Kotter.Report | weaselbot/kotter_report.py:204-206 | the report opens with the greeting for the mention |
| Kotter.ReportHeadings | weaselbot/kotter_report.py:208-230 | each section heading appears exactly when its list is non-empty |
| Kotter.ReportLineCount | weaselbot/kotter_report.py:208-230 | the report's list lines are exactly the MIA, low-Q and no-Q rows' lines in that order, one per row |
| Kotter.ByDaysSince | weaselbot/kotter_report.py:217-222 | the low-Q rows are reordered, not changed, in ascending days since the last Q |
| Kotter.QLinesAscending | weaselbot/kotter_report.py:217-225 | low-Q line k is for the row with the k-th smallest days since |
| Kotter.WithoutIds | weaselbot/kotter_report.py:429 | a row is kept exactly when its user id is not among the excluded ids |
| Kotter.LowQList | weaselbot/kotter_report.py:429 | the low-Q list holds no man who is MIA |
| Kotter.NoQList | weaselbot/kotter_report.py:451-452 | the no-Q list holds no man who is MIA or low-Q |
| Kotter.ListsDisjoint | weaselbot/kotter_report.py:429-452 | no user id appears in two of the three lists |
| Kotter.ForSiteQ | weaselbot/kotter_report.py:259-262 | a site Q's rows are exactly the rows assigned to that site Q |
| Kotter.MenCountPositive | weaselbot/kotter_report.py:265 | the sum of the three list sizes is positive exactly when one of them is non-empty |
| Kotter.SiteQMessages | weaselbot/kotter_report.py:257-270 | one message per listed site Q with men assigned, in order, each with that site Q's report |
| Kotter.SiteQMessagesTo | weaselbot/kotter_report.py:257-270 | a listed site Q gets a message exactly when he has men assigned |
| Kotter.Deliveries | weaselbot/kotter_report.py:257-276 | the site Q messages, then the full report with the note to the default when the default is not listed |
| Kotter.DeliveriesTo | kotter_report.py:200-220 | under the same recipient rule, a listed site Q is messaged exactly when he has men assigned |
| Kotter.UnassignedReachOnlyDefault | weaselbot/kotter_report.py:257-276 | a man with no listed site Q is in no site Q's rows, and if the default is itself listed nobody else is messaged |
| Kotter.SiteQMessageCount | weaselbot/kotter_report.py:257-268 | a site Q with men assigned gets one message per time he is listed, and none otherwise |
| KotterLegacy.Report | kotter_report.py:151-158 | the older report opens with the same greeting |
| KotterLegacy.ReportHeadings | kotter_report.py:160-182 | both MIA title parts appear exactly when the MIA list is non-empty, the low-Q title exactly when that list is, and no-Q rows have no title |
| KotterLegacy.ReportLineCount | kotter_report.py:160-182 | the older report's list lines are exactly the MIA, low-Q and no-Q rows' lines in that order, one per row |
| KotterLegacy.SinceLines | kotter_report.py:170-178 | one line per low-Q row in ascending days since the last Q, with the formatted date and the day count |
| KotterLegacy.NeverLines | kotter_report.py:180-182 | one "(no Q yet!)" line per no-Q row |
| KotterLegacy.PostsPartLines | kotter_report.py:160-165 | the MIA section's list lines are its rows |

## Left out

- Database and Slack I/O are not modelled. This covers SQL text, connections, `pd.read_sql`, `chat_postMessage`, the reaction, the 429 retry after `Retry-After`, joining a channel after `not_in_channel`, and logging. Database contents are parameters, and messages are values returned to the caller.
- The clock, date formatting and calendar are parameters. These are `date.today()`, `strftime`, and Polars' `dt.year`/`dt.month`/`dt.week`.
- The regular-expression filters on backblasts and AO names are parameters (`Filters`), not regex engines.
- Sorting ties are not modelled. Pandas' `sort_values` and Polars' `sort_by(...).last()` leave the order of equal keys open. The model sorts stably, and `Seqs.BestPerKey` picks one row of maximal measure.
- Seqs.BestPerKey: states that the kept row has maximal attendance, not which of several tied rows is kept, because the libraries do not fix it.
- Text.Lower: folds only the ASCII letters A to Z; Python's `str.lower` also lower-cases other Unicode letters (for example "É"), which the model leaves unchanged.
- Identity.NormalizeUsers: e-mails are lower-cased with `Text.Lower`, so a non-ASCII upper-case letter in an e-mail is left as it is, and two e-mails that differ only there stay two people.
- SQL `LIKE` is modelled as ASCII case-insensitive matching of the "f3" prefix. Collations and Unicode case folding are left out.
- Unique indexes with NULL columns are not modelled. MySQL lets several NULL keys coexist, and the model treats NULL as an ordinary key value.
- Floating-point NaN handling is reduced to `Option`, as is pandas' `fillna`.
- The older Kotter job's settings query (kotter_report.py:289) is malformed SQL, so every schema fails and is skipped there. Only its report text and recipient rule are modelled.
- Building the MIA, low-Q and no-Q candidate lists is not modelled, because it uses date windows, `HOME_AO_CAPTURE` and per-region thresholds. Each list is a parameter, and only the exclusions between them are modelled. The older lists are not excluded from one another.
- Kotter.Deliveries: the default's message is stated as implications rather than as one equation, because a report builder could produce text that coincides with a site Q's.
- Awards.CheckForNewResults: the function's own contract states only containment and region; membership is stated by `Awards.CheckForNewResultsMembers`.
- The final region re-insert at f3_data_builder.py:242-251 is not modelled separately. It is the region upsert of lines 31-41 in chunks of 10000, which `Upsert.UpsertChunks` covers for any chunk size.
- `pd.concat` of an empty list raises. The model returns a `NothingToConcatenate` error instead.
- The data builder has no per-region error handling, so a missing schema aborts the whole run. The model returns a `MissingSchema` error.
- The per-award `SlackApiError` handler is not modelled; every send succeeds.
- Messages are computed from the notices the loop records (the award and the counts right after its bump) rather than inside the loop; the text depends on nothing else, so each message and its order are the same. The rendering takes a `Wording`: `AsWritten` composes the text with the guard the source has (`Awards.FormatAsWritten`), and `Intended` with the corrected guard (`Awards.FormatAchievementMessage`).
- The summary message's delivery is not modelled; only its count (`Awards.Summary`) is.

## Findings

| source | as written | input that shows it | evidently intended | confidence | as-written member | corrected member |
|---|---|---|---|---|---|---|
| f3_data_builder.py:74 | the full pull runs only when `beatdown_count == 0`, but the region query's `COUNT(*)` comes from a LEFT JOIN, so it is NULL or at least 1 | a region with no merged beatdowns: its count is NULL, neither timestamp branch applies, and nothing is pulled on this or any later run | a region with no watermark is pulled in full, as the tests expect | not executed | Extraction.SelectMode, Extraction.NewRegionNeverPulled | Extraction.SelectModeIntended, Extraction.NewRegionPulledInFull |
| weaselbot/utils.py:171 | `record[3] == 13` compares the pax's Slack id, a string, with the integer 13 | a pax's second 6 pack this year (achievement 13, count 2) gets the long congratulation instead of the short text | the short text for achievement 13 with a count above 1 | not executed | Awards.FormatAsWritten, Awards.SentRepeatSixPackIsLong | Awards.FormatAchievementMessage |
