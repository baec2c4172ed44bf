# LA1 production analytics, modelled in Dafny

`script.py` logs in to the LA1 (Living As One) web-event service, merges the
customer's event list into a JSON store, and then builds a report for every
event that this run added. For each new event it:

- makes one pass over the event's viewer export;
- groups the records by city, resolution, operating system and browser;
- collects the client ids, IP addresses, watch times and derived start times;
- ranks each grouping by its number of distinct clients (and, for cities, distinct IPs);
- sends a summary email unless the event's name mentions "Social Media";
- renders an HTML report with five bar charts, a watch-time histogram and two distinct totals.

This project models that core and proves its properties:

- `Grouping`: the `collections.defaultdict(list)` buckets, with the keys in insertion order.
- `Collect`: the per-record aggregation loop, as a method proved against `GroupBy`.
- `Clock`: `get_start_time` and `strftime("%H:%M:%S")`. This covers the timestamp cut at
  the first ".", the `strptime` pattern, and the `timedelta` subtraction with its overflow.
- `Ranking`: the distinct counts and the stable sort by decreasing count.
- `Report`: the chart x/y projection, the distinct totals and the template arguments.
- `Merge`: the new-event merge loop and the new-event filter.
- `Notify`: the "Social Media" test.
- `Pipeline`: the report loop over the store.

The user-agent parser, the HTTP requests and the viewer export are parameters of the
model: `Classifier`, `StatusSource` and `ExportSource`.

## Model

| member | source | states |
|---|---|---|
| `Viewers.Show` | script.py:173 | an f-string renders a present city or state as itself and a JSON null as "None", so the record stays in the city grouping under that key |
| `Viewers.Key` | script.py:173-180 | the bucket key of a record along each dimension; its shape is stated by `Viewers.KeyShape` |
| `Viewers.KeyShape` | script.py:173-180 | the city key is city ", " state; the resolution key is "_" then the resolution; the OS and browser keys are the classifier's families |
| `Viewers.ResolutionKeyInjective` | script.py:174 | two records share a resolution bucket if and only if their resolutions are equal |
| `Viewers.CityKeyCollides` | script.py:173 | two different cities can share one bucket when a name contains ", " |
| `Viewers.IdsOf` | script.py:181-182 | the client-id or IP list has one entry per record, in record order |
| `Grouping.Append` | script.py:173-180 | `level[k].append(v)` on a `defaultdict(list)`; stated by `Grouping.AppendSpec` |
| `Grouping.GroupBy` | script.py:163-180 | the buckets after appending every record in order under its key; related to the filter `Grouping.Having` and to first-seen key order by `Grouping.GroupByMembers` and `Grouping.GroupByKeys` |
| `Grouping.AppendSpec` | script.py:173-180 | `level[k].append(v)` puts v at the end of k's bucket (new and empty if k is new), leaves every other bucket alone, and adds k to the end of the key order exactly when it is new |
| `Grouping.GroupByValid` | script.py:163-180 | the key order lists each key once, and exactly the keys of the map |
| `Grouping.GroupBySnoc` | script.py:172-180 | grouping one more record appends it under its key |
| `Grouping.Place` | script.py:173-180 | one append step turns the grouping of the records so far into the grouping with the next record |
| `Grouping.KeysOf` | script.py:173-180 | one key per record, in record order |
| `Grouping.Having` | script.py:172-180 | exactly the records with key k, and no more records than the input |
| `Grouping.GroupByKeys` | script.py:163-180 | the key order is the records' keys, each once, in first-seen order |
| `Grouping.GroupByMembers` | script.py:172-180 | each bucket holds exactly the records with its key, in record order |
| `Grouping.HavingNone` | script.py:172-180 | a key that was never appended to has no records |
| `Grouping.GroupByTotal` | script.py:172-180 | the bucket sizes add up to the number of records: none is dropped or counted twice |
| `Grouping.GroupByPlaces` | script.py:172-180 | every record is in the bucket of its own key |
| `Grouping.GroupByNonEmpty` | script.py:172-180 | no bucket of a grouping is empty |
| `Clock.DaysInMonth` | script.py:152 | a month has 28 to 31 days |
| `Clock.DigitChar` | script.py:186 | the digit character of a value below 10 reads back as that value |
| `Clock.Pad2` | script.py:186 | two zero-padded digits that read back as the value |
| `Clock.Pad4` | script.py:152 | four zero-padded digits that read back as the year |
| `Clock.DigitRun` | script.py:152 | the longest run of ASCII digits from a position |
| `Clock.Number` | script.py:152 | a one- or two-digit field lies in its range and advances the position |
| `Clock.ParseIso` | script.py:152 | a text that "%Y-%m-%dT%H:%M:%S" accepts gives a date and time that exists |
| `Clock.FormatIso` | script.py:152 | the zero-padded text of a date and time is 19 characters long |
| `Clock.MaxSecondsIsLatest` | script.py:153 | the bound on the subtraction is 9999-12-31T23:59:59 |
| `Clock.MoveBack` | script.py:153 | subtracting the minutes succeeds if and only if the result stays between 0001-01-01 and 9999-12-31; otherwise it overflows; the result is a time of day |
| `Clock.BeforeDot` | script.py:151 | `ts.index(".")` raises if and only if there is no "."; otherwise the result is the text before the first "." |
| `Clock.StartTime` | script.py:150-153 | a timestamp fails with NoFraction if and only if it has no "."; a result is a time of day |
| `Clock.FormatClock` | script.py:185-187 | "%H:%M:%S" is 8 characters of three digit fields within range that read back as the time of day |
| `Clock.StartTimeOutcomes` | script.py:150-153 | the derivation is Malformed exactly when the pattern rejects the text and OutOfRange exactly when the subtraction leaves the datetime range |
| `Clock.StartTimeOfDay` | script.py:150-153 | a derived start time is the timestamp's time of day minus the watched minutes, modulo 24 hours |
| `Clock.MoveBackTimeOfDay` | script.py:153 | whole days drop out of the subtraction |
| `Clock.StartTimeIsMoveBack` | script.py:150-153 | once the text parses, the derivation is the subtraction |
| `Clock.ParseFormatIso` | script.py:152 | the pattern reads back the zero-padded text of every valid date and time |
| `Collect.StartClock` | script.py:184-188 | a record's "%H:%M:%S" start time exists exactly when get_start_time succeeds; otherwise it fails with the same error |
| `Collect.WatchTimes` | script.py:183 | one watch time per record, in record order |
| `Collect.DerivedAll` | script.py:184-188 | a derived start-time list holds, at each index, that record's start time |
| `Collect.FirstFailure` | script.py:172-188 | a failing record after a run of derivable ones is the first failure of the export |
| `Collect.ListsSnoc` | script.py:181-183 | each record adds one entry to the end of each list |
| `Collect.Visit` | script.py:173-188 | one loop iteration keeps the four buckets and three lists equal to the grouping and lists of the records so far, and appends the start time |
| `Collect.CollectViewers` | script.py:163-188 | the loop succeeds if and only if every record's start time can be derived. On failure it names the first record that raises and its error. On success the four bucket maps are the groupings of all records, each list has one entry per record in record order, and each start time is that record's |
| `Ranking.DistinctCount` | script.py:192 | `len(set(v[identity] for v in viewer_list))`; bounded by `Ranking.DistinctCountBounds` and equated to a set over the records by `Ranking.TallyCounts` |
| `Ranking.DistinctCountBounds` | script.py:192 | a bucket's distinct count is at most its size, and at least 1 when the bucket is non-empty |
| `Ranking.DistinctCountDuplicate` | script.py:192 | a record whose identity is already in a bucket does not change its count |
| `Ranking.Tally` | script.py:191-194 | the unsorted comprehension gives one (key, distinct count) pair per key, in key order |
| `Ranking.LabelsOf` | script.py:60 | the x list of a series holds the labels in series order |
| `Ranking.TallyBounds` | script.py:190-224 | every unsorted count is between 1 and its bucket's size |
| `Ranking.TallyLabels` | script.py:190-224 | the unsorted labels are the records' keys in first-seen order |
| `Ranking.ElemsIdsOf` | script.py:95-96 | `set` of the identity list is the set of the records' identities |
| `Ranking.HavingIdentities` | script.py:192 | the identities of a bucket's records are the identities of the records with that key |
| `Ranking.TallyCounts` | script.py:190-224 | each unsorted count is the number of distinct identities among the records with that key, computed without the buckets |
| `Ranking.TallyDuplicate` | script.py:190-224 | a record that repeats both the key and the identity of an earlier record leaves the series unchanged |
| `Ranking.Insert` | script.py:195 | one step of the stable sort by decreasing count; stated by `Ranking.InsertSorted`, `Ranking.InsertPermutes` and `Ranking.InsertWithCount` |
| `Ranking.Rank` | script.py:190-196 | `sorted(..., key=lambda x: -x[1])`; shown sorted, a permutation and stable by `Ranking.RankSorted`, `Ranking.RankPermutes` and `Ranking.RankStable`, and the only such order by `Ranking.RankUnique` |
| `Ranking.WithCountConcat` | script.py:195 | selecting one count class distributes over concatenation |
| `Ranking.InsertPermutes` | script.py:195 | an insertion step adds its pair and loses none |
| `Ranking.InsertLabels` | script.py:195 | an insertion step adds its label and loses none |
| `Ranking.InsertSorted` | script.py:195 | inserting into a series sorted by decreasing count keeps it sorted |
| `Ranking.InsertWithCount` | script.py:195 | an insertion step puts its pair after every earlier pair with the same count |
| `Ranking.RankSorted` | script.py:190-196 | the ranked series is sorted by decreasing count |
| `Ranking.RankPermutes` | script.py:190-196 | the ranked series is a permutation of its input |
| `Ranking.RankLabels` | script.py:190-196 | the ranked labels are a permutation of the input labels |
| `Ranking.RankStable` | script.py:190-196 | among pairs with equal counts the ranked series keeps the input order |
| `Ranking.InsertLast` | script.py:195 | a pair no larger than every count goes at the end |
| `Ranking.RankOfSorted` | script.py:190-196 | a series already sorted by decreasing count ranks to itself |
| `Ranking.RankIdempotent` | script.py:190-196 | ranking a ranked series again changes nothing |
| `Ranking.WithCountMembers` | script.py:195 | a count class holds exactly the pairs with that count |
| `Ranking.SortedUnique` | script.py:195 | two sorted series that agree on every count class are equal |
| `Ranking.RankUnique` | script.py:190-196 | the ranking is the only order that is sorted by decreasing count and stable, which is what the stable sort delivers |
| `Ranking.Series` | script.py:190-224 | one of the five ranked series: the buckets counted by an identity, then ranked; stated by `Ranking.SeriesSpec`, `Ranking.SeriesCounts` and `Ranking.SeriesLabels` |
| `Ranking.SeriesSpec` | script.py:190-224 | each ranked series is a sorted, stable permutation of the unsorted pairs; every label is a key, and every count lies between 1 and its bucket's size |
| `Ranking.SeriesCounts` | script.py:190-224 | every ranked count is the number of distinct identities among the records with its label |
| `Ranking.SeriesLabels` | script.py:190-224 | the ranked labels are the grouping's keys, each once |
| `Report.CountsOf` | script.py:61 | the y list of a series holds the counts in series order |
| `Report.Zip` | script.py:60-61 | equally long x and y lists pair up position by position |
| `Report.ZipProjections` | script.py:60-61 | the x and y projections zip back to the series |
| `Report.ProjectZip` | script.py:60-61 | projecting a zip gives back its x and y lists |
| `Report.BarOf` | script.py:58-63 | a bar chart whose `x` is the labels and `y` the counts of a series; stated by `Report.BarOfSpec` |
| `Report.BarOfSpec` | script.py:58-63 | a bar chart's x and y lists have the series' length and zip back to it |
| `Report.GatheredComplete` | script.py:163-188 | every bucket key of collected data has its bucket |
| `Report.LevelGathered` | script.py:163-180 | the collected bucket maps are the groupings along their dimensions |
| `Report.Charts` | script.py:57-94 | the five bar charts in template order, then the watch-time histogram; stated by `Report.ChartTitles`, `Report.ChartsSpec` and `Report.BarChartSpec` |
| `Report.ChartTitles` | script.py:57-94 | there are six charts: five bar charts with their titles in template order, then the "Watch Times (mins)" histogram of the watch times |
| `Report.ChartsSpec` | script.py:57-94 | bar chart i is the ranked series of its dimension and identity over all records; the histogram shows one watch time per record |
| `Report.BarChartSpec` | script.py:57-94 | in each bar chart x and y have equal length, x lists each key of its dimension once, y never increases, and each y is the distinct-identity count for its x |
| `Report.BarFacts` | script.py:190-224 | a ranked series shows each key once, with non-increasing counts, each equal to the distinct-identity count for its key |
| `Report.DistinctIps` | script.py:95 | `len(set(ips))`; stated by `Report.DistinctTotalsSpec` |
| `Report.DistinctClients` | script.py:96 | `len(set(client_ids))`; stated by `Report.DistinctTotalsSpec` |
| `Report.DistinctTotalsSpec` | script.py:95-96 | the distinct totals count the distinct IPs and client ids of all records: at most one per record, at least 1 when there are records |
| `Report.DistinctTotalsDuplicate` | script.py:95-96 | a record repeating a known client id and IP changes neither total |
| `Report.RenderArgsAsWritten` | script.py:53-97 | the template arguments as written, with the event's name in the name, start-time and id fields; stated by `Report.RenderArgsAsWrittenMislabels` |
| `Report.RenderArgsAsWrittenMislabels` | script.py:53-56 | as written, the report shows the right start time, and separately the right id, exactly when that value equals the event's name |
| `Report.RenderArgsAsWrittenCounterexample` | script.py:54-56 | an ordinary event whose report, as written, shows its name as its start time and id |
| `Report.RenderArgs` | script.py:53-97 | the corrected template arguments: each header field comes from its own key, with the six charts and both distinct totals |
| `Report.RenderArgsCorrects` | script.py:53-97 | the correction changes only the start time and id fields |
| `Merge.EventIds` | script.py:121 | the stored ids, in store order |
| `Merge.Uuids` | script.py:119-120 | the fetched uuids, in fetch order |
| `Merge.Fetch` | script.py:124-138 | the stored form of a fetched event: its uuid, start time and name, with the status and export of its uuid |
| `Merge.MergeOne` | script.py:120-139 | one iteration of the merge loop: a uuid already stored is skipped, otherwise the fetched event is appended |
| `Merge.Merged` | script.py:118-139 | the store after every fetched event, in fetch order; stated by `Merge.MergedIds`, `Merge.MergedKeepsStored`, `Merge.MergedIdsProperties` and `Merge.MergedAdded` |
| `Merge.MergedIds` | script.py:118-139 | after the merge, the store's ids are the old ids followed by the fetched uuids that were not stored, each once, in fetch order |
| `Merge.MergedKeepsStored` | script.py:118-139 | stored events are never changed or reordered |
| `Merge.MergedIdsProperties` | script.py:118-139 | every fetched uuid ends up stored; distinct ids stay distinct; no added id was already stored |
| `Merge.MergedAdded` | script.py:124-139 | each added event is the first fetched event with its uuid, with its status and export attached |
| `Merge.MergeEvents` | script.py:118-139 | the loop produces the merged store, and `new_uuids` is the fetched uuids not yet stored, each once, in fetch order |
| `Merge.NewOnly` | script.py:156-159 | the events the report loop does not skip, in store order; stated by `Merge.NewOnlyMembers` and `Merge.MergedNewOnly` |
| `Merge.NewOnlyMembers` | script.py:156-159 | the new-event filter keeps exactly the events whose id is new |
| `Merge.NewOnlyConcat` | script.py:156-159 | the filter distributes over concatenation |
| `Merge.MergedNewOnly` | script.py:118-159 | the report loop visits exactly the events this merge added, in the order they were added |
| `Notify.ContainsFrom` | script.py:228 | the substring scan from one start position; stated by `Notify.ContainsFromSpec` |
| `Notify.Contains` | script.py:228 | Python's `sub in s` on strings; stated by `Notify.ContainsSpec` |
| `Notify.ShouldEmail` | script.py:228-229 | `"Social Media" not in event["name"]`; stated by `Notify.ShouldEmailSpec` |
| `Notify.ContainsFromSpec` | script.py:228 | scanning from a position finds the phrase if and only if it occurs at or after that position |
| `Notify.ContainsSpec` | script.py:228 | `sub in s` holds if and only if sub occurs at some position of s |
| `Notify.ShouldEmailSpec` | script.py:228 | the email is skipped if and only if "Social Media" occurs in the name |
| `Notify.SocialMediaAnywhere` | script.py:228 | any text around "Social Media" still suppresses the email |
| `Notify.ShortNameEmailed` | script.py:228 | a name shorter than the phrase always gets the email |
| `Notify.CaseSensitive` | script.py:228 | the test is case-sensitive: "social media" does not suppress the email |
| `Pipeline.ReportEvent` | script.py:161-238 | an event's report exists if and only if all its start times derive. On failure it names the first failing record. On success the data is gathered from the event's records, the email decision follows the name, and the template arguments are the corrected ones |
| `Pipeline.ReportNewEvents` | script.py:156-238 | the loop succeeds if and only if every new event is reportable, and then reports the new events one for one in store order. Otherwise it stops at a new event, names that event's first record whose start time raises and its error, and every earlier new event was reportable |
| `Pipeline.NewOnlyPrefix` | script.py:156-159 | every new event of a prefix of the store is a new event of the store |

## Left out

- Logging in, the event-list request and the two per-event detail requests (script.py:100-109, 129-138). These are network I/O. The fetched list is an input, and the status and export requests are the function parameters `StatusSource` and `ExportSource`.
- Reading and writing the JSON store and the template file (script.py:112-116, 142-147). This is file I/O; the store is an input and an output of `Merge.MergeEvents`.
- `send_email` (script.py:38-49). This is SMTP; the model keeps only the decision to send (`Pipeline.EventReport.emailed`).
- Jinja rendering and writing the HTML file (script.py:231-238). The model stops at the keyword arguments of `template.render` (`Report.TemplateArgs`); the output path is not modelled.
- `secrets` configuration (script.py:25-35). These are constants of the deployment.
- ua_parser (script.py:176, 179). Its rule table is external code; it is the total function parameter `Viewers.Classifier`.
- JSON values: the public status is reduced to the two counters the email quotes, and every record carries every field the loop reads. `clientId`, `ipAddress`, `resolution`, `userAgent` and `timestamp` are always strings in the model: a JSON-null resolution, which the f-string at script.py:174 would render as "_None", is not modelled, nor is a null user agent or timestamp. The `KeyError` of a missing field is not modelled. `watchTimeMinutes` is an integer, so fractional minutes and non-numeric values are not modelled.
- `strptime` accepts Unicode decimal digits in numeric fields; the model reads ASCII digits only. The `%S` range 0-61 is kept, but 60 and 61 are rejected as datetime construction rejects them.
- `Collect.CollectViewers`: when a record's start time raises, the script has already appended that record to the four buckets and three lists. The exception ends the run, so the model returns only the failing index and error, not the partly updated lists.
- `Pipeline.ReportNewEvents`: the emails and files written for events before a failing one are not modelled as effects; the model returns only the failure.
- `Pipeline.ReportEvent`: the modelled report renders the corrected header (`Report.RenderArgs`: the start time and id each from their own key), not the one script.py:54-56 renders, which repeats the event's name in all three header fields; that as-written header is `Report.RenderArgsAsWritten`, and `Report.RenderArgsCorrects` states that the two differ only in those two fields.
- `Pipeline.ReportNewEvents`: its reports carry the corrected header of `Pipeline.ReportEvent`, not the as-written header of script.py:54-56; `Report.RenderArgsCorrects` relates the two.

## Findings

| source | as written | input that shows it | evidently intended | confidence | as-written member | corrected member |
|---|---|---|---|---|---|---|
| script.py:55-56 | `start_time=event["name"]` and `event_id=event["name"]` give the template the event's name for both fields | event with id "4f2a", start time "2024-03-01T18:00:00Z" and name "Sunday Service": the report shows "Sunday Service" as its start time and its id | `start_time=event["start_time"]` and `event_id=event["event_id"]`, as the email subject and the output file name use them (script.py:45, 234) | high (not executed) | `Report.RenderArgsAsWrittenCounterexample` | `Report.RenderArgs` |
