# YouTube playlist duration: a Dafny model

The service takes a YouTube playlist id, fetches the playlist's videos and reports how long the playlist runs. It reports the total, the average, and the running time at several playback speeds.

This project models the integer and string arithmetic behind that report. It has three parts, all in `server.js`.

- **`parseDuration`** (module `Duration`). It reads a video's ISO 8601 duration text, such as `PT1H2M3S`, with the unanchored regular expression `/PT(\d+H)?(\d+M)?(\d+S)?/`, and returns whole seconds.
  - The match starts at the leftmost `"PT"`.
  - After it come optional captures, in the order hours, minutes, seconds. Each capture is a maximal run of ASCII digits followed by its designator letter.
  - `parseInt(capture) || 0` reads the digits of a capture, and gives 0 for a group that did not take part in the match.
  - When the text holds no `"PT"`, the match is `null` and indexing it throws a `TypeError`. The model returns `None` there.
- **`formatDuration`** (module `Format`), on whole seconds.
  - It splits seconds into hours, minutes and seconds by floor division and remainder.
  - It prints them as unpadded decimals joined by `:`.
  - Decimal printing and digit reading are in module `Decimal`.
  - `Format.ParseClock` reads an `h:m:s` display back into seconds. It has no counterpart in the source; it exists to state the round trip of `formatDuration`.
- **The summation loop** of the `/api/:id` handler (module `Total`). It adds `parseDuration` of every video's `contentDetails.duration` into `totalDuration`, in the order of the fetched `items` array.
  - The method `SumDurations` keeps the loop and its accumulator.
  - It is proved equal to the recursive sum `TotalSeconds`.
  - A duration that throws aborts the loop. The handler then answers with status 500, and the model returns `None`.

`Wrappers` holds the `Option` type used for `null`, `undefined` and a thrown exception.

With no `"PT"` in the text, `match` returns `null` and `match[1]` throws a `TypeError`. `ParseDuration` is `None` exactly then, and the total is `None` whenever one video's duration lacks `"PT"`.

## Model

| member | source | states |
|---|---|---|
| Duration.FindPT | server.js:89 | the match starts at the leftmost "PT": the result is a "PT" position with none before it, or there is no "PT" at all |
| Duration.DigitRun | server.js:89 | the greedy `\d+` takes a prefix made only of digits, and stops at a non-digit or at the end of the text |
| Duration.Group | server.js:89 | an optional group `(\d+X)` captures a prefix of at least one digit followed by X; when it captures nothing, no digit run at that point is followed by X |
| Duration.MatchGroups | server.js:89 | the hours, minutes and seconds captures lie one after another, in that order, at the start of the text after "PT" |
| Duration.MatchPattern | server.js:89 | the match is `null` exactly when the text holds no "PT" |
| Duration.ParseLeadingPT | server.js:89-93 | text that begins with "PT" is matched right there, and its seconds come from the groups matched after it |
| Duration.ParseDuration | server.js:88-94 | fails (the `null` match is indexed) exactly when the text holds no "PT", and otherwise yields a natural number; ParseIsoTime, ParseIsoTimeThen and LateComponentIgnored give its value |
| Duration.ParseIntOrZero | server.js:90-92 | on a capture of digits followed by a designator, the number those digits write; 0 for an `undefined` group |
| Duration.Seconds | server.js:93 | the weighted sum of the three parsed captures; SecondsOfComponents gives it for the components of a duration |
| Wrappers.OrZero | server.js:90-92 | the default to 0 of a count that may be absent; ParseIntOfComponent shows it is what a group yields |
| Duration.ParseIntOfComponent | server.js:90-92 | parseInt of a capture, or 0, gives the number written in a captured component, and 0 for a missing one |
| Duration.MatchComponents | server.js:89 | on `nH`/`nM`/`nS` components in order, each group captures exactly its own component and nothing when it is absent |
| Duration.SecondsOfComponents | server.js:93 | the captures of h, m and s components weigh as h*3600 + m*60 + s, missing ones as 0 |
| Duration.ParseIsoTimeThen | server.js:88-94 | "PT[hH][mM][sS]" followed by text that no group still to be tried can capture gives h*3600 + m*60 + s; what follows is ignored |
| Duration.ParseIsoTime | server.js:88-94 | for any present-or-absent h, m, s, parsing "PT[hH][mM][sS]" gives h*3600 + m*60 + s, each missing component counting 0 |
| Duration.LateComponentIgnored | server.js:89 | components are recognised only in the order H, M, S: after "PT[hH][mM][sS]", a component whose designator is not still to come (hours after minutes or seconds, minutes after seconds, a repeat, any other mark) ends the match and it and all after it are ignored |
| Duration.FullExample | server.js:88-94 | "PT1H2M3S" gives 3723 |
| Duration.MissingComponentExamples | server.js:90-92 | "PT2M" gives 120: the missing hours and seconds count 0 |
| Duration.BarePTExample | server.js:89-93 | "PT" alone gives 0 |
| Duration.OneMinuteExample | server.js:90-93 | "PT1M" gives 60 |
| Duration.LoneSecondsExample | server.js:90-93 | "PT45S" gives 45 |
| Duration.OutOfOrderExample | server.js:89 | "PT1M2H" gives 60 |
| Duration.SecondsFirstExample | server.js:89 | "PT1S2M" gives 1 |
| Duration.FractionalSecondsExample | server.js:89 | "PT1.5S" gives 0: no group captures "1." |
| Duration.DayDesignatorExamples | server.js:89-90 | day designators are not supported: "P1D" and "P1DT2H" hold no "PT", so parsing fails |
| Decimal.ToDecimal | server.js:100 | an integer is printed as a non-empty run of digits whose value is the number, with no leading zero except for 0 itself |
| Decimal.ToDecimalOfValue | server.js:100 | printing is the only canonical spelling: a numeral without a leading zero is printed back exactly |
| Format.Split | server.js:97-99 | hours*3600 + minutes*60 + seconds == d, with minutes and seconds below 60 |
| Format.SplitUnique | server.js:97-99 | that decomposition is the only one with minutes and seconds below 60 |
| Format.FormatDuration | server.js:96-101 | the `h:m:s` display; FormatShowsFields, FormatRoundTrip and FormatInjective characterise it |
| Format.FormatShowsFields | server.js:100 | the display is the three fields of any such decomposition, printed unpadded and joined by ':' |
| Format.FormatRoundTrip | server.js:96-101 | reading the `h:m:s` display back as three decimal fields gives the seconds that were formatted |
| Format.FormatInjective | server.js:96-101 | distinct durations are displayed differently |
| Format.FormatExamples | server.js:100 | 3723 shows as "1:2:3", 0 as "0:0:0", and 180 as "0:3:0" |
| Total.TotalSeconds | server.js:59-62 | the handler's total as a recursive sum; SumDurations, TotalFailsIff and TotalIgnoresOrder characterise it |
| Total.SumDurations | server.js:59-62 | the loop's result is the sum of the parsed durations of all videos in order, or a failure when one of them throws |
| Total.SumPrefixStep | server.js:61 | each step adds exactly one video's parsed seconds to the running total, or makes the whole total fail |
| Total.SumAppend | server.js:59-62 | the total over two consecutive runs of videos is the sum of their totals |
| Total.MapDurationsAt | server.js:60-61 | the i-th term of the sum is the parsed duration of the i-th video |
| Total.SumFailsIff | server.js:60-61 | a sum fails exactly when one of its terms failed |
| Total.TotalFailsIff | server.js:59-62 | the total fails exactly when some video's duration holds no "PT" |
| Total.SumBoundsEach | server.js:59-62 | a total, when there is one, is at least each video's parsed duration |
| Total.SumIgnoresOrder | server.js:59-62 | reordering the terms of a sum does not change it |
| Total.TotalIgnoresOrder | server.js:59-62 | the total does not depend on the order in which the videos come back |
| Total.PlaylistExample | server.js:59-62 | two videos of "PT1M" and "PT2M" total 180 seconds |

## Left out

- The Express app, the routes `/` and `/api/:id`, the response body, the 500 answer and `app.listen` (server.js:1-6, 49-58, 75-86, 103-105). They are HTTP framework plumbing. The model keeps only the abort: a failed total is `None`.
- `fetchPlaylistItems`, `fetchVideoItems` and `fetchPlaylistInfo` (server.js:8-47). They are network calls to the YouTube Data API, with pagination driven by the upstream page tokens and an API key from the environment. The model takes the fetched videos as a parameter of `SumDurations`.
- The average and the playback-speed durations (server.js:63-68). They are floating-point divisions. An empty playlist makes the average `0/0 = NaN`.
- `formatDuration` on fractional or `NaN` input (server.js:70, 73). That is float `Math.floor` and `%` behaviour. The model formats natural numbers only.
- `console.log` and `console.error` output (server.js:69-74, 83).
- JavaScript number precision. `parseInt` and the additions work on IEEE doubles, so digit runs or totals above 2^53 lose precision. Printing switches to exponent notation from 10^21 up. The model uses unbounded naturals.
- A duration that is not a string, or a missing `contentDetails`. `String.prototype.match` or the property access would throw a different exception. The model takes every duration as text.
- Day, week, month and year designators, and fractional seconds. The source does not support them, and the model does the same. Text without `"PT"` fails. Anything that follows the last recognised time component is ignored, so "PT1.5S" gives 0.
- The whitespace and sign handling of `parseInt`. It cannot be reached, because every capture starts with a digit.
