# bclog — a verified model of the log classifier

bclog tails a development machine's syslog. It turns every line into a typed
event and keeps the events in memory. An interactive prompt answers queries
about them. This project models the core of that pipeline in Dafny:

- **Framing** (`Framing`): a raw syslog line is split into its date, its
  source and its message by the frame pattern of `getEvent`.
- **Parsers**:
  - the Nginx access and error parser (`NginxParser`);
  - the `name[pid]: content` process parser (`ProcessParser`), which hands
    `bigcommerce_app` messages to the application parser (`AppParser`);
  - the five-pattern PHP parser (`PhpParser`);
  - the `name: content` fallback parser (`GenericParser`).

  Each parser's regular expressions are transcribed into a small regular
  expression engine (`Regexp`) with Go's leftmost-first semantics.
  For the frame, process and generic patterns, lemmas show the first match
  in plain string terms (`Framing.FrameMatch`, `ProcessParser.ProcessMatch`,
  `GenericParser.GenericMatch`). For the Nginx, application and PHP patterns,
  lemmas state what the captures hold (digit strings, required prefixes) and
  how the event is built from them. They do not state what each capture is
  as a plain function of the message.
- **Dispatch** (`Dispatch`): the parsers are tried in order Nginx, process,
  PHP, generic; the first event wins.
- **Event model** (`Events`): every event has a category key (`Summary`),
  a timestamp and a suppression rule against the `Settings` record.
- **Store** (`Store.LogStore`): the class holds
  - `history`, every event in arrival order;
  - `statistics`, one bucket per category key. A bucket holds a placeholder
    followed by the history positions of that category's events.

  Its methods are:
  - `ReadLine`, one turn of the tail loop;
  - `GetEvent`, the dispatch with the correlator, which attaches a stack frame
    event to the most recent PHP error in the history;
  - the queries `summary` (`Summarize`/`Lines`) and `show` (`Show`);
  - the numeric detail lookup (`Detail`).
- **Prompt** (`Repl`): `ParseCommand` splits a prompt line into a command.
  `Execute` runs the command against the store.

Integers from `strconv.ParseInt(s, 10, 32)` are checked against the signed
32-bit range (`Text.ParseInt32`). A value out of that range, or a
`log.Fatalf` path, ends the process in the source. In the model it is an
`Err(message)` result. Timestamps and durations are integers, counted in
nanoseconds. The environment's services are function parameters:
- `time.Parse` is `TimeParser`;
- `time.ParseDuration` is `DurationParser`;
- `regexp.MatchString` is `RegexMatcher`;
- `json.Unmarshal` of a store context is `ContextDecoder`.

Notes on the code as written:
- The frame pattern's month list has no `Sep`. Every September syslog line is
  therefore unframed and dropped. This is modelled as written and shown by
  `Framing.SeptemberUnframed` and `Dispatch.SeptemberIgnored`.
- In an uncaught-exception trace, the entry pattern ends in a lazy
  `(?P<details>.*?)`, so every entry's `details` capture, and with it the
  frame's method name, is empty. `PhpParser.EntriesAreHeads` states this.
- A trace entry whose number overflows reports the exception's captures
  (events/php.go:266-282), not the entry's captures, in its message. The
  model keeps those messages.
- A `PhpStackTrace` event's key `php-stack-trace` is also the key of a PHP
  error whose level is `stack-trace`. The two are counted in one bucket
  (`PhpParser.FrameCategory`).
- Generic suppression asks for a generic-names list that the settings
  interface does not offer. The model gives generic events no suppression
  (`Events.SuppressOutsidePhp`).
- In Go, `statistics` buckets and `history` refer to the same event values, so a frame
  attached to a PHP error is seen through both. The model's buckets hold
  history positions, which keeps that sharing (`Store.LogStore.Correlate`
  leaves `statistics` unchanged).

## Model

| member | source | states |
|---|---|---|
| Text.Split | main.go:74 | `strings.Split(line, " ")` yields at least one part and no part contains a space |
| Text.JoinSplit | main.go:74 | joining the parts of a line with single spaces gives the line back |
| Text.SplitJoin | main.go:74 | splitting space-joined, space-free words gives the words back |
| Text.ParseInt32 | main.go:89 | `ParseInt(s, 10, 32)` succeeds only inside the int32 range; an unsigned numeral gives its decimal value when it fits and fails when it does not; the empty string fails |
| Text.NumeralParse | main.go:89 | a sign ("", "+" or "-") followed by decimal digits parses to its signed value when that fits in int32, and is rejected otherwise |
| Text.ParseInt32Numeral | main.go:89 | parsing succeeds exactly on an optionally signed decimal numeral whose signed value fits in int32, and then gives that signed value |
| Text.FormatInt | events/nginx.go:72 | the decimal form is digits, preceded by "-" exactly for a negative number |
| Text.FormatIntRoundTrip | events/nginx.go:71-73 | parsing the decimal form of an int32 gives the number back |
| Text.FormatIntInjective | events/nginx.go:71-73 | distinct int32 status codes have distinct decimal forms, hence distinct category keys |
| Text.ReplaceNullLeavesNone | events/bigcommerce-app.go:119-120 | after replacing every "NULL" by "0" no "NULL" occurrence is left |
| Text.ReplaceAll | events/bigcommerce-app.go:120 | a string without the target comes back unchanged |
| Text.CollectEach | events/php.go:261-297 | collecting per-entry results succeeds exactly when every entry succeeds, and then yields each entry's value in order |
| Text.CollectFirstError | events/php.go:261-297 | when entry k is the first failure, the whole collection fails with entry k's message |
| Events.LogEvent.AddStackTraceEvent | events/php.go:25-27 | the frame is appended to the PHP error's frames and every other field is unchanged |
| Events.LogEvent.Summary | events/event.go:14 | no contract of its own: the category keys of the seven `Summary` methods; `SummaryKind` and `SummaryNamesKind` state them |
| Events.SummaryKind | events/event.go:14 | every key starts with its kind's prefix: "nginx-access-", "nginx-error-", "process", "bigcommerce-app-", "php-" or "generic-" |
| Events.SummaryNamesKind | events/event.go:14 | events that share a key are of the same kind and PHP errors that share a key share the level; a PHP error shares the stack-frame key only when its level is "stack-trace" |
| Events.ContentSuppressed | events/php.go:114-134 | no contract of its own: `ContentSuppressedMeans` and `ContentSuppressedFails` characterise it |
| Events.ContentSuppressedMeans | events/php.go:114-134 | a PHP event is suppressed exactly when some content pattern matches and all earlier ones compiled without matching; it is shown exactly when all compile and none matches |
| Events.ContentSuppressedFails | events/php.go:114-134 | PHP suppression stops the process exactly when some pattern fails to compile and all earlier ones compiled without matching |
| Events.NameSuppressed | events/process.go:39-51 | a process name is suppressed when a listed name equals it or matches it as a pattern; a pattern that does not compile matches nothing |
| Events.Suppress | events/event.go:15 | no contract of its own: per-kind suppression; `SuppressOutsidePhp`, `NginxParser.AccessSuppression`, `NginxParser.ErrorFields`, `PhpParser.ErrorCategory` and `PhpParser.FrameCategory` state it |
| Events.SuppressOutsidePhp | events/process.go:39-51 | only PHP events can fail suppression; an application event is hidden exactly when its level is listed; a process event is hidden exactly when a listed name equals or matches its name; generic events are never hidden |
| Settings.GettersDetermineSettings | settings/settings.go:30-48 | two settings records are equal exactly when all five getters agree |
| Settings.Settings.GetBigcommerceAppSuppressLogLevels | settings/settings.go:30-32 | the application section's suppressed levels; `GettersDetermineSettings` shows the five getters determine the record |
| Settings.Settings.GetNginxSuppressStatusCodes | settings/settings.go:34-36 | the Nginx access section's suppressed status codes |
| Settings.Settings.GetPhpSuppressStackTraces | settings/settings.go:38-40 | whether stack-frame events are suppressed |
| Settings.Settings.GetPhpSuppressContentRegexes | settings/settings.go:42-44 | the PHP content patterns that suppress an error |
| Settings.Settings.GetProcessSuppressNames | settings/settings.go:46-48 | the suppressed process names or name patterns |
| Regexp.Submatch | main.go:289 | no contract of its own: `FindStringSubmatch` of an anchored pattern; `Framing.FrameMatch`, `ProcessParser.ProcessMatch` and `GenericParser.GenericMatch` give its result in plain terms |
| Regexp.FindAll | events/php.go:259 | no contract of its own: `FindAllStringSubmatch(s, -1)`; `PhpParser.EntriesAreHeads` gives the entries it finds in a trace |
| Framing.Frame | main.go:281-302 | a framed line's date is exactly the month-day-clock prefix the pattern accepts |
| Framing.FrameSplits | main.go:281-302 | a framed line is date, space, source, space, message, newline; the source has no space and no newline, and the message has no newline |
| Framing.FrameMatch | main.go:281-289 | the frame pattern's first match captures exactly the date, source and message of `Frame`, and there is no match when `Frame` fails |
| Framing.SeptemberUnframed | main.go:282 | no line starting with "Sep" matches the frame pattern |
| Framing.SeptemberNoMonth | main.go:282 | no line starting with "Sep" is framed |
| NginxParser.NewNginxLogEvent | events/nginx.go:142-231 | an event is an access or error event carrying the syslog time |
| NginxParser.AccessCaptures | events/nginx.go:147-155 | an access match's status and length captures are digit strings, and its address holds only digits and dots |
| NginxParser.AccessFirst | events/nginx.go:155-171 | the access pattern is tried first; the error pattern is tried only when the access pattern fails; there is no event exactly when both fail |
| NginxParser.AccessNeedsPrefix | events/nginx.go:147-153 | an access event or a parse failure needs the "nginx: " prefix |
| NginxParser.ErrorNeedsPrefix | events/nginx.go:159-165 | an error event needs the "nginx:  [" prefix |
| NginxParser.OtherMessagesIgnored | events/nginx.go:147-171 | a message without "nginx: " gives no event and no failure |
| NginxParser.AccessErrors | events/nginx.go:193-213 | an access match fails exactly when the time does not parse or the status or length is out of the int32 range |
| NginxParser.AccessFields | events/nginx.go:215-230 | an access event's fields are the match's captures, the parsed time and the decimal values of status and length |
| NginxParser.AccessKeys | events/nginx.go:71-73 | the access category is "nginx-access-" plus the status code; two access events share a category exactly when they share a status code |
| NginxParser.AccessSuppression | events/nginx.go:75-85 | an access event is suppressed exactly when its status code is listed |
| NginxParser.ErrorFields | events/nginx.go:173-190 | an error event's fields are the error match's captures, with zero status and length; its category is "nginx-error-" plus its level; it is never suppressed |
| ProcessParser.SplitProcess | events/process.go:62-66 | a split is name, "[", digits, "]: ", content with the shortest possible name; there is no split exactly when the message has a newline or no `[digits]: ` head |
| ProcessParser.ProcessMatch | events/process.go:62-66 | the process pattern's first match captures exactly `SplitProcess`'s name, process ID and content |
| ProcessParser.NoMatchAcrossNewline | events/process.go:62-66 | a message with a newline never matches the process pattern |
| ProcessParser.PidIsDigits | events/process.go:63 | the process-ID capture is a digit string |
| ProcessParser.NewProcessLogEvent | events/process.go:57-105 | an event is a process or application event carrying the syslog time |
| ProcessParser.ProcessEventFields | events/process.go:57-105 | no split gives no event; an out-of-range process ID stops the process; a `bigcommerce_app` name defers to the application parser; any other name gives a process event with the split's fields |
| ProcessParser.ProcessEventKinds | events/process.go:82-104 | a process event has category "process", a name that is not an application name, and an int32 process ID; an application event has an int32 process ID |
| AppParser.NewBigcommerceAppLogEvent | events/bigcommerce-app.go:81-147 | an event carries the syslog time and the caller's process ID |
| AppParser.AppEventsNeedPrefix | events/bigcommerce-app.go:87-110 | only messages starting with "BigcommerceApp." give an event |
| AppParser.AppEventCarriesCaller | events/bigcommerce-app.go:138-146 | the event keeps the process ID, syslog time and original message; its category is "bigcommerce-app-" plus its level |
| AppParser.ArgsOnlyFromMiddlePattern | events/bigcommerce-app.go:94-113 | the arguments are non-empty exactly when the strictest pattern fails and the middle pattern matches |
| AppParser.DecoderSeesNoNull | events/bigcommerce-app.go:119-125 | the store context handed to the decoder contains no "NULL" |
| AppParser.LooserPatternsIgnoreDecoder | events/bigcommerce-app.go:99-124 | when the strictest pattern fails, the decoder plays no part and the store context stays empty |
| AppParser.ContextBinds | events/bigcommerce-app.go:88-89 | the store-context capture spans at least a pair of braces, so it is never empty and is always decoded |
| AppParser.UndecodableContextGivesNothing | events/bigcommerce-app.go:124-135 | a store context the decoder rejects gives no event |
| GenericParser.SplitAtColon | events/generic.go:55-63 | a split is name, ": ", content at the first ": "; there is no split exactly when the message has a newline or no ": " |
| GenericParser.GenericMatch | events/generic.go:55-59 | the generic pattern's first match captures exactly `SplitAtColon`'s name and content |
| GenericParser.NoMatchAcrossNewline | events/generic.go:55-63 | a message with a newline never matches the generic pattern |
| GenericParser.NewGenericLogEvent | events/generic.go:50-73 | an event is a generic event carrying the syslog time |
| GenericParser.GenericEventFields | events/generic.go:50-73 | the generic event is exactly the colon split's name and content, and there is none without a split |
| PhpParser.PhpEvent | events/php.go:173-373 | an event is a PHP error or a stack frame carrying the syslog time |
| PhpParser.SqlEvent | events/php.go:198-214 | an SQL match gives a PHP error at the syslog time or stops the process |
| PhpParser.ErrorEvent | events/php.go:222-300 | an error match gives a PHP error at the syslog time or stops the process |
| PhpParser.FrameEvent | events/php.go:310-339 | a frame match gives a stack frame at the syslog time or stops the process |
| PhpParser.EvalEvent | events/php.go:348-370 | an eval-frame match gives a stack frame at the syslog time or stops the process |
| PhpParser.AttachEntries | events/php.go:258-297 | the loop appends every trace entry's frame to the error in order, and stops the process at the first entry that does not parse |
| PhpParser.NewErrorEvent | events/php.go:216-301 | the imperative error branch computes exactly `ErrorEvent` |
| PhpParser.NewPhpLogEvent | events/php.go:173-373 | the imperative parser computes exactly `PhpEvent` |
| PhpParser.SqlCaptures | events/php.go:192-196 | the SQL store ID and line captures are digit strings |
| PhpParser.ErrorCaptures | events/php.go:216-220 | the error line capture is a digit string |
| PhpParser.EntryCaptures | events/php.go:253-256 | every trace entry's index and line captures are digit strings |
| PhpParser.FrameCaptures | events/php.go:304-308 | the frame number and line captures are digit strings |
| PhpParser.EvalCaptures | events/php.go:342-346 | the eval-frame number and line captures are digit strings |
| PhpParser.EntriesAreHeads | events/php.go:253-259 | the entries found are the entry heads, in order, each with an empty details capture |
| PhpParser.HeaderFirst | events/php.go:178-190 | a "PHP Stack trace:" header gives the empty frame at the syslog time, before any other pattern |
| PhpParser.SqlShape | events/php.go:192-214 | an SQL error stops the process exactly when its line is out of range, and otherwise is the "SQL Error" event with the store ID in its content |
| PhpParser.ErrorShape | events/php.go:216-242 | an error that is not an uncaught exception stops the process exactly when its line is out of range, and otherwise carries level, content, file and line |
| PhpParser.EntryFromHead | events/php.go:261-294 | a trace entry gives a frame exactly when its index and line fit int32, and the frame holds them with the entry's file |
| PhpParser.EntryFrame | events/php.go:261-294 | no contract of its own: `EntryFromHead` states when an entry gives a frame and which |
| PhpParser.EntryFrames | events/php.go:259-297 | no contract of its own: `TraceEntry` and `TraceFrames` state its result |
| PhpParser.TraceEntry | events/php.go:261-294 | the j-th entry's result succeeds exactly when its numbers fit, and is the j-th head's frame |
| PhpParser.TraceFrames | events/php.go:259-297 | the trace yields frames exactly when every entry's numbers fit, and then one frame per entry head, in order |
| PhpParser.UncaughtShape | events/php.go:243-300 | an uncaught exception stops the process exactly when its line or some entry is out of range; otherwise its content is "type: message" and its frames are the trace's frames |
| PhpParser.FrameShape | events/php.go:303-339 | a frame line stops the process exactly when its number or line is out of range, and otherwise is the frame of its captures |
| PhpParser.EvalShape | events/php.go:341-370 | an eval frame stops the process exactly when its number or line is out of range, and otherwise is the frame of its captures |
| PhpParser.NoShape | events/php.go:173-373 | there is no PHP event exactly when none of the five patterns matches |
| PhpParser.ErrorCategory | events/php.go:106-134 | a PHP error's category is "php-" plus its level, and it is suppressed by the first content pattern that matches |
| PhpParser.FrameCategory | events/php.go:163-171 | a frame's category is "php-stack-trace", the key of a PHP error of level "stack-trace"; frames are suppressed exactly when the stack-trace setting is on |
| Dispatch.ServiceEvent | main.go:306-316 | the first two parsers give only Nginx, process or application events, at the syslog time |
| Dispatch.ClassifiedAtLineTime | main.go:304-337 | every classified event carries the line's syslog time |
| Dispatch.StackFrameFromPhp | main.go:306-331 | a stack-frame event comes from the PHP parser, after the Nginx and process parsers found nothing |
| Dispatch.EventAtLineTime | main.go:289-302 | a line gives an event only when it is framed, and the event's time is the parse of the line's date |
| Dispatch.SeptemberIgnored | main.go:282-293 | a line starting with "Sep" gives no event |
| Dispatch.Classify | main.go:304-339 | there is no event exactly when the Nginx, process and PHP parsers find nothing and the generic split fails |
| Dispatch.GetEvent | main.go:280-302 | an unframed line gives no event; an error needs a framed line; a framed date the time parser rejects stops the process |
| Store.CategoryAt | main.go:267 | the category at a history position is that event's key |
| Store.CategoriesUpdate | main.go:320-327 | replacing an event by one with the same key leaves all categories unchanged |
| Store.PositionsComplete | main.go:269-273 | a category's positions are increasing and include every history position with that key |
| Store.BucketKeys | main.go:269-271 | a bucket exists exactly for each key that occurs in the history |
| Store.BucketContents | main.go:266-273 | a bucket is the placeholder followed by the positions of its key's events |
| Store.BucketsSound | main.go:155-158 | every bucket has a non-placeholder last entry, and every entry refers into the history |
| Store.LastPhp | main.go:321-325 | the correlator's target is the last PHP error in the history, or there is none |
| Store.AttachChangesOnlyLastPhp | main.go:320-327 | attaching a frame changes only the last PHP error, appends the frame to it, and keeps every category |
| Store.AttachAt | main.go:321-325 | attaching a frame is `AddStackTraceEvent` on the last PHP error and keeps every category |
| Store.Attach | main.go:320-327 | no contract of its own: `AttachChangesOnlyLastPhp` and `AttachAt` state its result |
| Store.ListingComplete | main.go:210-215 | `show` lists history positions in increasing order, exactly those in the category (or all for "*") within the window |
| Store.ListingAbsent | main.go:210-215 | `show` of a key that never occurred lists nothing |
| Store.Listing | main.go:189-215 | every listed position is in the history; `ListingComplete` states exactly which positions are listed, in increasing order |
| Store.WindowCountSnoc | main.go:160-169 | the count grows by one exactly for a non-placeholder entry within the window |
| Store.CountsListed | main.go:160-215 | a bucket's window count equals the number of events `show` lists for the same key and window |
| Store.RowsOfStep | main.go:155-182 | each key contributes its row, and a key with a zero count is skipped |
| Store.RowsOf | main.go:155-182 | no contract of its own: `RowsOfStep` and `SummaryAgreesWithShow` state its rows |
| Store.SummaryAgreesWithShow | main.go:155-215 | `summary` has a row for a key exactly when `show` lists some event of that key in the window, and the row's count is the number listed |
| Store.LogStore.constructor | main.go:31 | the store starts with no history and no buckets |
| Store.LogStore.Ingest | main.go:266-273 | the event is appended to the history and its position to its key's bucket, created with a placeholder when new; the buckets stay consistent |
| Store.IngestStep | main.go:266-273 | the buckets of a history with one more event are the old buckets with that event's index filed under its category, so ingesting keeps `statistics` equal to the buckets of `history` |
| Store.LogStore.Correlate | main.go:320-327 | the history becomes the frame-attached history and the buckets are unchanged |
| Store.LogStore.GetEvent | main.go:280-340 | the result is the dispatch's result and the history is correlated when it is a stack frame |
| Store.LogStore.Classify | main.go:304-339 | the parser cascade gives the dispatch's result, correlating stack frames |
| Store.LogStore.ClassifyPhp | main.go:318-337 | the PHP parser's event, or the generic parser's when PHP finds nothing, with stack frames correlated |
| Store.LogStore.ReadLine | main.go:254-274 | a line that gives no event leaves the store as correlated; an event is appended and reported as shown exactly when not suppressed; a stopped process reports its message |
| Store.LogStore.CountRecent | main.go:160-169 | the loop counts exactly the bucket's events within the window |
| Store.LogStore.Summarize | main.go:126-187 | the rows are the per-key window counts for the window chosen by the arguments |
| Store.LogStore.Lines | main.go:155-182 | the loop over the buckets builds exactly the rows of every key with a non-zero count |
| Store.LogStore.Show | main.go:189-217 | fewer than two arguments list nothing; otherwise the listing is the category's events in the window |
| Store.LogStore.Detail | main.go:89-93 | the lookup succeeds exactly for a position within the history, and gives the event there |
| Repl.ParseCommand | main.go:74-97 | a detail command's index is within the int32 range |
| Repl.NumeralHasNoSpace | main.go:89 | a line `ParseInt` accepts contains no space |
| Repl.DetailRoundTrip | main.go:88-93 | the decimal form of any int32 is the detail command for that number |
| Repl.DetailOnlyFromNumeral | main.go:88-96 | a detail command comes only from a one-word line that parses as its index |
| Repl.NonCommandLine | main.go:80-96 | a line whose first word is no command word is a detail command exactly when it is an int32 numeral, for the numeral's signed value, and is unrecognised otherwise |
| Repl.SignedNumeralLines | main.go:88-93 | "-3" asks for event -3 and "+3" for event 3 |
| Repl.NonNumeralLines | main.go:88-96 | "-", "abc" and "1x" are unrecognised commands |
| Repl.ShowRoundTrip | main.go:85 | "show" followed by space-free arguments is the show command with those arguments |
| Repl.SummaryRoundTrip | main.go:86 | "summary" followed by space-free arguments is the summary command with those arguments |
| Repl.LeadingSpaceIsSummary | main.go:81 | an empty line, or one starting with a space, is a summary since the last prompt |
| Repl.Execute | main.go:74-97 | each command gives its outcome: summary rows, a show listing, the event at an in-range index or a failure out of range, or the clear, quit, reload and unknown outcomes |

## Left out

- Printing: `PrintLine`, `PrintFull`, colours and the tab writer are left out. `show` returns the listed history positions and `summary` returns its rows as a map keyed by category.
- Go iterates `statistics` in random order. The model's summary is a map, so it has no row order.
- A summary row's "last seen" value is the integer difference between the newest event's timestamp and the category's newest timestamp. Go's duration formatting and int64 saturation are not modelled.
- The line editor is left out: tab completion (main.go:35-52), history recording and reading the prompt line.
- `clear`, `quit` and `reload` appear only as outcomes of `Execute`. Clearing the screen, `os.Exit` and `loadConfig` are not modelled, because they are terminal or file I/O. The settings record is a value given to the model.
- `readLog`'s ssh and tail process and its line reader are left out, because they are I/O. `ReadLine` models one turn of its loop.
- The prompt goroutine and the tail loop share `history` and `statistics` without locking. The model runs them one after another.
- `time.Parse`, `time.ParseDuration`, `regexp.MatchString` and `json.Unmarshal` are function parameters. The clock reading behind `summary last-prompt` is the parameter `sinceLastPrompt`.
- Repl.Execute: indexing `history` out of range panics in Go. The model returns `Err` for it.
- The texts of `log.Fatalf` messages are shortened to their fixed prefix and the offending capture. Go's error detail is not included.
- The "Could not parse" and "Could not parse store context" log lines are left out. They are output only.
- The Nginx, application and PHP patterns have no lemma that gives each capture as a plain function of the message (for example, that the Nginx error referrer is empty when ", referrer: " is absent). Their lemmas describe the captures the engine returns: digit strings, required prefixes and how the event is built from them.
- Regexp: the engine covers the constructs the source's patterns use. These are literals, classes, `.` without newline, greedy and lazy repetition, counted repetition, alternation, capture groups and the `^`/`$` anchors of a single line. It is not a model of RE2 as a whole.
