# accesslog-exporter, modelled in Dafny

This project models the core of accesslog-exporter. The exporter reads nginx access-log lines from syslog and turns each one into Prometheus metrics: request counts and response-time observations, labelled by host, status, user agent, OS, device type and URI.

The model covers these parts, each a Dafny module:

- **Tokenizers.** `SpaceParser` and `PipeParser` turn a log format and a line into a field map. `Fields` holds what the two share: the cleaning of every piece and the pairing of names with values. `GoStrings` holds the `strings` functions they rely on.
- **`Worker`.** Per-line classification:
  - the choice of log format;
  - custom user-agent rules;
  - the internal-subnet filter;
  - the user-agent cache;
  - the device-type, status, host and URI labels;
  - the response time;
  - the events each line emits.
- **`Subnets`.** The loop that tests whether an address lies in an internal subnet.
- **`LruCache`.** The bounded LRU cache of parsed user agents. It is a key map plus a recency order.
- **`Config`.** The defaults, and the compilation of the raw user-agent and request-URI rules.
- **`Exporter`.** Construction of the worker pool, and the dispatch loop as a sequential state machine.
  - An arriving line is leased to an idle worker, dropped, or cut off by cancellation.
  - A worker's completion runs `Process` and returns the worker to the pool.
- **`Metrics`.** The metric names, and the exposer as an append-only log of events (name, label values, value).
- **`StrConv`.** `strconv.Atoi` and `Itoa`.
- **`Patterns`.** The regular-expression interface.
- **`Wrappers`.** `Option` and `Result`.

## External operations as parameters

Some operations are supplied from outside as function-valued fields:

- the regular-expression engine (`MatchString`, `FindString`, `ReplaceAllString`);
- the uap user-agent parser;
- `net.ParseCIDR` and `IPNet.Contains(net.ParseIP(..))`;
- `strconv.ParseFloat`;
- the line tokenizer a worker is given.

The properties proved hold for every choice of them.

## Where the code and its documentation differ, the code is followed

- **Status `"0"`.** The status label for `"0"` is `unknown` and no error is reported (exporter/worker.go:247-248).
- **Custom user-agent rules.** They are scanned without an early exit, so the **last** applying rule wins, not the first (exporter/worker.go:164-178).
- **`strings.Trim`.** It removes every leading and trailing copy of the character, not one layer. The trims run in the order `"`, `[`, `]`, `(`, `)`.
- **The `___` sentinel.** Restoring it also turns a `___` that was already in the raw content into a space.

## Notable consequences, proved about the code as written

- **The device rules cannot see a parsed OS.** `detectUserAgentLabels` title-cases the OS family. `detectDeviceType` compares it with the lower-case names `android`, `blackberry os` and `blackberry tablet os`. On the parser path those three rules therefore never fire (`Worker.TitledOsIsNeverLowerCase`, `Worker.TitledOsIsIgnored`).
- **A stray closer unprotects spaces.** An unmatched `)` or `]` drives the frame counter negative, and spaces after it are no longer protected (`SpaceParser.UnmatchedCloserExposesSpaces`).
- **A quote inside brackets closes.** Inside brackets, a quote decrements the frame rather than opening one (`SpaceParser.QuoteInsideBracketCloses`).
- **An URI rule for another method blocks the rest.** It ends URI detection with `""`, hiding every later rule (`Worker.MethodMismatchHidesLaterRules`).

## Model

| member | source | states |
|---|---|---|
| GoStrings.TrimSpace | parser/space_parser.go:25 | the result has no white space at either end, and a string already without any is returned unchanged |
| GoStrings.Trim | parser/space_parser.go:26-30 | every leading and trailing copy of the character is removed (not one layer); a string whose ends differ from it is returned unchanged |
| GoStrings.TrimIsInfix | parser/space_parser.go:25-38 | trimming only removes characters at the two ends: the result is a contiguous part of the input |
| GoStrings.Split | parser/space_parser.go:15-16 | there is one piece more than there are separators, and no piece contains the separator |
| GoStrings.JoinSplit | parser/space_parser.go:15 | splitting loses nothing: joining the pieces back with the separator gives the input |
| GoStrings.SplitJoin | parser/pipe_parser.go:10-11 | splitting a join of separator-free pieces gives exactly those pieces back |
| GoStrings.ContainsIsInfix | exporter/worker.go:322-328 | `Contains(s, sub)` holds exactly when `sub` is a contiguous part of `s` |
| GoStrings.ReplaceAllAbsent | parser/space_parser.go:41 | a string without the first character of the target is left unchanged by the replace-all |
| GoStrings.ToLower | exporter/worker.go:171 | same length, and each character lowered on its own |
| GoStrings.Title | exporter/worker.go:208 | same length; a character is upper-cased exactly when it starts the string or follows a word separator, every other character is kept |
| Fields.CleanPiece | parser/space_parser.go:25-38 | after the cleaning sequence a piece never begins or ends with `)` |
| Fields.CleanIsInfix | parser/space_parser.go:33-38 | a cleaned piece is a contiguous part of the raw piece |
| Fields.CleanAll | parser/pipe_parser.go:18-33 | every piece is cleaned on its own and the order and the number of pieces are kept |
| Fields.CleanPlain | parser/pipe_parser.go:20-25 | a piece with no wrapper character and no white space at its ends is its own cleaned form |
| Fields.CleanUnwraps | parser/log_line_parser_test.go:37-50 | cleaning a quoted, bracketed or parenthesised piece gives its interior verbatim, inner spaces included |
| Fields.CleanUnquotes | parser/space_parser.go:34 | a quoted piece cleans to its interior |
| Fields.CleanUnbrackets | parser/space_parser.go:35-36 | a bracketed piece cleans to its interior |
| Fields.CleanUnparens | parser/space_parser.go:37-38 | a parenthesised piece cleans to its interior |
| Fields.ZipFields | parser/space_parser.go:22-44 | the map holds exactly the given names, each bound to the value paired with its last occurrence, and every value comes from the values |
| Fields.ZipFieldsDistinct | parser/space_parser.go:23-43 | with distinct names the map has one entry per piece, the k-th name bound to the k-th value |
| SpaceParser.ReplaceInnerSpacesLoop | parser/space_parser.go:51-80 | the character loop computes the recursive scan, and the spaces left in its output are exactly the exposed spaces of the input |
| SpaceParser.ExposedSpaceCount | parser/space_parser.go:72-74 | after the replacement, the remaining spaces are exactly those seen with a frame of zero or less |
| SpaceParser.ScanKeepsInk | parser/space_parser.go:54-77 | every character other than a space or an underscore is copied unchanged and in order |
| SpaceParser.ScanIsPerCharacter | parser/space_parser.go:51-80 | the output is the concatenation, in input order, of what each character is written as: itself, or `___` for a space seen inside a frame |
| SpaceParser.ScanLength | parser/space_parser.go:72-76 | the output is longer by exactly two characters per hidden space; nothing else changes the length |
| SpaceParser.UnframedContentUnchanged | parser/space_parser.go:64-74 | content with no quote, bracket or parenthesis comes back unchanged |
| SpaceParser.RestoreUndoesReplace | parser/space_parser.go:41 | restoring the sentinel undoes the replacement for content without underscores |
| SpaceParser.RestoredHasNoSentinel | parser/space_parser.go:41 | no `___` survives the restoration, whatever the raw content held |
| SpaceParser.RestoredKeepsNonDoubleUnderscore | parser/space_parser.go:41 | restoration does not create a leading `__` |
| SpaceParser.CleanValues | parser/space_parser.go:33-41 | every value is cleaned and has its sentinels restored, order and number kept |
| SpaceParser.SpacedVariables | parser/space_parser.go:15 | the format has one variable more than it has spaces |
| SpaceParser.SpacedValues | parser/space_parser.go:16 | the content has one value more than it has exposed spaces |
| SpaceParser.ParseSpacedFormat | parser/space_parser.go:14-47 | fails with the inconsistency error exactly when the format's spaces and the content's exposed spaces differ in number; otherwise pairs the k-th cleaned variable with the k-th cleaned value, the last one winning |
| SpaceParser.PlainFieldsRoundTrip | parser/space_parser.go:14-47 | joining bare names and bare values with spaces and parsing gives each name its value back; names may hold underscores, as nginx variables such as `$remote_addr` do, while values must be free of `_`, the sentinel's character |
| SpaceParser.SpacedFieldScan | parser/space_parser.go:51-80 | a bare or framed field leaves the frame counter at zero, is scanned to a piece without spaces, and cleans back to its unwrapped form |
| SpaceParser.FramedFieldsRoundTrip | parser/space_parser.go:14-47 | joining names and values, bare or framed by a quote, bracket or parenthesis pair, with single spaces and parsing gives each unwrapped name its unwrapped value, inner spaces and nested brackets kept; names may hold underscores (`[$time_local]`), values must be free of `_` |
| SpaceParser.SpacedTestLine | parser/log_line_parser_test.go:15-28 | the five-field line of the tokenizer test parses into exactly the five expected values, the quoted one with its spaces, brackets and parentheses |
| SpaceParser.SpacedValuesHaveNoSentinel | parser/space_parser.go:41-43 | no parsed value holds the sentinel |
| SpaceParser.UnmatchedCloserExposesSpaces | parser/space_parser.go:64-74 | after an unmatched `)` a bracketed space is not hidden, while one in a balanced bracket is |
| SpaceParser.QuoteInsideBracketCloses | parser/space_parser.go:56-62 | a quote inside a bracket closes a frame, so the space inside the quotes is exposed |
| SpaceParser.UnderscoreNextToFramedSpace | parser/space_parser.go:41 | an underscore next to a framed space is read back as part of the sentinel (`[a_ b]` gives `a _b`) |
| SpaceParser.SpacedCountMismatch | parser/log_line_parser_test.go:30-35 | the two-field format against a three-value line fails with the inconsistency error |
| PipeParser.PipedPieces | parser/pipe_parser.go:10-11 | one piece more than there are pipes, and no piece contains a pipe |
| PipeParser.ParsePipedFormat | parser/pipe_parser.go:9-40 | fails with the inconsistency error exactly when format and content hold different numbers of pipes; otherwise pairs the k-th cleaned variable with the k-th cleaned value |
| PipeParser.PipedFieldsRoundTrip | parser/pipe_parser.go:9-40 | joining pipe-safe names and values with `\|` and parsing gives each name its value back |
| PipeParser.PipedSplitsBack | parser/pipe_parser.go:10-33 | pipe-safe pieces joined with `\|` split and clean back into themselves |
| PipeParser.PipedPiecesParse | parser/pipe_parser.go:9-40 | pipe-free pieces joined with `\|` parse piece by piece: the k-th cleaned variable gets the k-th cleaned value |
| PipeParser.PipedFieldCleans | parser/pipe_parser.go:18-33 | a field padded with white space, bare or in a quote, bracket or parenthesis pair, holds no pipe and cleans to its word |
| PipeParser.PaddedFieldsRoundTrip | parser/pipe_parser.go:9-40 | joining padded, bare or framed names and values with `\|` and parsing gives each name's word the value's word, padding and wrappers removed, inner spaces kept |
| PipeParser.PipedTestLine | parser/log_line_parser_test.go:37-50 | the five-field piped line of the tokenizer test parses into exactly the five expected values |
| PipeParser.QuotedPipeSplits | parser/pipe_parser.go:10-11 | a pipe inside quotes still splits, so a one-field format rejects such a line |
| PipeParser.PipedCountMismatch | parser/log_line_parser_test.go:52-57 | the two-field format against a three-value line fails with the inconsistency error |
| StrConv.Atoi | exporter/worker.go:246 | a range error exactly when the digits after the sign pass 2^64 - 1 before any non-digit, or the text is a signed decimal outside 64 bits; a syntax error exactly when the text is not a signed decimal and does not overflow first; otherwise the number the decimal spells |
| StrConv.OverflowBeforeSyntax | exporter/worker.go:246 | a digit run above 2^64 - 1 is a range error whatever follows it, a stray character included |
| StrConv.OverflowThenLetter | exporter/worker.go:246 | 2^64 written out and followed by `x` is a range error, not a syntax error |
| StrConv.ShortTextNeverOverflows | exporter/worker.go:246 | a text shorter than 19 characters is never a range error, and is a syntax error exactly when it is not a signed decimal |
| StrConv.AtoiItoa | exporter/worker.go:246-251 | reading back what `Itoa` writes gives the number, for every 64-bit value |
| StrConv.AtoiOutOfRange | exporter/worker.go:246-248 | a number outside 64 bits is written out but read back as a range error |
| StrConv.ItoaCanonical | exporter/worker.go:251 | the rendering is an optionally signed decimal, never starts with `+`, and a non-negative number has no leading zero |
| StrConv.NonCanonicalStatus | exporter/worker.go:246-251 | `+200` and `0200` read as 200; the empty string, `-` and `20x` are syntax errors |
| Subnets.IsSubnetContainsIP | pkg/net/ip.go:8-21 | true only if some subnet parses and holds the address; false without error exactly when no subnet is malformed or holding; an error is the parse error of some subnet |
| Subnets.DecidedByFirstStop | pkg/net/ip.go:9-20 | the result is decided by the first subnet that is malformed or holds the address: its error, or true; false when there is none |
| Subnets.LaterSubnetsIgnored | pkg/net/ip.go:15-17 | once a decisive subnet is reached, appending more subnets, malformed or not, changes nothing |
| Subnets.NoSubnets | pkg/net/ip.go:9-20 | an empty list gives false without error |
| LruCache.NewLRUCache | cache/lru_cache.go:13-20 | fails exactly for a size that is not positive; otherwise an empty valid cache of that size |
| LruCache.Set | cache/lru_cache.go:23-25 | the key holds the value and becomes the most recently used, moved to the end of the recency order; the other keys keep their values, except that adding a new key to a full cache evicts the least recently used one, dropped from the front of that order |
| LruCache.Get | cache/lru_cache.go:28-35 | a hit exactly when the key is stored, returning its value; the stored entries are unchanged; a hit makes the key the most recently used, a miss changes nothing |
| LruCache.Len | cache/lru_cache.go:38-40 | the number of stored keys, never above the size |
| LruCache.SetLength | cache/lru_cache_test.go:39-50 | the length grows by one per new key until it reaches the size, then stays there |
| LruCache.GetAfterSet | cache/lru_cache_test.go:24-27 | a `Get` right after `Set(k, v)` finds `v` |
| LruCache.SetKeepsOthers | cache/lru_cache.go:23-35 | setting a key leaves every other surviving key's value alone |
| LruCache.SetEvictsLeastRecent | cache/lru_cache.go:7-10 | a new key in a full cache evicts the least recently used key |
| LruCache.SizeOneTrace | cache/lru_cache_test.go:15-37 | in a size-1 cache the second key evicts the first, and a key never set misses |
| LruCache.GetRefreshesKey | cache/lru_cache.go:28-35 | in a size-2 cache holding `a` then `b`, reading `a` makes a third key evict `b` and keep `a` |
| LruCache.HitThenInsert | cache/lru_cache.go:23-35 | in any full size-2 cache used `x` then `y`, a hit on `x` makes a new key evict `y` and keep `x` with its value |
| LruCache.SizeTwoLengths | cache/lru_cache_test.go:39-50 | a size-2 cache reads 1, 2, 2 after three distinct sets |
| Config.CompileUserAgentSetting | config/config.go:97-107 | a set `match_re` wins and drops `match`; otherwise the `match` text is kept; the rule is well formed |
| Config.CompileUserAgentSettings | config/config.go:96-108 | at most one rule per entry, all well formed, exactly one per entry when every entry sets a key |
| Config.CompileUserAgentSettingsAppend | config/config.go:96-108 | compilation works entry by entry over concatenated lists |
| Config.CompileOneUserAgentSetting | config/config.go:96-108 | an entry with neither key is dropped; any other gives one rule |
| Config.CompiledFromKeptEntries | config/config.go:96-108 | the i-th rule comes from the i-th kept entry, so kept entries keep their order |
| Config.CompiledCount | config/config.go:96-108 | the number of rules is the number of kept entries |
| Config.CompileRequestUriSettings | config/config.go:110-116 | one rule per raw entry, in order, with its method, expression and replacement |
| Config.MakeConfig | config/config.go:84-119 | a read or decode error is returned as is; otherwise the defaults stand wherever the file is silent and both rule lists are compiled |
| Config.DefaultsApply | config/config.go:10-13 | a file setting neither size gets 100000 cache entries and 100 workers |
| Worker.DetectFormat | exporter/worker.go:185-195 | the format of the first source of the line's host, else the default format |
| Worker.RuleLabels | exporter/worker.go:165-177 | a rule applies exactly when its expression matches, or its non-empty text equals the user agent ignoring case; a matching expression wins and gives each template expanded against the part of the user agent it finds; otherwise the exact text gives the three replacements as written |
| Worker.LastMatch | exporter/worker.go:164-178 | no labels exactly when no rule applies; otherwise those of an applying rule after which none applies |
| Worker.ScanFindsLastMatch | exporter/worker.go:164-178 | the rule loop as written finds the labels of the last applying rule |
| Worker.TryDetectCustomUserAgentLabels | exporter/worker.go:159-182 | nothing without a user agent; otherwise the labels of the last applying rule |
| Worker.LaterRuleWins | exporter/worker.go:164-178 | when two rules apply, the later one decides |
| Worker.ExactRuleIgnoresCase | exporter/worker_test.go:19-71 | the exact-text rule of the worker test matches its text in any case |
| Worker.NeedParseUserAgent | exporter/worker.go:227-241 | parsing is skipped exactly when the address is present and the subnet test answers true without error |
| Worker.LabelMapRoundTrip | exporter/worker.go:206-220 | the labels stored in the cache read back as the same labels |
| Worker.ParsedLabels | exporter/worker.go:204-210 | user agent and device are the parser's families; the OS family is title-cased |
| Worker.DetectUserAgentLabels | exporter/worker.go:198-224 | unknown labels and no events without a user agent; a hit gives the cached labels and no events; a miss parses, stores and reports the cache; the cache stays valid and keeps its size |
| Worker.SecondDetectionHits | exporter/worker.go:201-216 | a user agent seen once is a hit the next time, with the same labels and no events |
| Worker.TitledOsIsNeverLowerCase | exporter/worker.go:208 | a title-cased OS family never equals `android`, `blackberry os` or `blackberry tablet os` |
| Worker.FirstFiring | exporter/worker.go:321-365 | the decision of the first step that fires, or the fallback when none fires |
| Worker.DetectDeviceType | exporter/worker.go:315-366 | always mobile, tablet or desktop; desktop without a user agent |
| Worker.DeviceTypeIsFirstFiring | exporter/worker.go:321-365 | with a user agent, the device type is the decision of the first check in source order that fires, else desktop |
| Worker.TitledOsIsIgnored | exporter/worker.go:340-363 | with a title-cased OS family the OS plays no part in the device type |
| Worker.UnmarkedTextIsIgnored | exporter/worker.go:331-363 | without any of the looked-for markers, the text plays no part and the families alone decide |
| Worker.AppleTextIsMobile | exporter/worker.go:322-328 | text naming an iPad, iPhone or iPod is mobile, whatever the families |
| Worker.OtherMarkedTextIsMobile | exporter/worker.go:350-357 | Windows-touch or mobile text is mobile unless a family check already called it a tablet; never desktop |
| Worker.TestTextsAreMarked | exporter/worker_test.go:287-368 | the marked user agents of the device test contain their markers |
| Worker.PlainTextIsUnmarked | exporter/worker_test.go:311 | `bla bla bla` carries none of the markers |
| Worker.DeviceTypeByFamilies | exporter/worker_test.go:279-384 | the device-test cases decided by the families, and the case without a user agent |
| Worker.DetectHttpCodeLabel | exporter/worker.go:244-255 | unknown without a status; the status re-rendered by `Itoa` from its integer value when that is non-zero, so the label reads back as the same integer; unknown with the parse error otherwise, and `0` gives unknown with no error |
| Worker.HttpCodeExamples | exporter/worker_test.go:143-171 | `200`, `invalid`, a missing status and `0` as in the worker test |
| Worker.HostReplacement | exporter/worker.go:285-291 | no replacement exactly when no rule names the host; otherwise that of the first rule naming it |
| Worker.DetectHostLabel | exporter/worker.go:282-297 | unknown without a host; otherwise the first exact replacement, or the host itself |
| Worker.HostLabelExamples | exporter/worker_test.go:208-234 | the replaced, kept and missing hosts of the worker test |
| Worker.FirstUriStop | exporter/worker.go:268-275 | the first rule whose method filter rejects the request or whose expression finds a path |
| Worker.UriDecidedByFirstStop | exporter/worker.go:268-278 | that first rule decides: `""` for a method mismatch, its substitution otherwise, `""` when there is none |
| Worker.DetectUriLabel | exporter/worker.go:258-279 | `""` without a request or with fewer than two words; otherwise the rules decide on the method and path |
| Worker.MethodMismatchHidesLaterRules | exporter/worker.go:269-271 | a rule for another method stops the search with `""`, hiding every later rule |
| Worker.DetectResponseDuration | exporter/worker.go:300-312 | no duration without a request time; the parse error when it is not a number; the number otherwise |
| Worker.UserAgentStage | exporter/worker.go:107-117 | a custom rule decides with no events; otherwise an internal address is counted as filtered, and any other line goes through the parser and cache |
| Worker.LabelLine | exporter/worker.go:119-138 | the device type is one of the three, and the duration is the one detected |
| Worker.TimingEvents | exporter/worker.go:141-148 | three observations exactly when a duration was found, all of that duration: host response time labelled host and status, user-agent response time labelled host, user agent and status, URI response time labelled host, URI and status |
| Worker.RequestEvents | exporter/worker.go:150-153 | the two request counters, labelled host, user agent, status and host, OS, device type |
| Worker.LineEvents | exporter/worker.go:140-155 | the stage's events first and the nginx-host counter last; the names are those of the stage plus the counters, plus the timings when a duration was found |
| Worker.CountedOnce | exporter/worker.go:154-155 | the line moves its own host's nginx counter once and no other host's |
| Worker.ExportMetrics | exporter/worker.go:106-156 | between 3 and 8 events, ending with the nginx-host counter, which moves once; the received, dropped and failed counters are never emitted; the cache stays valid |
| Worker.ExportCountsOwnHostOnly | exporter/worker.go:155 | no other host's nginx counter moves |
| Worker.FilteredIffInternal | exporter/worker.go:108-116 | counted as filtered exactly when no custom rule applies and the address lies in an internal subnet |
| Worker.CachedIffMiss | exporter/worker.go:108-116 | a user agent is newly cached exactly when no custom rule applies, the address is not internal, and the agent was not cached |
| Worker.TimingsIffDuration | exporter/worker.go:134-148 | response times are observed exactly when the request time is present and parses |
| Worker.Process | exporter/worker.go:89-103 | the failed-parse counter is emitted exactly when the line does not fit its source's format; the metrics are exported either way, from an empty field map on failure; the nginx-host counter moves once |
| Worker.ProcessCounts | exporter/worker.go:89-103 | a processed line moves its own host's nginx counter once, no other host's, and never the received or dropped counters |
| Worker.UnparsedLineLabels | exporter/worker.go:94-102 | a line that does not fit is counted with unknown labels and a desktop device, and has no timings |
| Exporter.NewExporter | exporter/exporter.go:22-57 | fails exactly without sources (the no-source error) or with a negative worker count (the channel panic); otherwise a pool of `ExportWorkers` idle workers sharing the configuration and cache, nothing in flight and nothing exposed |
| Exporter.Arrive | exporter/exporter.go:64-82 | a cancelled or stopped loop counts nothing; otherwise the line never waits: it is leased when a worker is idle and counted as dropped when none is, and it is counted as received either way |
| Exporter.Complete | exporter/exporter.go:70-76 | the finished line leaves the in-flight lines, the worker returns to the pool, and the line's own host's nginx counter moves once; the received and dropped counters do not |
| Exporter.ArrivePreservesInv | exporter/exporter.go:66-81 | an arrival keeps idle plus busy equal to the capacity, and each host's received count equal to dropped plus processed plus in flight |
| Exporter.CompletePreservesInv | exporter/exporter.go:70-76 | a completion keeps the same invariant |
| Exporter.RunSteps | exporter/exporter.go:60-84 | any interleaving of arrivals and completions only appends to what was exposed |
| Exporter.RunKeepsInv | exporter/exporter.go:60-84 | whatever the interleaving, no worker is lost and every host's counters balance |
| Exporter.SettledCounts | exporter/exporter.go:69-81 | once nothing is in flight, every worker is idle, and each host's received count is its dropped count plus its processed count |
| Exporter.PoolOfOne | exporter/exporter.go:69-81 | with one worker, a second line arriving while the first is processed is dropped; both are received, and the worker is idle again after the first completes |
| Exporter.CancelledLoopIsSilent | exporter/exporter.go:66-68 | after cancellation the loop reads and counts nothing |
| Exporter.EmptyPoolDropsEverything | exporter/exporter.go:36-79 | with no workers every received line is dropped |

## Left out

- Syslog input (input/input.go), Prometheus registration and exposition (exposer/), the CLI and HTTP server (cmd/accesslog-exporter/main.go) and logging: these are I/O and foreign libraries.
  - Lines are given to the dispatcher as values.
  - The exposer is an event log.
  - Log calls are dropped.
- The Go regular-expression engine, the uap user-agent parser, `net.ParseCIDR`/`ParseIP`/`Contains` and `strconv.ParseFloat`: these are foreign code. They are parameters, and the properties hold for any of them.
- `regexp.MustCompile` panics on an invalid expression. A compiled expression here is only its source text, so that panic is not modelled.
- Reading and YAML-decoding the configuration file: `Config.MakeConfig` takes the decoded document, or the read or decode error.
- Concurrency: goroutines, channel blocking and `select`'s random choice.
  - Dispatch is a sequence of arrival and completion steps.
  - Which case `select` takes is a parameter.
  - Exporter.Arrive: with no idle worker the line is always dropped. In Go, `select` may instead take `ctx.Done()` when the context is already cancelled, so the model over-approximates the drops in that race.
  - The cache's locking is not modelled; each completion runs `Process` to its end with the shared cache.
- The `uaLabels` record is not modelled; its field order (user agent, OS, device) follows its positional literals at exporter/worker.go:110 and 166-175.
- The workers of the pool are identical: every one gets the same configuration and cache from `NewExportWorker` (exporter/worker.go:64-86). The pool is therefore a count of idle workers, and `NewExportWorker` is folded into `Exporter.NewExporter`.
- hashicorp/golang-lru internals: only the behaviour `Add`, `Get` and `Len` promise is modelled. `Peek`, `Remove`, eviction callbacks and concurrent access are not.
- GoStrings.ToLower: only ASCII letters are lowered, because Unicode case mapping is out of reach here.
- GoStrings.Title: only ASCII letters are upper-cased, because Unicode title-case mapping is out of reach here; the word-separator rule follows `strings.Title`.
- GoStrings.TrimSpace: the white-space set is Unicode's White_Space property, written out; invalid UTF-8 is not modelled, since strings here are sequences of characters.
- Worker.DetectResponseDuration: the duration is a real number, so float64 rounding is not modelled.
- Worker.DeviceTypeByFamilies: the worker test's family-decided cases are evaluated on an empty user agent. `Worker.UnmarkedTextIsIgnored` proves that text without markers decides the same way, and `Worker.PlainTextIsUnmarked` proves that the test's `bla bla bla` has no markers.
- Each completion step processes the line it was leased. In exporter/exporter.go:65-75 the goroutine captures the range variable `line`. That is one variable per iteration only from Go 1.22 on; before that, a worker could read a later line. The Go language version is not modelled, so the per-iteration reading is assumed.
- Exporter.NewExporter: a negative `ExportWorkers` makes Go panic when creating the channel. Here that is a failure carrying the runtime's message, not an abort.
