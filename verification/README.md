# linkc: verified models of compiler and runtime engines

A Dafny model of the parts of `linkc`, the compiler and runtime of the link language, where a mistake would
silently change what a program does: which rows a query returns, which file an item comes from, how a source is
read and printed, when a request is let through, when a job runs, which handler a path reaches, what a hash is.
The Rust sources are imperative where these models are: the lexer, the loader, the stores and the limiter are
classes with the same fields, and the loops of the formatter, of cron, of the routes, of the hash and of the
position conversions are loops. Each is proved against functions, and the laws are proved about those.

`dafny verify dfyconfig.toml` checks everything.

## The parts

**Predicate pushdown** (`Predicates.dfy`, `Pushdown.dfy`). A closure body over a row is recognised as a tree of
conditions, the tree is instantiated with captured variables, and the database filters by it. `Expressions` holds
the evaluator of the language restricted to what a recognised closure can contain; a runtime error is `None`.
`FilterMeans` is the result: filtering by the pushed condition is filtering by the closure.

**Module loader** (`ModuleLoader.dfy`). The depth-first search with cache, stack, done set and merged list, over
any finite set of files; the resolution of an import is a given map. `LoadProgram` states success and failure
exactly.

**Lexer** (`Tokens.dfy`, `Lexing.dfy`, `Locality.dfy`, `Spans.dfy`, `Quoting.dfy`, `LexSteps.dfy`, `Lexer.dfy`). `Lexing`
says what a text is read as, `Lexer` is the cursor that does it, `Spans` says where tokens stand, `Quoting` how literals
may be written, and `Locality` how little of the text a token depends on.

**Formatter** (`Layout.dfy`, `Indentation.dfy`, `Rendering.dfy`, `Gaps.dfy`, `Trimming.dfy`, `RoundTrip.dfy`, `PointCount.dfy`, `Demotion.dfy`,
`FormatLaws.dfy`, `FormatLimits.dfy`, `Formatter.dfy`). `Layout` gives the formatted source as the same tokens with new
gaps, `Formatter` the loops that write it, `RoundTrip` what the printed text is read as, and `FormatLaws` the two laws:
reading undoes printing, and printing twice is printing once. How a float is printed is a parameter, bound only to
print as 64-bit floats are displayed: with a point, as an integer, or as `inf`. `Indentation` says what the text looks
like, in terms of braces and the texts of tokens.

**Stores** (`Idempotency.dfy`, `ResponseCache.dfy`, `RateLimit.dfy`). State machines under a lock, each operation one
step that is given the time at which it runs; runs are sequences of steps on a clock that does not go back. The
tokens of the rate limiter are real numbers.

**Cron** (`Cron.dfy`, `CronText.dfy`, `Horizon.dfy`, `Calendar.dfy`). Fields are parsed into tables and the next run is
searched minute by minute; `CronText` says which minutes a text stands for, `Horizon` when the search misses one. The calendar functions of `runtime/timestamp.rs` are proved to
be the proleptic Gregorian calendar.

**Routes** (`Route.dfy`, `Splitting.dfy`). Parsing, matching with captures, overlap and dispatch.

**SHA-256** (`Fips180.dfy`, `Sha256.dfy`, `KnownAnswer.dfy`). `Fips180` is the standard on bits, with the constants proved
to be the fractional parts of the roots of the primes beside them; `Sha256` is the hash computed in place on bytes;
`KnownAnswer` works out the published example "abc" round by round.

**Positions** (`Utf16.dfy`). Offsets to lines and UTF-16 columns and back.

## What the proofs found

- `eval_simple_expr` looks operands up in the captured environment only. Where a captured variable has the name of
  the closure's parameter, `|x| x.f == x` is pushed down with the captured value instead (`ShadowedParameter`).
- `expr_mentions_param` does not descend into `if`, so a list that reads the row can be recognised as an operand
  that does not (`ConditionalOperandIsNotHoisted`); instantiation refuses it later, as it accepts literals, names
  and arrays only.
- The formatter's comments promise a fixed point and that html literals survive. The tokens are kept exactly when
  every float prints with its point and no tokens are glued, that is printed so that they are read as others
  (`FormatKeepsTokens`). The fixed point needs less: whole floats and glued dots do not break it. A source that glues
  nothing but dots is formatted to a fixed point exactly when every float displayed as an integer fits into 64 bits
  (`FormatIsIdempotent`); from 2^63 on it is formatted to a text that cannot be read (`FloatMayBecomeInt`). Glued
  operators do break it: `a ? ?` is formatted to `a??` and that to `a ??` (`GluedMayChange`, `GluedOperatorChanges`).
- The rate limiter deletes buckets idle for an hour. A comment beside the constant says that nobody can
  notice; that is so for windows up to an hour, and a limit with a longer one can be beaten in a run of a new limiter
  (`RateHoldsExactly`).
- Reservations are exclusive, and completions last, exactly when every caller finishes within the 120 s after which
  its mark counts as stale; with any longer deadline two callers run the rpc and both complete it (`SafeExactly`).
- The four-year horizon of cron is said to be reached only by dates that never come. It is also reached by jobs that
  run on 29 February only, in the four years after 29 February of 1896, 2096 and the like, and the scheduler then stops
  the job (`HorizonIsExact`, `LeapDayJobStops`).
- A route is said to add to the addresses of services and never to replace one, for which the bare catch-all is tried
  after them. `/:a/:b` and `/:a/:rest*` are tried before them, and accept every such address (`AnyAddressExactly`,
  `ResolveRoute`).
- The comments of `overlap_possible` call it conservative; it is exact (`OverlapIsExact`).
- A catch-all that takes nothing and one that takes a single empty segment capture the same text
  (`CapturesRebuild`): `/docs` and `/docs/` are told apart by no capture.

## Model

| member | source | states |
|---|---|---|
| `Pushdown.StripParensLoop` | compiler/src/ast.rs:1699-1704 | The loop removes every outer parenthesis, and the expression left has the value of the whole in every environment. |
| `Pushdown.MergeAnd` | compiler/src/ast.rs:1716-1728 | The vector grown is the conjuncts of the left tree followed by those of the right one. |
| `Pushdown.MergeOr` | compiler/src/ast.rs:1730-1741 | The vector grown is the disjuncts of the left tree followed by those of the right one. |
| `Pushdown.FlipMeans` | compiler/src/ast.rs:1905-1913 | A comparison with its sides exchanged and its operator flipped has the same outcome, errors included. |
| `Pushdown.CallMeans` | compiler/src/ast.rs:1759-1827 | A recognised `contains`, `startsWith` or `endsWith` holds of a row exactly when the call is true, or false if it was negated. |
| `Pushdown.ComparisonMeans` | compiler/src/ast.rs:1843-1880 | A recognised comparison (sides in either order, two fields, or a call compared with `true` or `false`) holds of a row exactly when it is true. |
| `Pushdown.TreeMeans` | compiler/src/ast.rs:1829-1899 | For every nesting of and, or, not, comparisons, calls and parentheses: wherever the closure body is a truth value on a row, the recognised tree has that value. |
| `Pushdown.RecognizedIsFlat` | compiler/src/ast.rs:1716-1741 | In a recognised tree no conjunction is an item of a conjunction and no disjunction one of a disjunction. |
| `Pushdown.RecognizedExactly` | compiler/src/ast.rs:1759-1899 | Exactly the conditions are recognised: a field of the parameter or a call of `contains`, `startsWith` or `endsWith` on it, either perhaps negated; a comparison of such a field, or of such a call with a truth value; and conditions joined by `and` and `or`, with parentheses anywhere. |
| `Pushdown.HoistedOperand` | compiler/src/ast.rs:1743-1757 | An operand that does not mention the parameter, built from forms the search descends into, has one value whatever the parameter is bound to. |
| `Pushdown.RecognizedOperandIsHoisted` | compiler/src/ast.rs:1759-1827 | Hence such a list or pattern of a recognised call may be evaluated once before the scan. |
| `Pushdown.ConditionalOperandIsNotHoisted` | compiler/src/ast.rs:1743-1757 | The search does not look into `if`: a recognised list operand may have a different value on every row. |
| `Pushdown.InstantiateMeans` | compiler/src/runtime/mod.rs:1519-1576 | Replacing operands by their captured values leaves the meaning on every row, unless an operand uses a captured variable with the name of the parameter. |
| `Pushdown.PushdownMeans` | compiler/src/runtime/mod.rs:1513-1517 | The condition sent to the database holds of a row exactly when applying the closure to the row gives true. |
| `Pushdown.FilterMeans` | compiler/src/ast.rs:1691-1697 | Filtering any collection by the pushed condition gives the rows, in order, that filtering by the closure gives. |
| `Pushdown.ShadowedParameter` | compiler/src/runtime/mod.rs:1519-1528 | For a closure that compares a field of its parameter with the parameter: pushing down is right on all rows if and only if no captured variable has the name of the parameter. |
| `Pushdown.PushdownIsRightExactly` | compiler/src/runtime/mod.rs:1513-1576 | Over a given environment pushing down is right for all closures of one parameter and all rows if and only if the parameter has not the name of a captured variable. |
| `Pushdown.ListFieldNeedsTextCheck` | compiler/src/ast.rs:1759-1827 | A `contains` on a field that holds a list is recognised as a string match and then differs from the closure: the text check of SQL generation is needed. |
| `ModuleLoader.LoadProgram` | compiler/src/modules.rs:166-189 | Loading succeeds exactly when every reachable file is readable, every imported name is native to its target and no cycle is reachable; the merged list then holds each item that is no import of each reachable file exactly once, in the order of its file, beside that file's name and after the items of the files it imports: the native items of exactly the reachable files, each once and after all it imports, with the file list aligned and every file read once. A failure names a true cause. |
| `ModuleLoader.Loader.Visit` | compiler/src/modules.rs:317-366 | One visit, for any stack of files being visited: it terminates, finishes only files reachable from its own, keeps what was finished, and fails only with a true cause. |
| `ModuleLoader.Loader.VisitImports` | compiler/src/modules.rs:335-352 | All imports of a file are visited; afterwards each resolves, exports what is named and is finished. |
| `ModuleLoader.Loader.VisitImport` | compiler/src/modules.rs:336-351 | The same for one import: its target is native to the names and finished. |
| `ModuleLoader.Loader.CheckImport` | compiler/src/modules.rs:337-349 | An accepted import resolves to a file that declares every name itself, so that re-exports are refused; a refusal names the missing file or name. |
| `ModuleLoader.Loader.LoadNative` | compiler/src/modules.rs:244-263 | The cache answers with what the file holds, reads a file once, and lists each file read once in order. |
| `ModuleLoader.Loader.Enter` | compiler/src/modules.rs:328-332 | The file is put on the stack and its items are loaded, or it is unreadable. |
| `ModuleLoader.Loader.Finish` | compiler/src/modules.rs:354-365 | A file whose imports are done leaves the stack, is marked done and appends its items. |
| `ModuleLoader.Loader.MergeNative` | compiler/src/modules.rs:354-362 | The items other than imports are appended, with the file once for each of them. |
| `ModuleLoader.NameExists` | compiler/src/modules.rs:374-382 | The name is found exactly when the file itself declares it. |
| `ModuleLoader.OrderedIsLoadable` | compiler/src/modules.rs:317-366 | Files listed each after all it imports form no cycle and are closed under imports. |
| `ModuleLoader.MergedAligned` | compiler/src/modules.rs:354-362 | At each index of the merged list stands an item of the file at that index of the file list, and no import. |
| `ModuleLoader.ExplainedIsNotLoadable` | compiler/src/modules.rs:317-366 | Every failure reported is a reason why the entry cannot be loaded. |
| `Locality.TokenIsLocal` | compiler/src/lexer.rs:178-205 | What a token is depends on its own characters and at most two more; html literals and closing braces on their own only. Nested literals are included, by mutual induction. |
| `Locality.TriviaIsLocal` | compiler/src/lexer.rs:305-381 | The same white space and comments are skipped in any text that agrees up to the next token. |
| `Locality.GapIsRead` | compiler/src/lexer.rs:305-381 | White space and comments written one after the other, line comments closed by a newline, are skipped as just these pieces. |
| `Lexer.Lexer.Advance` | compiler/src/lexer.rs:136-148 | One character is consumed; line and column stay those of the cursor. |
| `Lexer.Lexer.SkipTrivia` | compiler/src/lexer.rs:305-381 | The cursor ends after all white space and comments; it fails exactly on an unfinished block comment. |
| `Lexer.Lexer.LexNumber` | compiler/src/lexer.rs:386-413 | The digits, and a fraction only if a digit follows the point; integers above the 64-bit maximum fail. |
| `Lexer.Lexer.LexIdentOrKeyword` | compiler/src/lexer.rs:415-422 | The longest word, as keyword or identifier. |
| `Lexer.Lexer.LexString` | compiler/src/lexer.rs:425-495 | The value of the literal with its escapes, or failure exactly on a malformed one. |
| `Quoting.QuotedIsRead` | compiler/src/lexer.rs:425-501 | However a text is written inside quotes, each character as it is, escaped, or by its code in four hexadecimal digits of either case, it is read as that text. |
| `Quoting.ReadIsQuoted` | compiler/src/lexer.rs:425-501 | Whatever is read as a text was written in one of these ways. |
| `Lexer.Lexer.LexUnicode` | compiler/src/lexer.rs:452-475 | Four hexadecimal digits make the character they number, surrogates excepted. |
| `Lexer.Lexer.LexPunct` | compiler/src/lexer.rs:503-596 | The longest symbol; failure exactly on other characters and on a single `&`. |
| `Lexer.Lexer.LexHtmlLiteral` | compiler/src/lexer.rs:214-297 | Text and interpolations in turn, with the tokens of each interpolation, nested literals included. |
| `Quoting.SourceIsRead` | compiler/src/lexer.rs:214-297 | However the texts of an html literal are written, escaped or not, it is read as these texts and its interpolations in turn. |
| `Quoting.LiteralIsSource` | compiler/src/lexer.rs:214-297 | Whatever is read as an html literal was written in one of these ways. |
| `Quoting.ExprEndsAtItsBrace` | compiler/src/lexer.rs:258-292 | An interpolation ends at the first closing brace that closes none of its own opening ones. |
| `Lexer.Lexer.LexInterpolation` | compiler/src/lexer.rs:252-289 | The tokens up to the brace that closes the interpolation, at least one; failure if there is none or the text ends. |
| `Lexer.Lexer.NextToken` | compiler/src/lexer.rs:178-205 | The next token with its span, line and column being those of its first character; a failure has a span in the text whose line and column are those of its start. |
| `Lexer.Lexer.Run` | compiler/src/lexer.rs:161-172 | Lexing terminates on every text; it fails exactly when the text has no reading, and otherwise gives all tokens with their spans, `Eof` last. |
| `Spans.SpansCoverTheText` | compiler/src/lexer.rs:161-205 | The spans are in order and disjoint, only white space and comments are between them, each shows the text of its token, line and column are those of its start, and `Eof` stands at the end of the text. |
| `Spans.LexIsLossless` | compiler/src/lexer.rs:161-205 | Gaps and token texts in order make up the source. |
| `Formatter.PushComment` | compiler/src/fmt.rs:394-412 | A comment goes on its own line at the level of the block, or after a space on the line under way, and ends the line. |
| `Formatter.EmitGapComments` | compiler/src/fmt.rs:346-392 | All comments of the gap are written, each where its own line or the line under way asks for it. |
| `Formatter.ScanFindsComments` | compiler/src/fmt.rs:360-391 | Scanning a gap between tokens finds exactly the comments that the lexer skipped there. |
| `Formatter.OpenToken` | compiler/src/fmt.rs:33-66 | Line break, indentation and space before a token are those of the layout. |
| `Formatter.CloseToken` | compiler/src/fmt.rs:150-160 | The line break after a token is that of the layout. |
| `Formatter.FormatSource` | compiler/src/fmt.rs:4-170 | For every source the loop over the tokens writes the layout that `Format` defines, and fails exactly when lexing fails. |
| `Indentation.FormatIsLaidOut` | compiler/src/fmt.rs:17-162 | In the text of every source each line stands in by two spaces for each brace open at its first token, or closed by it, and at each comment that begins it, surplus closing braces closing nothing; between two tokens without comments stands exactly the line break, blank line or space that their texts and the open braces call for. |
| `Indentation.BalancedIsIndented` | compiler/src/fmt.rs:29-54 | Where closing braces never outnumber opening ones, a line stands in by two spaces for each `{` before it less each `}` up to its first token, and a comment likewise for what is before it. |
| `Indentation.DepthIsOne` | compiler/src/fmt.rs:34-35 | The number of open braces is one number and not negative. |
| `Indentation.BalancedDepth` | compiler/src/fmt.rs:34-35 | Where closing braces never outnumber opening ones it is the difference of the two. |
| `Indentation.SpacedBySigns` | compiler/src/fmt.rs:172-287 | On one line two tokens are printed with a space exactly when neither clings to the other and one is an operator, an arrow, a comma, a colon or a keyword that asks for it, or both would run together. |
| `Indentation.CommentsAreKept` | compiler/src/fmt.rs:346-415 | Every comment is printed, in order, as it was written, a line comment without the white space at its end. |
| `Indentation.OwnLineExactly` | compiler/src/fmt.rs:346-415 | A comment gets a line of its own exactly when it was not written on the line of what is before it. |
| `Indentation.FirstCommentPlaced` | compiler/src/fmt.rs:346-415 | A comment behind a token stays on its line, after one space; one on a line of its own is indented there. |
| `Indentation.EndsInOneNewline` | compiler/src/fmt.rs:166-169 | The text ends with exactly one newline and no white space before it. |
| `Gaps.SeparatorIsGap` | compiler/src/fmt.rs:26-66 | What is printed between two tokens is white space and comments that the lexer skips as the same pieces. |
| `Gaps.SeparatorIsFixed` | compiler/src/fmt.rs:346-412 | Laying out a gap that was laid out already changes nothing and keeps its comments. |
| `Rendering.LongestSymbol` | compiler/src/lexer.rs:503-609 | The symbol read is one the text begins with and no longer one is; nothing is read exactly when the text begins with none. |
| `Rendering.TokenIsRead` | compiler/src/fmt.rs:69-148 | Every printed token is read back as itself if what follows does not continue it. |
| `Rendering.EscapeIsRead` | compiler/src/fmt.rs:73-77 | An escaped string literal stands for the string that was escaped. |
| `Rendering.StopsUnlessRunTogether` | compiler/src/fmt.rs:172-287 | Printed without a space, a token is continued by the next one exactly for the listed pairs and for an integer before a fraction. |
| `Trimming.TrimmedIsShown` | compiler/src/fmt.rs:166-169 | Trimming what was written leaves the laid-out text, closed by one newline. |
| `RoundTrip.ReadBack` | compiler/src/fmt.rs:4-170 | From any token on and at any level, for sources whose floats print with a point: the printed text is read as it was laid out, or not at all if an integer in it leaves 64 bits, unless tokens are glued; then it is not read as the same tokens. |
| `PointCount.PointsOfAll` | compiler/src/lexer.rs:161-172 | The points counted in a text outside strings, comments and html literals are those of the tokens it is read as. |
| `Demotion.PrintedTotal` | compiler/src/fmt.rs:4-170 | Where floats print with a point, the printed text has exactly the points of the tokens it was printed from, whether or not it is read as them. |
| `FormatLaws.FormatKeepsTokens` | compiler/src/fmt.rs:4-170 | The formatted text is read as the same tokens, with the same values, if and only if every float of the source prints with its point and no tokens are glued (`? ?`, `. .`, `. ..`, `!` before `=`, `==` or `=>`, an integer, a dot and a number, a word before `transaction` or an html literal, `transaction` before a word); and then with the same comments between the same tokens. |
| `FormatLaws.FormatIsRead` | compiler/src/fmt.rs:4-170 | A source, whole floats included, whose print glues no tokens is formatted to a text that is read as the source with whole floats as integers; it is refused exactly when such an integer leaves 64 bits. |
| `FormatLaws.FormatIsIdempotent` | compiler/src/fmt.rs:4-170 | A source whose print glues no tokens but dots is formatted to a text that does not change when it is formatted again; that fails exactly when a whole float in it leaves 64 bits. |
| `FormatLimits.GluedOperatorChanges` | compiler/src/fmt.rs:197-287 | If the first glued token is a `?` or `!` printed right after another token (not `.`, `..`, `!`, `(`, `[` or `@`), the formatted text changes when it is formatted again, whatever else the source holds. |
| `FormatLimits.FloatMayBecomeInt` | compiler/src/fmt.rs:72-72 | A float literal that prints without its point comes back as an integer, or is refused from 2^63 on. |
| `FormatLimits.GluedMayChange` | compiler/src/fmt.rs:197-287 | `a ? ?` is formatted to `a??`, and that to `a ??`: with glued tokens a formatted text may change again. |
| `RoundTrip.ArrangeTwice` | compiler/src/fmt.rs:4-170 | The layout of a layout is itself, with the same token values and comments. |
| `Idempotency.IdempotencyStore.SweepIfDue` | compiler/src/idempotency.rs:95-105 | Every thousandth check removes exactly the expired entries. |
| `Idempotency.IdempotencyStore.Reserve` | compiler/src/idempotency.rs:113-140 | Reserved, replayed, in conflict or busy, by the entry found and the time; the key is marked only when reserved. |
| `Idempotency.IdempotencyStore.Complete` | compiler/src/idempotency.rs:150-155 | The response is stored for the key, and nothing else changes. |
| `Idempotency.IdempotencyStore.Release` | compiler/src/idempotency.rs:161-163 | The key is free again, and nothing else changes. |
| `Idempotency.SweepsAreInvisible` | compiler/src/idempotency.rs:95-140 | On a monotone clock every sequence of calls is answered as by a store that never sweeps. |
| `Idempotency.RunIsConsistent` | compiler/src/idempotency.rs:113-163 | In every interleaved run whose holders finish within a deadline of at most 120 s, each holder within its 120 s has the key marked as its own. |
| `Idempotency.StandingMarkBlocks` | compiler/src/idempotency.rs:113-140 | While a holder is within its 120 s, another caller of its key is told to wait if its hash is the same, and refused if it is not. |
| `Idempotency.SafeExactly` | compiler/src/idempotency.rs:113-163 | In all runs from an empty store no two unfinished holders within their deadline share a key if and only if the deadline is at most 120 s; and likewise for completions not being overwritten within 24 hours. |
| `Idempotency.SafeDeadline` | compiler/src/idempotency.rs:113-163 | With a deadline of at most 120 s both guarantees hold, in every run. |
| `Idempotency.CompletionStands` | compiler/src/idempotency.rs:113-163 | For 24 hours after a completion its entry stays as it is, whatever other callers do. |
| `Idempotency.CompletionLapses` | compiler/src/idempotency.rs:113-124 | After 24 hours the key may be reserved anew. |
| `Idempotency.RetryReplays` | compiler/src/idempotency.rs:113-140 | In those 24 hours a retry with the same hash gets exactly that response, and one with another hash a conflict. |
| `Idempotency.LateCompletionOverwrites` | compiler/src/idempotency.rs:150-155 | With any longer deadline there is a run from an empty store in which the key a caller took over and still holds is completed by the caller it was taken from, and is then completed anew. |
| `RateLimit.RateLimiter.Check` | compiler/src/rate_limit.rs:103-128 | Sweep, refill up to the capacity, and take one token if there is one. |
| `RateLimit.SweepKeepsLevel` | compiler/src/rate_limit.rs:105-112 | Deleting an idle bucket changes no key's tokens, for windows up to the idle time. |
| `RateLimit.CallSpends` | compiler/src/rate_limit.rs:103-128 | A call takes one token from its own key if it is let through and none from any other. |
| `RateLimit.AcceptedWithinRate` | compiler/src/rate_limit.rs:90-128 | Over any run and any interval a key gets through at most count + length * count / window times, although buckets are deleted and made again. |
| `RateLimit.AllowedExactly` | compiler/src/rate_limit.rs:103-128 | In every run of a new limiter with a window of at most 3600 s a call is let through if and only if with it every interval that ends at it stays within count + length * count / window. |
| `RateLimit.LevelSinceFull` | compiler/src/rate_limit.rs:103-128 | The tokens of a key are those of a bucket that was full at some instant, less what was let through since, plus what the rate has brought since. |
| `RateLimit.RateHoldsExactly` | compiler/src/rate_limit.rs:90-128 | That bound holds in all runs of a new limiter if and only if the window is at most 3600 s. |
| `RateLimit.LongWindowsLeak` | compiler/src/rate_limit.rs:86-90 | With a longer window some run of a new limiter beats the bound: drain when a sweep is next due, wait for it, drain again. |
| `ResponseCache.CacheStore.Get` | compiler/src/cache.rs:82-93 | The live entry if there is one; one counter goes up. |
| `ResponseCache.CacheStore.Put` | compiler/src/cache.rs:98-103 | The entry is stored until its time to live is over. |
| `ResponseCache.CacheStore.Clear` | compiler/src/cache.rs:110-112 | No entry is left. |
| `ResponseCache.CacheStore.ClearPrefix` | compiler/src/cache.rs:119-121 | Exactly the entries whose `service.rpc` begins with the prefix are removed. |
| `ResponseCache.CacheStore.Stats` | compiler/src/cache.rs:127-131 | The loop over the entries counts each live one once, and the two counters are read. |
| `ResponseCache.EntriesAreLastPuts` | compiler/src/cache.rs:70-131 | After any history an entry is the last put that no clear removed; a swept one had expired. |
| `ResponseCache.GetAnswersHistory` | compiler/src/cache.rs:70-93 | A get answers that put unless it has expired, with or without the sweep. |
| `ResponseCache.PutIsServed` | compiler/src/cache.rs:82-121 | What was put is served before its time to live is over and not from then on, whatever other keys are put and cleared in between. |
| `ResponseCache.PrefixesExactly` | compiler/src/cache.rs:119-121 | A prefix covers the keys whose service and rpc, with a point between them, begin with it; so a service covers all its rpcs. |
| `ResponseCache.StatsCountHistory` | compiler/src/cache.rs:127-131 | The live entries counted are the keys whose last put has not expired. |
| `ResponseCache.CountersCountGets` | compiler/src/cache.rs:82-93 | The counters are the gets of the history that found something and those that did not. |
| `Cron.Mark` | compiler/src/cron.rs:105-109 | The loop marks exactly the values of one part, and stops short only if counting up leaves 32 bits. |
| `Cron.ParseField` | compiler/src/cron.rs:79-112 | A field is accepted exactly when each comma-separated part is, and its table is true exactly at the values some part denotes. |
| `Cron.ParseExpression` | compiler/src/cron.rs:114-145 | Five accepted fields, each with the table of its meaning, 7 being folded into Sunday, and the two restriction flags. |
| `Cron.FieldAllowsSome` | compiler/src/cron.rs:79-112 | Every accepted field allows at least one value. |
| `Cron.StarAllowsAll` | compiler/src/cron.rs:79-112 | A star allows every value of its range. |
| `Cron.ParsedIsSound` | compiler/src/cron.rs:114-145 | Every accepted expression has tables of the right sizes that each allow something. |
| `Cron.DayRuns` | compiler/src/cron.rs:165-180 | Month and day rule, the day fields joined by or when both are restricted. |
| `Cron.RunsAt` | compiler/src/cron.rs:161-183 | A candidate is accepted exactly when its month, day, hour and minute match. |
| `Cron.NextRunAfter` | compiler/src/cron.rs:157-186 | The least matching minute strictly after now, and none exactly when the next 4*366 days have none. |
| `CronText.TextMatches` | compiler/src/cron.rs:79-183 | From the text of the five fields to the runs: a job matches a minute of a date exactly when its fields, as they are written, say that month, that day of the month or of the week, that hour and that minute. |
| `CronText.FieldIsRead` | compiler/src/cron.rs:79-112 | A field of numbers, ranges, stars and steps joined by commas allows exactly the values that one of its parts counts up to. |
| `CronText.PartIsRead` | compiler/src/cron.rs:79-104 | A part is read as it is written, and refused exactly when it is out of range or has step 0. |
| `CronText.MatchesByDate` | compiler/src/cron.rs:161-183 | A job matches a minute of a date exactly when it allows its month, day, hour and minute. |
| `CronText.DayFieldsUnite` | compiler/src/cron.rs:165-180 | With both day fields restricted a job runs on the days of either, were the other one free. |
| `CronText.WeekdaysFollow` | compiler/src/cron.rs:170-170 | Day 0 is a Thursday and weekdays follow one another. |
| `Cron.Runs` | compiler/src/cron.rs:157-186 | Searching each run from the one before enumerates every matching minute in order, up to a gap longer than that. |
| `Cron.MatchesEveryWeek` | compiler/src/cron.rs:157-186 | With day of month and month unrestricted, any 10080 consecutive minutes hold a match. |
| `Cron.WeeklyTextRuns` | compiler/src/cron.rs:114-186 | An accepted text whose third and fourth fields are `*` always has a next run, at most seven days away. |
| `Horizon.HorizonIsExact` | compiler/src/cron.rs:157-186 | From any minute the search finds nothing if and only if the expression allows no date at all, or it runs on 29 February only and the search begins after its runs of a leap day that no leap year follows within four years, with the next leap day beyond the horizon. |
| `Horizon.NeverRunsExactly` | compiler/src/cron.rs:157-186 | An expression has no match ever if and only if it allows no date. |
| `Horizon.WeekdayComes` | compiler/src/cron.rs:165-180 | Any 372 days have every day of the week in every month. |
| `Horizon.YearlyComes` | compiler/src/cron.rs:165-180 | Any 366 days have every date but 29 February. |
| `Horizon.LeapDayIsAccepted` | compiler/src/cron.rs:79-145 | `0 0 29 2 *` is accepted. |
| `Horizon.LeapDayText` | compiler/src/cron.rs:79-145 | What it is parsed to runs at midnight on 29 February only. |
| `Horizon.LeapDayJobStops` | compiler/src/cron.rs:157-186 | Its next run is missed exactly from the minute after midnight on a 29 February with no leap year four years later, until 4*366 days before the next one. |
| `Horizon.LeapDayJobStopsIn2096` | compiler/src/cron.rs:157-186 | So the search that follows its run of 29 February 2096 finds nothing, |
| `Horizon.LeapDayJobIsDue` | compiler/src/cron.rs:157-186 | although it matches at midnight on 29 February of every leap year, 2104 among them. |
| `Calendar.DaysRoundTrip` | compiler/src/runtime/timestamp.rs:24-46 | Every day number gives a valid date and comes back from it. |
| `Calendar.CivilRoundTrip` | compiler/src/runtime/timestamp.rs:24-46 | Every valid date comes back from its day number. |
| `Calendar.NextDayIsNextDate` | compiler/src/runtime/timestamp.rs:35-46 | The next day number is the next date, by month lengths and leap years. |
| `Calendar.CountedDate` | compiler/src/runtime/timestamp.rs:35-46 | The date of a day number is the one reached by counting that many days from 1970-01-01. |
| `Route.ParseRoutePattern` | compiler/src/route.rs:238-300 | A text is accepted exactly when it is the print of a well-formed pattern, which is then the result. |
| `Route.ParseSegments` | compiler/src/route.rs:245-299 | The loop accepts exactly the parts that read as a well-formed pattern. |
| `Route.PrintReads` | compiler/src/route.rs:238-300 | Every well-formed pattern is read back from its print. |
| `Route.Matches` | compiler/src/route.rs:175-200 | The pattern matches exactly its paths, and one capture is taken for each parameter name. |
| `Route.CapturesAlign` | compiler/src/route.rs:175-200 | There are as many captures as parameter names. |
| `Route.CapturesRebuild` | compiler/src/route.rs:175-200 | Substituting the captures rebuilds the path if and only if the catch-all did not take just one empty segment. |
| `Route.CommonPathOverlaps` | compiler/src/route.rs:112-143 | Two patterns that match one path overlap. |
| `Route.OverlapIsExact` | compiler/src/route.rs:112-143 | Two patterns overlap if and only if some path of nonempty segments is matched by both. |
| `Route.OverlapIsSymmetric` | compiler/src/route.rs:112-162 | Overlap and conflict do not depend on the order of the two patterns. |
| `Route.CheckRouteConflicts` | compiler/src/checker.rs:3733-3759 | The loop over the routes reports nothing exactly when no two of them conflict. |
| `Route.FindRoute` | compiler/src/runtime/server.rs:2502-2503 | In a conflict-free table by falling specificity, the first match is the one route that is more specific than all others that match. |
| `Route.SpecificityCounts` | compiler/src/route.rs:77-79 | Specificity is the number of literal segments. |
| `Route.FullCatchAllExactly` | compiler/src/route.rs:100-110 | The bare catch-all is the one pattern that accepts every path. |
| `Route.AnyAddressExactly` | compiler/src/route.rs:100-110 | A pattern accepts the address of every rpc if and only if it has no literal and two segments, or at most two before a catch-all. |
| `Route.ResolveRoute` | compiler/src/runtime/server.rs:2470-2531 | A route with a literal or fixed segment wins, then an rpc of a declared service, then the bare catch-all, then any two segments as a service and an rpc; nothing is found exactly when no route accepts the path and it has not two segments. |
| `Route.WinnerIsUnique` | compiler/src/route.rs:160-162 | No path has two winning routes. |
| `Sha256.Pad` | compiler/src/lockfile.rs:77-83 | The padding loop ends at a multiple of 64 bytes, and its bits are the padding of section 5.1.1 of FIPS 180-4. |
| `Sha256.FillSchedule` | compiler/src/lockfile.rs:86-94 | The array holds the message schedule of the block. |
| `Sha256.RunRounds` | compiler/src/lockfile.rs:96-121 | The eight working variables after the loop are those of 64 rounds of the standard. |
| `Sha256.Compress` | compiler/src/lockfile.rs:96-131 | The hash value after a block is the sum of the old one and the working variables. |
| `Sha256.HashSource` | compiler/src/lockfile.rs:60-137 | For every text under 2^61 bytes the result is 64 hexadecimal digits, eight for each word of SHA-256 as section 6.2.2 defines it, the first word first. |
| `Sha256.DigestIsSpelled` | compiler/src/lockfile.rs:133-136 | So the text reads back as the eight words, in order. |
| `KnownAnswer.DigestOfAbc` | compiler/src/lockfile.rs:60-137 | For the bytes of "abc" that is the digest ba7816bf 8f01cfea 414140de 5dae2223 b00361a3 96177a9c b410ff61 f20015ad. |
| `Sha256.DigestTextIsInjective` | compiler/src/lockfile.rs:133-136 | The text tells all 256 bits of the digest. |
| `Fips180.PaddingIsInjective` | compiler/src/lockfile.rs:77-83 | Different messages of fewer than 2^64 bits are padded differently. |
| `Utf16.Utf16Position` | compiler/src/lsp.rs:558-570 | Line and column, in UTF-16 units, of an offset. |
| `Utf16.UnitsAreEncoded` | compiler/src/lsp.rs:558-570 | A character counts as many units as its UTF-16 encoding has, and the encoding decodes to it. |
| `Utf16.CharOffsetFromUtf16Position` | compiler/src/lsp.rs:582-601 | The first offset that is on the line and at or past the column, or at the end of the line or of the text. |
| `Utf16.OffsetOfPosition` | compiler/src/lsp.rs:558-601 | The position of an offset leads back to that offset and to no other, newlines and two-unit characters included. |
| `Utf16.OffsetIsClamped` | compiler/src/lsp.rs:582-601 | Any line and column lead into the text: onto that line if it exists, less than one character past the column. |
| `Utf16.PositionGrows` | compiler/src/lsp.rs:558-570 | A later offset has a later position. |
| `Utf16.SpanToRange` | compiler/src/lsp.rs:606-618 | The range is that of the clamped span, and its end is not before its start. |

## Left out

- The parser, type checking beyond route conflicts, the interpreter beyond the fragment of recognised closures, the HTTP server beyond dispatch, and SQL generation.
- Pushdown.FilterMeans: two-valued logic and total comparison; SQL's NULL, the NaN and rounding of floats, and the 64-bit, decimal, timestamp and enum values of the interpreter are not modelled, nor are global names and constants inside closures; rows on which the closure raises a runtime error are excluded, as are string matches on columns that are not text, which SQL generation refuses.
- `recognize_projection_selector`, `recognize_field_selector` and `recognize_group_key_selector`: siblings of the predicate recogniser, each one branch deep.
- ModuleLoader.LoadProgram: link.json, git dependencies, the lock file and path canonicalisation are one given map from imports to files; an unreadable and an unparsable file are one error.
- Lexer.Lexer.Run: the `#linkc` version pragma and the texts of error messages are not modelled; `LexKind`, `LexOperator`, `LexEscape`, `LexHtmlEscape` and `LexInterpolation` are parts of longer methods of the source.
- Lexer.Lexer.SkipTrivia: does not gather the documentation of `///` lines; they are comments like others.
- Lexer.Lexer.NextToken: does not attach that documentation to the token.
- Lexer.Lexer.LexHtmlLiteral: the tokens of an interpolation keep their kinds, not their spans.
- Lexer.Lexer.LexInterpolation: likewise, kinds without spans.
- FormatLaws.FormatKeepsTokens: the values of floats are told apart by how they are printed.
- FormatLaws.FormatIsIdempotent: stated for sources that glue nothing but dots. Of the others it is settled that those of GluedOperatorChanges are not formatted to a fixed point; left are those that first glue `? ?` or `! =` where no token stands right before, an integer, a dot and a number, or a word with `transaction` or an html literal.
- Rendering.TokenIsRead: what `f64` prints is a parameter, not computed.
- Idempotency.RunIsConsistent: real clocks and mutexes are explicit times and atomic steps; the hashing of request bodies is left out.
- RateLimit.AcceptedWithinRate: real numbers stand for `f64`, so rounding is not modelled; the parsing of a limit is left out.
- Cron.Mark: counting past 32 bits is an error here, as in a build that checks for overflow; a release build wraps around instead.
- Cron.NextRunAfter: times are integers without bound; milliseconds that leave 64 bits are not modelled.
- Route.ResolveRoute: query strings and the decoding of arguments, which may fail, are left out; the path is given as its segments, and the program as the names of its services.
- Sha256.HashSource: takes bytes; the encoding of a source as UTF-8 is left out.
- The parsers of durations and of times to live, and the JSON around positions and ranges: each is settled by one branch.
- Database access, git and inference subprocesses, and the generators of text files: connections, catalogue queries and templates.
