# Solana vanity address generator: a Dafny model

This project models the core of a browser tool that searches for a Solana key pair whose base58 address starts with a chosen prefix and/or ends with a chosen suffix. It has five modules:

- `Worker` (worker.dfy): the code each Web Worker runs. It tests every generated address against the pattern, optionally ignoring case. It counts attempts into batches of 400 to 600 and reports each batch, stopping at the first match.
- `Vanity` (vanity.dfy): the coordinator in `vanity()`.
  - It keeps the running total of attempts, forwards the total to the progress callback on every interval tick, and settles the search promise exactly once.
  - `Coord`/`Step`/`Run` is a state machine over the sequence of ticks and worker events, which the event loop delivers one at a time.
  - The class `Search` holds the same state as mutable fields. Each handler is proved to perform one `Step`.
- `Estimate` (estimate.dfy): `estimate()`.
  - A loop multiplies the probability of the pattern, kept as an exact fraction.
  - The difficulty is proved equal to the closed form 29^k · 58^(n−k). Here n is the pattern length and k is the number of letters counted twice when case is ignored.
- `Display` (display.dfy): the pure helpers of the page:
  - the base58 input filter and JavaScript's `String.prototype.slice`;
  - the length limit on prefix plus suffix;
  - the preview and result splits;
  - the unit choice of `formatAmount`/`formatTime`;
  - the progress percentage.
- `Page` (page.dfy): the page script's module-level state as the class `Form`. Its fields are the two inputs, the thread counter, `isGenerating`, the disabled flags, and the displayed estimate, progress and result. Its methods are `updateAll` and the event handlers.

External inputs are parameters of the model:
- Key-pair generation becomes the sequence `draws`: each element is an address and key, or a generator exception.
- `Math.random()` at each reporting check becomes the sequence `limits`. Each element is the threshold 400 + r (r = `Math.random()` · 200) rounded up to a whole number (`Worker.Threshold`). A whole batch count reaches one exactly when it reaches the other (`Worker.ThresholdAgrees`).
- The benchmarked `SPEED_PER_THREAD` becomes `speedPerThread`.
- `navigator.hardwareConcurrency` becomes `hardwareConcurrency`, with 0 standing for "unknown".
- The example address becomes `pubKey`.

## Model

| member | source | states |
|---|---|---|
| Worker.LowerChars | src/lib/libSolana.js:22-23 | lower-casing keeps the length and every character outside 'A'..'Z', maps each of 'A'..'Z' to its lower-case letter, and leaves no upper-case letter |
| Worker.LowerIdempotent | src/lib/libSolana.js:32 | lower-casing an already lower-cased address changes nothing |
| Worker.NormalizeChars | src/lib/libSolana.js:22-23 | the comparison form has the text's length; it is the text itself when case-sensitive; otherwise it has no upper-case letter and is the same for two texts that differ only in letter case |
| Worker.Test | src/lib/libSolana.js:32-37 | the match test on a generated address (an empty prefix or suffix passing always) is true exactly when the draw stops the worker, i.e. `Matches` of the address against the original pattern |
| Worker.EmptyPatternMatchesAll | src/lib/libSolana.js:34-35 | with an empty prefix and an empty suffix every address matches, in both modes |
| Worker.CaseSensitiveMatch | src/lib/libSolana.js:32-37 | a case-sensitive match holds iff the address starts with the prefix and ends with the suffix |
| Worker.CaseInsensitiveMatch | src/lib/libSolana.js:22-23 | a case-insensitive match holds iff the lower-cased address starts with the lower-cased prefix and ends with the lower-cased suffix |
| Worker.SensitiveImpliesInsensitive | src/lib/libSolana.js:22-37 | every case-sensitive match is also a case-insensitive match |
| Worker.MixedCaseExample | src/lib/libSolana.js:22-37 | "AbCxYz" has prefix "abc" when case is ignored, and not otherwise |
| Worker.TotalAppend | src/lib/libSolana.js:39-44 | appending an event adds its batch count to the events' total |
| Worker.Threshold | src/lib/libSolana.js:43 | for r in [0, 200) the whole-number threshold lies in 400 .. 600 and is 400 + r rounded up |
| Worker.ThresholdAgrees | src/lib/libSolana.js:43 | a batch count reaches 400 + r iff it reaches the whole-number threshold |
| Worker.FollowsRuleAt | src/lib/libSolana.js:43-45 | when a worker's messages follow the reporting rule, each single report does: its count is the first attempt of its batch at which the batch reached that attempt's threshold |
| Worker.Attempt | src/lib/libSolana.js:28-46 | one turn of the loop stops exactly on a throwing or matching draw, with the final message and its promises; otherwise it reports the batch iff it reached this attempt's threshold and keeps the loop's facts |
| Worker.Run | src/lib/libSolana.js:19-48 | the worker stops exactly at the first draw that matches or throws, and its messages end with a non-report exactly when it stopped; every message but the last is a progress report of 400 to 600 attempts, sent at the first attempt of its batch that reached that attempt's threshold; the attempts after the last report reached no threshold; the reports never claim more attempts than were made; a final match message carries that draw's address and key, a count of at least 1, and brings the total to exactly the number of attempts; an error message means the generator threw |
| Vanity.Range | src/lib/libSolana.js:62-64 | the worker loop starts exactly the workers 0 .. cpu−1 |
| Vanity.Start | src/lib/libSolana.js:55-66 | right after the executor the total is 0, the interval is armed, the promise is pending, workers 0 .. cpu−1 run, and 0 has been reported iff there is a callback |
| Vanity.Step | src/lib/libSolana.js:58-90 | one input keeps a settled outcome, only a progress report raises the total (by its count), only a tick calls the callback (with the total), and no input starts a worker |
| Vanity.SettleOnce | src/lib/libSolana.js:71-81 | the first resolve or reject settles a pending promise with that outcome, and every later one is ignored |
| Vanity.TickReports | src/lib/libSolana.js:58-60 | a tick passes the sum of the progress reports so far to the callback while the interval is armed and a callback exists, and otherwise changes nothing |
| Vanity.RunAppend | src/lib/libSolana.js:58-90 | replaying one more input is one more step, and the progress sum grows by that input's report |
| Vanity.RunTotal | src/lib/libSolana.js:87-88 | the coordinator's total is exactly the sum of the progress reports received |
| Vanity.TotalMonotone | src/lib/libSolana.js:87-88 | the total never decreases over any continuation of the inputs |
| Vanity.RunInv | src/lib/libSolana.js:56-89 | every reachable state satisfies the invariant: the reported values are sorted, start with 0 (when there is a callback) and never exceed the total; a settled promise has its interval cleared |
| Vanity.ReportedNonDecreasing | src/lib/libSolana.js:56-60 | the first value passed to the callback is 0, and later values never decrease |
| Vanity.SettledIsFinal | src/lib/libSolana.js:55-89 | once the promise is settled, no later input changes the outcome or calls the callback again, and the interval stays cleared |
| Vanity.FirstMatchResolves | src/lib/libSolana.js:77-86 | the first match resolves with attempts equal to the sum of progress reports plus the match's count, which is at least every value reported; the interval is cleared and no worker keeps running |
| Vanity.ErrorRejects | src/lib/libSolana.js:68-72 | a worker error on a pending search rejects it and clears the interval, and leaves the workers running |
| Vanity.DeliveriesAppend | src/lib/libSolana.js:74-75 | delivering two runs of events in turn is delivering their concatenation |
| Vanity.DeliveredProgress | src/lib/libSolana.js:87-88 | delivering progress reports only leaves the promise pending, and the progress sum equals the worker's total |
| Vanity.SingleWorkerAttempts | src/lib/libSolana.js:39-88 | a worker's reports followed by its match resolve the search with exactly the worker's total number of attempts |
| Vanity.Search.constructor | src/lib/libSolana.js:55-66 | the executor starts the workers 0 .. cpu−1, arms the interval and reports 0 when there is a callback |
| Vanity.Search.OnTick | src/lib/libSolana.js:58-60 | the interval callback performs exactly one `Tick` step |
| Vanity.Search.OnMessage | src/lib/libSolana.js:74-90 | the message handler performs exactly one step for a match or progress event, terminating every worker on a match |
| Vanity.Search.OnError | src/lib/libSolana.js:68-72 | the error handler performs exactly one error step |
| Estimate.CasePairLetters | src/lib/libSolana.js:125 | the characters the regular expression counts twice are exactly the ASCII letters other than i, l and o, in either case, and never a digit |
| Estimate.Pairs | src/lib/libSolana.js:125 | the number of case-pair letters is at most the pattern length |
| Estimate.CancelTwos | src/lib/libSolana.js:133 | 58^n = 2^k · 29^k · 58^(n−k), so 1 / probability is a whole number |
| Estimate.ExpectedTime | src/lib/libSolana.js:135-141 | the expected time times the rate is the difficulty, and it is 0 when the rate is 0 (where the quotient is Infinity) |
| Estimate.Compute | src/lib/libSolana.js:114-143 | the difficulty is 29^k · 58^(n−k) for the combined pattern; attempts per second is the floor of rate × threads; the expected time is difficulty / rate, and 0 when the rate is 0 (where the division gives Infinity) |
| Estimate.DifficultyAtLeastOne | src/lib/libSolana.js:116-133 | every difficulty is at least 1, and the empty pattern's is exactly 1 |
| Estimate.DifficultyAppend | src/lib/libSolana.js:118-131 | one more character multiplies the difficulty by 58, or by 29 for a case-pair letter when case is ignored |
| Estimate.DifficultyMonotone | src/lib/libSolana.js:118-133 | extending the combined pattern at its end (appending to the suffix) never makes it easier |
| Estimate.DifficultyConcat | src/lib/libSolana.js:118-133 | the difficulty of a concatenation is the product of the parts' difficulties |
| Estimate.DifficultyInsert | src/lib/libSolana.js:115-133 | inserting text anywhere in prefix + suffix, in particular extending the prefix or the suffix, never makes the pattern easier |
| Estimate.InsensitiveAtMostSensitive | src/lib/libSolana.js:119-130 | case-sensitive difficulty is 58^n, and ignoring case never makes a pattern harder |
| Estimate.NoPairsSameDifficulty | src/lib/libSolana.js:122-129 | a pattern of digits and i/l/o has difficulty 58^n in both modes |
| Estimate.AllPairsDifficulty | src/lib/libSolana.js:125-126 | a pattern of case-pair letters has difficulty 29^n ignoring case and 2^n · 29^n with case |
| Display.Base58Alphabet | src/solanaPlaceholder.js:73 | the filter keeps exactly the 58 characters of the base58 alphabet, which lacks 0, O, I and l |
| Display.Sanitize | src/solanaPlaceholder.js:73-75 | the filtered text is base58 and no longer than the input |
| Display.SanitizeAppend | src/solanaPlaceholder.js:73-75 | filtering a concatenation filters each part, so order is kept |
| Display.SanitizeCounts | src/solanaPlaceholder.js:73-75 | every base58 character occurs as often as in the input, and every other character is gone |
| Display.SanitizeFixpoint | src/solanaPlaceholder.js:75-78 | the filter leaves text unchanged iff the text is already base58 |
| Display.SanitizeIdempotent | src/solanaPlaceholder.js:73-78 | filtering twice is filtering once |
| Display.SliceIndex | src/solanaPlaceholder.js:40-43 | a slice index counts negative values from the end and is clamped to 0 .. length |
| Display.Slice | src/solanaPlaceholder.js:87-91 | within bounds the slice is the subsequence; otherwise its length and characters are those of the clamped range from the start index, empty when that range is reversed; a negative start with the end at the length takes that many characters from the end |
| Display.Truncate | src/solanaPlaceholder.js:84-94 | within the limit nothing changes; otherwise only the edited field (the suffix if it was edited, the prefix otherwise) is cut, its result is a prefix of the original, and the two fill the limit exactly when the other field fits |
| Display.Placeholder | src/solanaPlaceholder.js:39-49 | the bold parts are the pattern; when it fits, the middle is the address between them and the three parts have the address's length |
| Display.SplitResult | src/solanaPlaceholder.js:191-193 | when the pattern fits, the three parts rebuild the address with bold parts of the pattern's lengths; an empty suffix gives an empty end and a middle running to the end |
| Display.SplitShowsPattern | src/lib/libSolana.js:32-37 | for a matching address the bold parts equal the pattern, up to case when case is ignored |
| Display.FormatAmount | src/solanaPlaceholder.js:52-57 | "B" iff ≥ 1e9, "M" iff in [1e6, 1e9), "k" iff simple and in [1e3, 1e6), else the floored integer; the scaled figure times its unit is the number |
| Display.FormatTime | src/solanaPlaceholder.js:59-65 | the infinity text iff the value is Infinity; "s" below 60, "m" below 3600, "h" below 86400, else "d"; the figure times its unit is the duration |
| Display.CurrentDifficulty | src/solanaPlaceholder.js:103 | a difficulty of 0 becomes 1, and any other is kept |
| Display.MatchChance | src/solanaPlaceholder.js:171-179 | the chance is 100 when the difficulty is at most 1, lies in [0, 100], and is 0 before any attempt |
| Display.MatchChanceMonotone | src/solanaPlaceholder.js:178 | more attempts never lower the chance |
| Display.ShownProgress | src/solanaPlaceholder.js:180 | the shown chance is the chance capped at 99.99 |
| Page.Form.constructor | src/solanaPlaceholder.js:34-37 | the counter starts at the hardware concurrency (4 when unknown); the first render shows empty fields, the whole example address and difficulty 1, with the page showing their estimate (`Shows`) |
| Page.Form.UpdateAll | src/solanaPlaceholder.js:69-121 | a no-op during a run; otherwise only the event's field is filtered, the fields are truncated, and the preview, the whole estimate (difficulty, rate, expected time, `currentDifficulty`), the reset progress and the thread-button flags all follow the new fields (`Shows`); nothing else changes |
| Page.Form.LimitFields | src/solanaPlaceholder.js:72-94 | the fields become the filtered, truncated pattern; both are base58 and together fit the address |
| Page.Form.Render | src/solanaPlaceholder.js:96-120 | given the estimate of the current fields, the page shows their preview and that estimate, a 0 difficulty as 1, the reset progress and thread-button flags that follow the counter (`Shows`) |
| Page.Form.OnInput | src/solanaPlaceholder.js:123-124 | typing into a field sets it to the filtered, truncated text and the whole display follows (`Shows`); nothing changes during a run; the counter and the switch are untouched |
| Page.Form.OnCaseSwitch | src/solanaPlaceholder.js:142 | the switch sets case sensitivity, keeps the pattern and the whole display follows (`Shows`); nothing changes during a run; the counter is untouched |
| Page.Form.OnThreadsMinus | src/solanaPlaceholder.js:126-132 | a click on the disabled button changes nothing; otherwise (outside a run, above 1) the counter drops by one, the pattern is kept, and the estimate and button flags follow the new counter (`Shows`) |
| Page.Form.OnThreadsPlus | src/solanaPlaceholder.js:134-140 | a click on the disabled button changes nothing; otherwise (outside a run, below the maximum) the counter rises by one, the pattern is kept, and the estimate and button flags follow the new counter (`Shows`) |
| Page.Form.BeginGenerate | src/solanaPlaceholder.js:145-165 | a click starts a run iff none is going: it records the pattern, sets `isGenerating`, disables every control and resets the progress |
| Page.Form.OnSearchProgress | src/solanaPlaceholder.js:170-185 | the progress shown is the capped chance for the current difficulty (99.99 when that is at most 1), and the attempts are shown |
| Page.Form.FinishGenerate | src/solanaPlaceholder.js:190-237 | a resolved search shows the split address, the attempts and 100%; a rejected one shows the error legend and leaves the progress, the attempts and the result as they were; either way `isGenerating` ends, the controls are enabled and the thread buttons follow the counter |
| Page.ClickThreads | src/solanaPlaceholder.js:119-140 | after any sequence of +/− clicks the counter stays in 1 .. maxThreads and, outside a run, the minus button is disabled iff threads ≤ 1 and the plus button iff threads ≥ maxThreads |

## Left out

- Key-pair generation, `toBase58` and `bs58.encode` are foreign library calls. The worker reads a finite sequence of draws in place of `while(true)`. It ends when the sequence runs out, with its last batch unreported.
- Worker creation, the Blob URL, `postMessage` transport and `terminate` are not modelled. A terminated worker is one removed from `running`. Workers run in parallel, but the model sees only the order in which their events reach the coordinator, which is any interleaving.
- The 20 ms timing of the interval and the elapsed time in the result and in the live stats are not modelled: a tick is an input, and `time` is dropped from `SearchResult`.
- `benchmark` is a wall-clock loop and is not part of this model. Its result is the parameter `speedPerThread`.
- Floating-point arithmetic is not modelled.
  - The estimate uses an exact fraction, so the model's difficulty is the exact value, not the float that `Math.floor` truncates.
  - The progress chance uses exact reals.
  - `toFixed`, `toLocaleString` and `parseFloat` are not modelled: a formatted amount is its scaled figure and unit.
- Estimate.Compute: the expected time is the real quotient, not its two-decimal string.
- DOM rendering is not modelled: `innerHTML` templates, text content and CSS classes are not represented. The displayed estimate, progress, attempts and result split become field values; the private key text, the result time, the button and label texts and the thread counter's text are not modelled. The auto-download of the key file is not part of the model either.
- `vanity`'s default for `cpu` (`navigator.hardwareConcurrency || 2`) is not modelled. The page always passes its counter, and the model takes `cpu` as a parameter.
- Lower-casing covers ASCII only. Addresses and filtered patterns are base58, so every character is ASCII.
- A disabled control gets no events. Every handler of a control therefore first checks that control's disabled flag and does nothing when it is set. The thread buttons are disabled during a run and at the counter's bounds, and their handlers then keep the code's own bound checks.
- src/lib/component/switch.js, src/lib/component/progress.js and src/vanityList.js are UI wrappers and a template; they are not part of this model.
- The auto-download switch's `change` event only re-runs `updateAll`, which `OnCaseSwitch` already shows with an unchanged pattern. It has no separate handler in the model.
- Vanity.ErrorRejects: the code does not terminate the other workers or revoke the worker URL on an error, so they keep running after the promise is rejected; the model keeps them in `running`.
- No cancellation operation exists in the code, so none is modelled.
- Case-insensitive difficulty: the estimate's 2/58 chance per case-pair letter is the code's own approximation, and the model keeps it. Among the letters, the base58 alphabet lacks `I`, `O` and `l`, and the regular expression excludes `i`, `l` and `o` in both cases. The model follows the regular expression.
- Display.FormatTime: the infinity text is the three characters the source file holds (the UTF-8 bytes of "∞" read as Windows-1252), kept as written.
