# Verified models of spdlog, fmt and a two-pointer search

A Dafny model of the logging library kept under `Linux-c/Spd_study/spdlog` (spdlog with its bundled
fmt) and of the search in `Linux-c/Test/main.c`, with proofs of what each part promises. The files are
independent modules:

- **Printing floating-point numbers** (`Words`, `GrisuFp`, `GrisuScaling`, `GrisuDigits`, `GrisuLimit`,
  `GrisuFormat`, `GrisuNearest`): decoding a binary64 (section 3.4 of IEEE 754-2008), boundaries, the
  rounded 64x64 product, digit generation and last-digit correction of the Grisu2 formatter, up to the
  statements that a printed text reads back to the double and that a cut one is rounded to nearest.
- **Printing integers** (`Decimal`, `DigitCount`, `DecimalFormatter`, `IntegerPrinting`, `IntegerWriter`):
  digit counting, the 4.32 fixed-point formatter, backward writing, thousands grouping, signs and padding.
- **Parsing format strings** (`FormatSpec`, `FormatSpecProofs`, `FormatString`, `FormatReferences`,
  `FormatGrammar`, `FormatErrors`, `FormatSpecParser`, `FormatParser`): a naive reading,
  printers with inverse proofs, exactly which strings are accepted, and the parser's own loops proved equal
  to the naive reading.
- **The asynchronous pipeline** (`Counting`, `CircularQueue`, `AsyncPool`, `AsyncInvariant`,
  `AsyncShutdown`, `AsyncOrder`, `AsyncPosts`): the ring buffer as a class, and the blocking queue with its
  thread pool as a state machine whose steps are the critical sections, the notifications after unlocking,
  wake-ups, the processing of messages, and the taking and dropping of shared pointers to the pool.
- **The rotating file sink** (`Filename`, `RotatingFiles`, `RotatingSink`): over a file system that maps
  names to contents.
- **The pattern formatter** (`Padding`, `Flags`, `FieldSizes`, `PatternCompiler`, `DateCache`,
  `Numerals`, `FlagTexts`, `PatternTexts`, `PatternFormatter`): what each flag prints, a compiler from
  patterns to formatter lists against a one-pass meaning, and caches against recomputation.
- **Smaller cores**: the duplicate filter (`DupFilter`), the Gregorian offset formula (`GmtOffset`, with
  C++ division in `Truncation`), and the two-pointer search (`TwoPointer`).

Code that works in place is a class or a method with loops, proved against a function on values; the
properties are lemmas about those functions. The second-to-calendar map, the clock, the file system, the
separator character and the cached power of ten are parameters.

Where the code and its comments disagree the model follows the code:

- the header of the duplicate filter shows "Skipped 3" where the code counts 2;
- the comment on `get_cached_power` promises an exponent within 3 of the minimum; consecutive table
  entries are 8 decimal exponents apart, so the range is wider, and the model takes -60 to -32 for the
  scaled exponent;
- `compute_boundaries` calls the lower boundary half way to the predecessor; at the smallest normal number
  it is not (`GrisuFp.LowerIsMidpoint`);
- `POWERS_OF_10_32` has ten entries and is indexed by the number of fraction digits; the exact condition
  under which an eleventh would be read is part of `GrisuDigits.Generate`.

To check the project: `dafny verify dfyconfig.toml`.

## Model

| member | source | states |
|---|---|---|
| `GrisuNearest.FormatBits` | Linux-c/Spd_study/spdlog/fmt/bundled/format-inl.h:715-760 | End to end, for the bits of every positive finite double and any cached power within half a unit of the true one, and unless the power table is overrun (exactly when is stated): whether the digits are cut at the limit is known from the arguments and never the case with 17 or more; uncut digits are always accepted, and the text is strictly nearer to that double than to any other finite one; cut digits are as many as allowed and, when accepted, are that double rounded to nearest at the last one |
| `GrisuNearest.SeventeenAreEnough` | Linux-c/Spd_study/spdlog/fmt/bundled/format-inl.h:466-481 | No double is cut when 17 digits are allowed |
| `GrisuLimit.CutIsKnown` | Linux-c/Spd_study/spdlog/fmt/bundled/format-inl.h:484-531 | Generation is cut at the limit exactly when, with all digits allowed taken, what is left of the top is still more than delta; then all of them are written |
| `GrisuScaling.WideInterval` | Linux-c/Spd_study/spdlog/fmt/bundled/format-inl.h:726-749 | The safe interval is wider than 10^-16 of its top, for every double and every normalised cached power |
| `GrisuNearest.PrintedIsNearest` | Linux-c/Spd_study/spdlog/fmt/bundled/format-inl.h:715-761 | A decimal inside the safe interval is strictly nearer to the double printed than to every other finite double, all scaled by the true power of ten |
| `GrisuNearest.AcceptedIsRoundedReal` | Linux-c/Spd_study/spdlog/fmt/bundled/format-inl.h:474-480 | A text accepted at the digit limit is less than half a unit of its last digit away from the double, in real terms |
| `GrisuLimit.AcceptedIsRounded` | Linux-c/Spd_study/spdlog/fmt/bundled/format-inl.h:474-480 | The same on scaled integers: 10p - 1 < number < 10p + 5 in units of the digit cut off, and 10p <= number where the limit cut outside the interval |
| `GrisuFormat.Format` | Linux-c/Spd_study/spdlog/fmt/bundled/format-inl.h:726-755 | The formatter with its scaling and digit generation: the result of `grisu2_gen_digits` on exactly the safe interval, and exactly when it needs a tenth digit of the low part |
| `GrisuDigits.Generate` | Linux-c/Spd_study/spdlog/fmt/bundled/format-inl.h:484-531 | Every run that leaves through the remainder test or the digit limit stops at the first digit at which the value cut off is inside [upper - delta, upper], or at the limit, has written 0..9 only, and is as close to the value as rounding allows; the table of ten powers is overrun if and only if `NeedsTenthDigit` holds of the arguments: nine more digits are allowed, lo > delta, and lo * 10^9 masked to the fraction is at least delta * 10^9 |
| `GrisuDigits.NineDigitsOutside` | Linux-c/Spd_study/spdlog/fmt/bundled/format-inl.h:518-530 | The loop's own test staying false for nine digits comes to that one product |
| `GrisuDigits.MaskIsModulo` | Linux-c/Spd_study/spdlog/fmt/bundled/format-inl.h:524 | Masking with one.f - 1 is the remainder modulo the power of two |
| `GrisuDigits.UnitFits` | Linux-c/Spd_study/spdlog/fmt/bundled/format-inl.h:509-515 | The power of ten of the next digit, shifted, is at most the integral part shifted, which `NextHigh` knows to be below 2^64: neither shift of the loop loses a bit |
| `GrisuDigits.NextHigh` | Linux-c/Spd_study/spdlog/fmt/bundled/format-inl.h:488-516 | One round over the integral part: digits times their power plus the remainder put together from its halves stay equal to upper, the remainder is below the shifted power and both are below 2^64, and one digit earlier the top was outside the interval |
| `GrisuDigits.NextLow` | Linux-c/Spd_study/spdlog/fmt/bundled/format-inl.h:518-530 | One round over the fraction: neither product by ten wraps, the scaled equation is kept, and one digit earlier the top was outside the interval |
| `GrisuDigits.GenerateHigh` | Linux-c/Spd_study/spdlog/fmt/bundled/format-inl.h:488-516 | The loop over the integral part keeps digits times the current power plus the remainder equal to upper, and hands the low loop a state still outside the interval |
| `GrisuDigits.GenerateLow` | Linux-c/Spd_study/spdlog/fmt/bundled/format-inl.h:518-530 | The loop over the fraction terminates, keeps the same equation scaled by a power of ten, and overruns the power table exactly when nine digits leave the remainder outside |
| `GrisuDigits.Round` | Linux-c/Spd_study/spdlog/fmt/bundled/format-inl.h:466-481 | With unit, remainder and delta below 2^64 `grisu2_round` never takes the last digit below 0, wraps no sum or subtraction, keeps the remainder within delta and a lowered one within half a unit of the number, and on exit one more decrement would not bring it closer |
| `GrisuNearest.TenthDigitNeeded` | Linux-c/Spd_study/spdlog/fmt/bundled/format-inl.h:281-283 | A double for which the low loop reads past the ten-entry power table: the sum of 0.1 and 0.2 with 17 digits, scaled by the cached power 10^4 |
| `GrisuFp.MultiplyRounds` | Linux-c/Spd_study/spdlog/fmt/bundled/format-inl.h:442-451 | The four-product multiplication modulo 2^64 is floor((x*y + 2^63) / 2^64), does not overflow, and adds the exponents plus 64 |
| `GrisuFp.Normalize` | Linux-c/Spd_study/spdlog/fmt/bundled/format-inl.h:401-412 | Normalising yields the only representation of the same value with the top bit set |
| `GrisuFp.NextNumber` | Linux-c/Spd_study/spdlog/fmt/bundled/format-inl.h:380-397 | Decoding: consecutive bit patterns are one unit of the last place apart, across binades and subnormals |
| `GrisuFp.OneIsOne` | Linux-c/Spd_study/spdlog/fmt/bundled/format-inl.h:380-397 | The scale of decoding: bit pattern 0x3FF0000000000000 is the number one |
| `GrisuFp.ComputeBoundaries` | Linux-c/Spd_study/spdlog/fmt/bundled/format-inl.h:418-425 | The upper boundary comes out normalised, the lower one at the same exponent with no bit lost, and lower < upper |
| `GrisuFp.UpperIsMidpoint` | Linux-c/Spd_study/spdlog/fmt/bundled/format-inl.h:414-422 | The upper boundary is exactly half way to the next double (the largest one has none) |
| `GrisuFp.LowerIsMidpoint` | Linux-c/Spd_study/spdlog/fmt/bundled/format-inl.h:414-424 | The lower boundary is exactly half way to the previous double if and only if the number is not the smallest normal one; there it still lies strictly between, nearer to the number |
| `GrisuScaling.SafeIsInside` | Linux-c/Spd_study/spdlog/fmt/bundled/format-inl.h:726-749 | After `--upper.f` and `++lower.f` both ends of the interval lie strictly inside the true scaled interval, for any cached power within half a unit, with diff < delta < upper |
| `GrisuScaling.ScaleInterval` | Linux-c/Spd_study/spdlog/fmt/bundled/format-inl.h:728-749 | The scaling statements compute the safe interval without any wrap-around |
| `GrisuScaling.ProductError` | Linux-c/Spd_study/spdlog/fmt/bundled/format-inl.h:736-747 | A scaled boundary is off by less than one unit |
| `DecimalFormatter.Formatter.On` | Linux-c/Spd_study/spdlog/fmt/bundled/format.h:858-882 | For every 32-bit number and its width class, the 4.32 fixed-point writer puts exactly the decimal digits at the buffer position, moves past them and changes nothing else |
| `DecimalFormatter.Lg` | Linux-c/Spd_study/spdlog/fmt/bundled/format.h:832-843 | The comparison tree picks the class g = digits - 1 for every 32-bit number |
| `DecimalFormatter.StartIsPrecise` | Linux-c/Spd_study/spdlog/fmt/bundled/format.h:864-870 | The 64-bit multiply never wraps, the first t satisfies u*2^32 <= t*10^n < (u+1)*2^32 in every width class, and t is the value the code forms from powers with the shift n / 5 * n * 53 / 16 |
| `DecimalFormatter.NextPair` | Linux-c/Spd_study/spdlog/fmt/bundled/format.h:872-875 | Multiplying the fraction by 100 exposes the next two digits and keeps the fixed-point relation for the remaining ones |
| `DecimalFormatter.NextDigit` | Linux-c/Spd_study/spdlog/fmt/bundled/format.h:876-879 | Multiplying by 10 exposes the last digit of an odd count |
| `DigitCount.CountDigitsIsExact` | Linux-c/Spd_study/spdlog/fmt/bundled/format.h:769-774 | The branch-free `count_digits` is the true digit count for every 64-bit number, and its table index stays in range in the 64- and in the 32-bit form |
| `DigitCount.CountDigitsByDivision` | Linux-c/Spd_study/spdlog/fmt/bundled/format.h:777-790 | The looping fallback returns the true digit count and agrees with the branch-free form |
| `IntegerPrinting.FormatDecimal` | Linux-c/Spd_study/spdlog/fmt/bundled/format.h:957-983 | Given the exact cell count, backward writing with or without separators fills precisely those cells with the grouped digits |
| `IntegerPrinting.TextIsGrouped` | Linux-c/Spd_study/spdlog/fmt/bundled/format.h:930-936 | Separators placed by a running counter from the right are the grouping by threes |
| `IntegerPrinting.GroupedLength` | Linux-c/Spd_study/spdlog/fmt/bundled/format.h:2484-2488 | k digits carry exactly (k - 1) / 3 separators |
| `IntegerPrinting.GroupedCells` | Linux-c/Spd_study/spdlog/fmt/bundled/format.h:930-936 | Every fourth cell from the right is a separator, all others are the digits in order |
| `IntegerPrinting.GroupedReadBack` | Linux-c/Spd_study/spdlog/fmt/bundled/format.h:957-983 | Leaving out the separators gives back the digits |
| `IntegerWriter.FormatInt.Signed` | Linux-c/Spd_study/spdlog/fmt/bundled/format.h:2822-2859 | `format_int` prints every signed value, the minimum included |
| `IntegerWriter.FormatInt.Unsigned` | Linux-c/Spd_study/spdlog/fmt/bundled/format.h:2857-2859 | The same for every unsigned value |
| `IntegerWriter.SignedReadBack` | Linux-c/Spd_study/spdlog/fmt/bundled/format.h:2843-2851 | The printed text of a signed value reads back to it |
| `IntegerWriter.ScratchFits` | Linux-c/Spd_study/spdlog/fmt/bundled/format.h:992-995 | The scratch buffer of max_size + max_size / 3 cells is never exceeded, for 32- and 64-bit values, grouped or not |
| `IntegerWriter.Writer.Write` | Linux-c/Spd_study/spdlog/fmt/bundled/format.h:2386-2412 | The whole writer for decimal and grouped specs appends fill, prefix, inner fill, digits, fill |
| `IntegerWriter.Writer.WriteInt` | Linux-c/Spd_study/spdlog/fmt/bundled/format.h:2326-2345 | `write_int` lays out sizes, inner fill and default alignment as specified |
| `IntegerWriter.Writer.WritePadded` | Linux-c/Spd_study/spdlog/fmt/bundled/format.h:2279-2300 | `write_padded` puts the fill on the side the alignment says, the odd cell on the right when centred |
| `IntegerWriter.LayoutFills` | Linux-c/Spd_study/spdlog/fmt/bundled/format.h:2302-2345 | The parts add up to max(width, content), each alignment pads only where it may, a precision asks for exactly the missing zeros |
| `IntegerWriter.FieldReadBack` | Linux-c/Spd_study/spdlog/fmt/bundled/format.h:2386-2490 | Any padded, signed, grouped field reads back by position, whatever its fill: behind the left fill stands a minus for a negative value, a plus or a blank for any other exactly as the flags ask, then the inner fill and the digits that denote the magnitude; every other character is the fill |
| `IntegerWriter.WholeFieldReadBack` | Linux-c/Spd_study/spdlog/fmt/bundled/format.h:2386-2490 | Read as a whole, all its digits taken together, a field denotes the magnitude if and only if none of its fill is a digit that counts |
| `IntegerWriter.SevensAreRead` | Linux-c/Spd_study/spdlog/fmt/bundled/format.h:2279-2300 | A field for which it does not: {:7>4} of 42 is 7742 |
| `IntegerWriter.SignPosition` | Linux-c/Spd_study/spdlog/fmt/bundled/format.h:2386-2397 | A minus sign stands right behind the left fill |
| `FormatSpecProofs.ParseIntAccepts` | Linux-c/Spd_study/spdlog/fmt/bundled/format.h:1454-1477 | A digit run without leading zero is accepted exactly when its value is at most INT_MAX, and then with that value |
| `FormatSpecParser.ParseNonnegativeInt` | Linux-c/Spd_study/spdlog/fmt/bundled/format.h:1454-1477 | The loop with its overflow test before each multiplication reads the number that its digits denote or reports that it is too big; no intermediate value exceeds 32 bits |
| `FormatSpecParser.ParseArgIdAt` | Linux-c/Spd_study/spdlog/fmt/bundled/format.h:1786-1807 | Reading an argument id at a position: empty, number or name, with its error cases |
| `FormatSpecParser.SpecHandler.ParseAlign` | Linux-c/Spd_study/spdlog/fmt/bundled/format.h:1847-1881 | The loop that tries the second character and then the first finds the fill and alignment of the naive reading, or its error |
| `FormatSpecParser.SpecHandler.ParseWidth` | Linux-c/Spd_study/spdlog/fmt/bundled/format.h:1884-1898 | A width as a number or as a reference in braces, stored and numbered as in the naive reading |
| `FormatSpecParser.SpecHandler.ParseFormatSpecs` | Linux-c/Spd_study/spdlog/fmt/bundled/format.h:1903-1966 | The whole specification parser, advancing through the text, stores the same fields, stops at the same place or reports the same error as the naive reading |
| `FormatSpecProofs.ParseSpecsPrinted` | Linux-c/Spd_study/spdlog/fmt/bundled/format.h:1846-1966 | Every specification the grammar can express parses back to its fields and leaves the closing brace, with 0 overriding fill and alignment, dynamic references numbered left to right, and the numbering error where it must be raised |
| `FormatString.ParsePrinted` | Linux-c/Spd_study/spdlog/fmt/bundled/format.h:1998-2049 | Any list of texts and fields, printed with doubled braces, parses back to itself with the references numbered, or to the numbering error it deserves |
| `FormatString.PrintedAcceptedExactly` | Linux-c/Spd_study/spdlog/fmt/bundled/core.h:908-915 | A printed list is accepted if and only if it does not use both automatic and numbered ids |
| `FormatString.AcceptedIsUnmixed` | Linux-c/Spd_study/spdlog/fmt/bundled/format.h:1118-1123 | No accepted string of any form mixes automatic and numbered arguments, and the k-th automatic reference, dynamic widths and precisions included, is argument k |
| `FormatReferences.ReferencesAsWritten` | Linux-c/Spd_study/spdlog/fmt/bundled/core.h:908-915 | The references of an accepted string are its ids in order, dynamic widths and precisions included: a number refers to the argument of that number, a name to that name, the k-th automatic id to argument k |
| `FormatReferences.PiecesAsWritten` | Linux-c/Spd_study/spdlog/fmt/bundled/format.h:1998-2049 | Its pieces are its characters and fields in order, each field with the fill, alignment, sign, width, precision and type that was written, or the default |
| `FormatReferences.RejectedAsDeserved` | Linux-c/Spd_study/spdlog/fmt/bundled/format.h:1118-1123 | A rejected list is so at the first id against the numbering before it, with the error that says which way |
| `FormatGrammar.AcceptedExactly` | Linux-c/Spd_study/spdlog/fmt/bundled/format.h:1786-2049 | A string without NUL is accepted, with letters for types, if and only if it is a written list of texts and fields whose ids are not both automatic and numbered |
| `FormatErrors.ErrorBehind` | Linux-c/Spd_study/spdlog/fmt/bundled/format.h:1998-2049 | An error is reported the same behind any beginning that is accepted |
| `FormatErrors.LoneClosingBrace` | Linux-c/Spd_study/spdlog/fmt/bundled/format.h:2003-2014 | A closing brace that is not doubled: unmatched |
| `FormatErrors.NothingBehindBrace` | Linux-c/Spd_study/spdlog/fmt/bundled/format.h:2026-2028 | An opening brace at the end: invalid format string |
| `FormatErrors.NoId` | Linux-c/Spd_study/spdlog/fmt/bundled/format.h:1786-1807 | Neither the end of an id, a digit, a letter nor an underscore behind an opening brace: invalid format string |
| `FormatErrors.NamesAre` | Linux-c/Spd_study/spdlog/fmt/bundled/format.h:1786-1807 | Names start with one of 26 small or capital letters or an underscore; digits may follow |
| `FormatErrors.NumberNotEnded` | Linux-c/Spd_study/spdlog/fmt/bundled/format.h:1791-1796 | A number that neither a brace nor a colon ends: invalid format string |
| `FormatErrors.NumberTooBig` | Linux-c/Spd_study/spdlog/fmt/bundled/format.h:1454-1477 | A number above 2147483647: too big |
| `FormatErrors.NameNotEnded` | Linux-c/Spd_study/spdlog/fmt/bundled/format.h:2036-2044 | A name that neither a brace nor a colon ends: missing brace |
| `FormatErrors.SpecNotEnded` | Linux-c/Spd_study/spdlog/fmt/bundled/format.h:3100-3116 | A specification with something else behind its type than a brace: missing brace |
| `FormatErrors.BraceAsFill` | Linux-c/Spd_study/spdlog/fmt/bundled/format.h:1869-1874 | A brace as fill: invalid fill character |
| `FormatErrors.PrecisionMissing` | Linux-c/Spd_study/spdlog/fmt/bundled/format.h:1940-1958 | A point with neither a digit nor a brace behind it: missing precision |
| `FormatErrors.DynamicNotEnded` | Linux-c/Spd_study/spdlog/fmt/bundled/format.h:1884-1898 | A width in braces that holds more than an id: invalid format string |
| `FormatParser.Handler.ParseFormatString` | Linux-c/Spd_study/spdlog/fmt/bundled/format.h:1998-2049 | The two-search loop with its callbacks yields the same pieces, or the same error, as the one-character-at-a-time reading |
| `FormatParser.Handler.OnFormatSpecs` | Linux-c/Spd_study/spdlog/fmt/bundled/format.h:3100-3116 | A specification inside a field, but for type checks and fetched values: parsed in place by the handler above, then the closing brace; what is stored, how ids advance, which error is raised |
| `CircularQueue.CircularQ.PushBack` | Linux-c/Spd_study/spdlog/details/circular_q.h:25-35 | A push appends, dropping and counting the oldest item exactly when the ring is full |
| `CircularQueue.CircularQ.PopFront` | Linux-c/Spd_study/spdlog/details/circular_q.h:39-43 | A pop takes the oldest item and keeps the rest in order |
| `CircularQueue.RunConsistent` | Linux-c/Spd_study/spdlog/details/circular_q.h:17-57 | After any pushes and legal pops the contents are the newest items in order, the pops went through older ones in order, and pushed = popped + length + overruns |
| `CircularQueue.NoOverrunIsFifo` | Linux-c/Spd_study/spdlog/details/circular_q.h:24-52 | A run whose pushes find room drops nothing: the k-th pop takes the k-th item pushed |
| `AsyncInvariant.StepKeepsInv` | Linux-c/Spd_study/spdlog/details/thread_pool-inl.h:37-121 | Every step of producers, workers and destructor keeps the whole invariant: no lost wake-up, conservation of messages, the count of terminate messages, their place behind all others |
| `AsyncInvariant.InitialInv` | Linux-c/Spd_study/spdlog/details/thread_pool-inl.h:16-31 | A new pool satisfies the invariant |
| `AsyncInvariant.RunKeepsInv` | Linux-c/Spd_study/spdlog/details/thread_pool-inl.h:37-121 | The invariant holds in every reachable state |
| `AsyncInvariant.ProducerKeepsWakeup` | Linux-c/Spd_study/spdlog/details/mpmc_blocking_q.h:32-51 | After any producer step: a waiting worker implies queue length <= push notifications to come + workers awake, and a blocked pusher the like for free slots |
| `AsyncInvariant.WorkerKeepsWakeup` | Linux-c/Spd_study/spdlog/details/mpmc_blocking_q.h:53-66 | The same after any worker step, wake-ups by time included |
| `AsyncInvariant.ConservedKept` | Linux-c/Spd_study/spdlog/details/thread_pool-inl.h:78-120 | Every message accepted is in exactly one of: processed, dropped, in a worker's hands, queued |
| `AsyncInvariant.WorkerKeepsCount` | Linux-c/Spd_study/spdlog/details/thread_pool-inl.h:96-120 | Each exited worker has processed one terminate message, and behind a terminate message there are only others |
| `AsyncShutdown.Progress` | Linux-c/Spd_study/spdlog/details/mpmc_blocking_q.h:32-66 | No deadlock: with capacity at least 1, in every reachable state that is not idle or finished, some step other than a time-out, spurious wake-up or caller's request is enabled |
| `AsyncShutdown.ShutdownIsBounded` | Linux-c/Spd_study/spdlog/details/thread_pool-inl.h:37-53 | Any run of a shutdown has at most a fixed number of steps plus three for each wake-up by time or for no reason |
| `AsyncShutdown.ShutdownBudget` | Linux-c/Spd_study/spdlog/details/thread_pool-inl.h:37-53 | That number is at most 4 * capacity + 12 * workers + 1 |
| `AsyncShutdown.ShutdownCanFinish` | Linux-c/Spd_study/spdlog/details/thread_pool-inl.h:37-53 | A shutdown can reach its end if and only if the queue size is at least 1 |
| `AsyncShutdown.ShutdownDrains` | Linux-c/Spd_study/spdlog/details/thread_pool-inl.h:37-121 | When the joins finish, each log or flush message queued or in hand when the destructor ran has been processed, nothing more was dropped, the queue is empty, and the workers took one terminate message each |
| `AsyncInvariant.OwnersCounted` | Linux-c/Spd_study/spdlog/async_logger-inl.h:28-51 | The owners of the pool are its creator and the posts in progress, each of which has locked the weak pointer; none is left once the destructor runs |
| `AsyncInvariant.NoOwnerNoPost` | Linux-c/Spd_study/spdlog/async_logger-inl.h:28-51 | So when the last owner has gone and the destructor starts, no post is in progress |
| `AsyncShutdown.StepDropsNothing` | Linux-c/Spd_study/spdlog/async_logger-inl.h:28-51 | Hence once the destructor runs no log or flush message enters and none is dropped |
| `AsyncOrder.RunKeepsOrder` | Linux-c/Spd_study/spdlog/details/thread_pool-inl.h:78-120 | In every run with any number of workers the messages accepted are those that left the queue followed by those in it, and those that left are the ones taken and the ones dropped, each in the order of acceptance |
| `AsyncOrder.NewPoolInOrder` | Linux-c/Spd_study/spdlog/details/thread_pool-inl.h:16-31 | A new pool is in that order |
| `AsyncOrder.OneWorkerIsFifo` | Linux-c/Spd_study/spdlog/details/thread_pool-inl.h:91-120 | With one worker, as by default, the messages processed, then the one in hand, then the queue are the accepted messages less the dropped ones, in order of acceptance |
| `AsyncOrder.BlockingPoolIsFifo` | Linux-c/Spd_study/spdlog/details/thread_pool-inl.h:71-120 | From a new pool of one worker, if every post blocks: at every moment the messages processed, in hand and queued are exactly those accepted, in order, and at the end of a shutdown all of them have been processed in order |
| `AsyncOrder.RunDropsNone` | Linux-c/Spd_study/spdlog/details/mpmc_blocking_q.h:32-42 | A run whose posts all block drops nothing |
| `AsyncOrder.TwoWorkersReorder` | Linux-c/Spd_study/spdlog/details/thread_pool-inl.h:91-120 | One worker is needed for that: two may process two messages in the other order |
| `AsyncPosts.OverrunGetsIn` | Linux-c/Spd_study/spdlog/details/mpmc_blocking_q.h:43-50 | The overrun policy: the message is queued last at once, its producer goes on, and the oldest message is dropped exactly when the queue was full |
| `AsyncPosts.BlockingWaitsForRoom` | Linux-c/Spd_study/spdlog/details/mpmc_blocking_q.h:32-41 | The blocking policy: on a full queue the producer sleeps with its message and nothing else changes; with room the message is queued last |
| `AsyncPosts.DequeueTakesOrWaits` | Linux-c/Spd_study/spdlog/details/mpmc_blocking_q.h:52-66 | A worker takes the oldest message, sleeps only on an empty queue, and gives up when woken by time |
| `AsyncPosts.RunNeverWaits` | Linux-c/Spd_study/spdlog/details/thread_pool-inl.h:71-80 | In a run whose posts all overrun no producer ever sleeps |
| `AsyncPosts.PostsAreAccepted` | Linux-c/Spd_study/spdlog/details/thread_pool-inl.h:55-80 | In every run a message is accepted as often as it is posted, except while its producer waits: none is lost or made up on the way in |
| `AsyncPosts.ProducerOrderIsKept` | Linux-c/Spd_study/spdlog/details/thread_pool-inl.h:55-80 | In every run the messages of one producer are accepted in the order it posted them |
| `AsyncPosts.OwnersDecide` | Linux-c/Spd_study/spdlog/async_logger-inl.h:28-51 | While its creator holds the pool an idle producer can post; the destructor can start exactly when the creator has let go and every producer is idle |
| `AsyncPosts.PoolIsAsAsked` | Linux-c/Spd_study/spdlog/details/thread_pool-inl.h:16-31 | A pool is refused exactly unless it has 1 to 1000 workers; it keeps their number, and its queue never exceeds the size asked for |
| `Filename.SplitIsExact` | Linux-c/Spd_study/spdlog/details/file_helper-inl.h:110-130 | The split finds an extension exactly when there is one: a last dot with something behind it, not first in its path component |
| `Filename.NamesDiffer` | Linux-c/Spd_study/spdlog/sinks/rotating_file_sink-inl.h:44-58 | Two indices have the same file name only if they are equal |
| `Filename.NumberedName` | Linux-c/Spd_study/spdlog/sinks/rotating_file_sink-inl.h:44-58 | File k has a point and its number in decimal before the extension, or at the end without one; file 0 has the name itself |
| `RotatingFiles.ShiftedAt` | Linux-c/Spd_study/spdlog/sinks/rotating_file_sink-inl.h:96-118 | After the descending loop file k is the former file k - 1; the last one stays when nothing replaces it |
| `RotatingFiles.RotatedStream` | Linux-c/Spd_study/spdlog/sinks/rotating_file_sink-inl.h:92-120 | A rotation keeps the stream of all files, oldest first, but for the oldest file when another takes its place |
| `RotatingSink.RotatingFileSink.Rotate` | Linux-c/Spd_study/spdlog/sinks/rotating_file_sink-inl.h:92-120 | The loop of renames, retried once, and the truncating reopen do what the rotation function says, or fail exactly when the file at the refused index exists |
| `RotatingFiles.FailedRotationAt` | Linux-c/Spd_study/spdlog/sinks/rotating_file_sink-inl.h:96-118 | A failed rotation: files above the failing index have moved up, that index is gone, those below are as before, and the base file is empty |
| `RotatingSink.FailureKeepsBounds` | Linux-c/Spd_study/spdlog/sinks/rotating_file_sink-inl.h:111-115 | Truncating on failure keeps the bound on every file's size, and the recorded size is the real one |
| `RotatingSink.RotatingFileSink.SinkIt` | Linux-c/Spd_study/spdlog/sinks/rotating_file_sink-inl.h:67-78 | One message: size accounting, rotation when it does not fit, append; not written if the rotation fails |
| `RotatingSink.RotatingFileSink.RenameFile` | Linux-c/Spd_study/spdlog/sinks/rotating_file_sink-inl.h:125-130 | Removing the target and renaming, with its failure case |
| `RotatingSink.StreamIsKept` | Linux-c/Spd_study/spdlog/sinks/rotating_file_sink-inl.h:67-120 | After any run from any directory, with or without rotate_on_open, what was there followed by everything logged is exactly what the rotations threw away followed by the files from index max_files down to 0 |
| `RotatingSink.FreeIndicesLoseNothing` | Linux-c/Spd_study/spdlog/sinks/rotating_file_sink-inl.h:92-120 | Rotations that only fill free indices throw nothing away |
| `RotatingSink.FreshStreamIsKept` | Linux-c/Spd_study/spdlog/sinks/rotating_file_sink-inl.h:67-120 | From a fresh directory the files hold a suffix of everything logged, and all of it as long as there are at most max_files rotations |
| `RotatingSink.MessagesAreWhole` | Linux-c/Spd_study/spdlog/sinks/rotating_file_sink-inl.h:67-120 | No message is split: the files divide into the last messages in order, and each has at most max_size bytes or is a single message (or one file found at the start) |
| `RotatingSink.OpenedCovers` | Linux-c/Spd_study/spdlog/sinks/rotating_file_sink-inl.h:33-38 | On opening the recorded size is the real one if and only if it is not the case that rotate_on_open met a file with content; it is never too small |
| `RotatingSink.RunSlack` | Linux-c/Spd_study/spdlog/sinks/rotating_file_sink-inl.h:71-76 | The difference lasts until the first rotation, which happens exactly when the messages do not all fit |
| `RotatingSink.OthersUntouched` | Linux-c/Spd_study/spdlog/sinks/rotating_file_sink-inl.h:92-130 | No other file is touched |
| `PatternCompiler.CompiledMeansTheSame` | Linux-c/Spd_study/spdlog/details/pattern_formatter-inl.h:1271-1316 | Running the compiled formatters prints what a one-pass reading of the pattern means: text as it is, unknown flags as text without their padding, a trailing percent sign dropped |
| `PatternFormatter.PatternFormatter.CompilePattern` | Linux-c/Spd_study/spdlog/details/pattern_formatter-inl.h:1271-1316 | The compiling loop builds exactly the formatter list of the recursive compiler |
| `PatternFormatter.HandlePadSpec` | Linux-c/Spd_study/spdlog/details/pattern_formatter-inl.h:1231-1269 | The padding parser returns side and width and moves behind them |
| `PatternCompiler.PadSpecReadsBack` | Linux-c/Spd_study/spdlog/details/pattern_formatter-inl.h:1231-1269 | A written padding spec reads back to its side and to its width modulo 2^64, cut to 64 |
| `PatternCompiler.WidthIsExact` | Linux-c/Spd_study/spdlog/details/pattern_formatter-inl.h:1262-1268 | The width is the written number cut to 64 if and only if that number is below 64 or is at least 64 modulo 2^64 |
| `PatternCompiler.WidthWraps` | Linux-c/Spd_study/spdlog/details/pattern_formatter-inl.h:1262-1268 | A width that wraps: %18446744073709551617v pads to one character |
| `PatternCompiler.DoubledPrintsItself` | Linux-c/Spd_study/spdlog/details/pattern_formatter-inl.h:1199-1201 | Any string with its percent signs doubled is a pattern that prints the string |
| `PatternCompiler.PadSpec` | Linux-c/Spd_study/spdlog/details/pattern_formatter-inl.h:1268 | No width exceeds 64 |
| `Padding.PaddingFits` | Linux-c/Spd_study/spdlog/details/pattern_formatter-inl.h:69-74 | No request for spaces exceeds the 64-space buffer |
| `Padding.PaddedLength` | Linux-c/Spd_study/spdlog/details/pattern_formatter-inl.h:35-67 | A padded text has length max(width, length) if and only if the padder was told the true size or neither size leaves anything to pad |
| `Padding.PaddedPlace` | Linux-c/Spd_study/spdlog/details/pattern_formatter-inl.h:47-57 | The text stands at the end, at the start, or in the middle with the odd space on the right, and all else is blank |
| `FlagTexts.LettersAreFlags` | Linux-c/Spd_study/spdlog/details/pattern_formatter-inl.h:1043-1197 | Exactly which letters are flags |
| `FlagTexts.PayloadAndName` | Linux-c/Spd_study/spdlog/details/pattern_formatter-inl.h:92-700 | %v and %n print the message and the logger's name, %t and %P the ids in decimal, %p the half of the day |
| `FlagTexts.NamesIdentify` | Linux-c/Spd_study/spdlog/details/pattern_formatter-inl.h:108-230 | Level, day and month are read off the names printed |
| `FlagTexts.ClockFlags` | Linux-c/Spd_study/spdlog/details/pattern_formatter-inl.h:233-640 | Each clock flag prints a decimal numeral of the field it is named for, and %D, %T, %R, %r, %z and %c their parts in order |
| `FlagTexts.FractionFlags` | Linux-c/Spd_study/spdlog/details/pattern_formatter-inl.h:423-494 | %e, %f and %F print the milli-, micro- and nanoseconds of the second in three, six and nine digits, wrapped around before the epoch; %E the whole seconds |
| `FlagTexts.SecondsAreWhole` | Linux-c/Spd_study/spdlog/details/pattern_formatter-inl.h:478-494 | Whole seconds and the rest make up the time |
| `FlagTexts.ElapsedFlags` | Linux-c/Spd_study/spdlog/details/pattern_formatter-inl.h:869-890 | %u, %i, %o and %O print the time since the previous message in whole units |
| `FlagTexts.SourceFlags` | Linux-c/Spd_study/spdlog/details/pattern_formatter-inl.h:752-865 | The source flags print file, name without folders, line and function, or nothing without a line |
| `Numerals.NumeralIsOnly` | Linux-c/Spd_study/spdlog/details/pattern_formatter-inl.h:304-318 | There is only one numeral of a given least length, so that these texts are determined |
| `PatternTexts.PartsThen` | Linux-c/Spd_study/spdlog/details/pattern_formatter-inl.h:1271-1316 | A written pattern prints its parts one after the other: texts, flags, flags with side and width, and letters that are no flags behind their percent sign |
| `PatternTexts.RunPrintsParts` | Linux-c/Spd_study/spdlog/details/pattern_formatter-inl.h:1015-1040 | End to end: in any run message k prints as the parts of the pattern for its own second, and the end of the line, once a second other than 0 has been seen |
| `PatternTexts.ColouredExactly` | Linux-c/Spd_study/spdlog/details/pattern_formatter-inl.h:724-750 | The range to be coloured is exactly the text printed between %^ and %$ |
| `PatternTexts.TrailingPercent` | Linux-c/Spd_study/spdlog/details/pattern_formatter-inl.h:1271-1316 | A percent sign at the end, with a padding or not, prints nothing |
| `PatternTexts.DefaultFormat` | Linux-c/Spd_study/spdlog/details/pattern_formatter-inl.h:894-987 | %+ prints date, time, milliseconds, name, level, source and message in this order; exactly the level is to be coloured |
| `FieldSizes.WhoTellsTrueSize` | Linux-c/Spd_study/spdlog/details/pattern_formatter-inl.h:89-890 | For each flag, every message and every broken-down time, exactly when the size it passes to the padder is that of its text |
| `FieldSizes.OrdinarySizes` | Linux-c/Spd_study/spdlog/details/pattern_formatter-inl.h:89-890 | For ordinary times: never for %D and %x, only on some days for %c, only from 10^9 seconds on for %E, below a million units for elapsed times, always for all other flags |
| `DateCache.CachesAreTransparent` | Linux-c/Spd_study/spdlog/details/pattern_formatter-inl.h:1015-1040 | In any run of messages, forwards or backwards in time, message k prints as if converted from scratch if some message up to it lies outside epoch second 0, and otherwise exactly as with a zeroed broken-down time |
| `DateCache.CachedRunIsDirect` | Linux-c/Spd_study/spdlog/details/pattern_formatter-inl.h:901-942 | Formatters with their `%+` caches print what formatters without caches print, and the caches stay those of the current second |
| `DateCache.SecondZeroPrints1900` | Linux-c/Spd_study/spdlog/details/pattern_formatter-inl.h:989-997 | Whatever follows, a first message in second 0 prints the year 1900 under %Y where the calendar says 1970 |
| `PatternFormatter.PatternFormatter.Format` | Linux-c/Spd_study/spdlog/details/pattern_formatter-inl.h:1015-1031 | The formatting method updates clock, caches and output as the step function says |
| `PatternFormatter.PatternFormatter.Default` | Linux-c/Spd_study/spdlog/details/pattern_formatter-inl.h:1000-1008 | Without a pattern the list is that of the pattern %+ |
| `DupFilter.DupFilterSink.SinkIt` | Linux-c/Spd_study/spdlog/sinks/dup_filter_sink.h:57-80 | One message: counted, or forwarded behind the report of those counted |
| `DupFilter.NothingIsLost` | Linux-c/Spd_study/spdlog/sinks/dup_filter_sink.h:57-87 | In every run the payloads received are the output with each report expanded to copies of the payload forwarded before it, followed by the unreported copies of the last payload |
| `DupFilter.EqualNeighboursAreApart` | Linux-c/Spd_study/spdlog/sinks/dup_filter_sink.h:83-87 | Two messages forwarded one after the other with equal payloads are more than max_skip_duration apart |
| `DupFilter.ForwardedExactly` | Linux-c/Spd_study/spdlog/sinks/dup_filter_sink.h:57-87 | After any run the next message is forwarded if and only if it is more than max_skip_duration later than the last one forwarded or its payload differs; otherwise nothing is put out |
| `DupFilter.FirstForwarded` | Linux-c/Spd_study/spdlog/sinks/dup_filter_sink.h:57-87 | The first message is compared with an empty one at the epoch |
| `DupFilter.ThreeHellosSkipTwo` | Linux-c/Spd_study/spdlog/sinks/dup_filter_sink.h:17-34 | The example in the header, as an example only: it reports 2 skipped messages, not 3 |
| `GmtOffset.OffsetCountsSeconds` | Linux-c/Spd_study/spdlog/details/os-inl.h:266-288 | In all years the result is the difference of the second counts, days being counted by summing years of 365 and 366 days under the 4/100/400 rule, but for a day where exactly one of the two years is among those before -99 for which dividing towards zero loses one; so it is exact if and only if both or neither are |
| `GmtOffset.LastLostDay` | Linux-c/Spd_study/spdlog/details/os-inl.h:277-278 | No year from -99 on is among them, and -100 is |
| `GmtOffset.DaysBeforeClosed` | Linux-c/Spd_study/spdlog/details/os-inl.h:276-281 | The 4/100/400 rule counts the days of all years, before and after year 1 |
| `GmtOffset.OffsetIsAdditive` | Linux-c/Spd_study/spdlog/details/os-inl.h:266-288 | The offset is antisymmetric and additive, in any year |
| `GmtOffset.OffsetOrders` | Linux-c/Spd_study/spdlog/details/os-inl.h:266-288 | On valid times its sign tells which is earlier, and it is 0 only between equal times |
| `TwoPointer.FindNumber` | Linux-c/Test/main.c:7-37 | On any sorted array whose pair sums fit in an int, the loop is left through its break if and only if two distinct positions sum to the target, and then at such a pair |

## Left out

- GrisuNearest.FormatBits: a text rejected at the digit limit is given no meaning; the formatter then falls back to `snprintf`.
- The numeric contents of the Grisu power table and the floating-point index of `get_cached_power`: "within half a unit" and the exponent range are preconditions.
- `grisu2_prettify`, `process_specs` and the fallback to `snprintf`: sizing and placing of the decimal point.
- Hexadecimal, octal and binary integers: easier members beside the decimal writer.
- FormatGrammar.AcceptedExactly: strings with a type that is no letter, which the type checks refuse later, and strings with a NUL character, which the code takes for no type.
- FormatParser.Handler.OnFormatSpecs: the argument-type checks of `specs_checker` and the fetching of argument values, dynamic ones included.
- Code points: a width counts characters, as for ASCII; `wchar_t` and UTF-16 conversion are not modelled.
- The queue and the pool are modelled on values, as a state machine: the objects' identity, and the memory effects inside one critical section, are not part of the model; each critical section is one step. The variant for MinGW, which notifies before unlocking, is not modelled.
- The creation of the pool: threads are taken to start running without failure, and the start callback is not modelled.
- AsyncShutdown.ShutdownIsBounded: fairness is not modelled; a scheduler may delay any step for ever, and a join waits for as long.
- What a worker does with a log message (`backend_log_`, levels, sinks, the flush level): processing is one step; a sink that logs back into its own pool is not modelled.
- RotatingSink.RotatingFileSink.constructor: a rename that fails while rotating on open, and write errors, are not modelled; a failed rename in a later rotation is refused both times.
- RotatingSink.RotatingFileSink.SinkIt: sizes are unbounded, without the wrap-around of a 64-bit size.
- Opening a file whose name is empty, which the operating system refuses.
- The colour of messages beyond the range recorded by a pattern, `%z` on Windows with its own ten-second cache, and the macros that leave out date or name.
- The clock read when a `%u`, `%i`, `%o` or `%O` formatter is built: the time since the previous message is part of the message.
- DupFilter.NothingIsLost: a report is an event of its own; a user's message with the same text as a report would look the same in the output.
- GmtOffset.OffsetCountsSeconds: overflow of the year in 32 bits.
- TwoPointer.FindNumber: the printed lines; on an overflowing pair sum the original has undefined behaviour.
- Registry, periodic worker, console, syslog, daily and simple file sinks, hex dump, `printf.h`, `chrono.h`, `color.h`, `ranges.h`, and the socket, database, scraper and FreeSwitch programs: they would add easier or repeated members, or calls into foreign code.
