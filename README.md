# RegularPatterns in Dafny

This project models the pattern-matching engine of `System.Text.RegularPatterns`. That engine is a small continuation-passing algebra over a string, plus the queries that drive it. Each `Pattern` is a function `(str, s, e, continuation) -> int`, and its result reads as follows:
- a positive value is success, and carries the next cursor;
- `0` tells the caller to retry elsewhere;
- `-1` aborts.

The project covers two variants of the engine:

- **RegularPatterns.cs**, modelled by modules `RegularPatterns` and `PatternExtensions`.
  - Primitives: `None`, `End`, `Any`, `Text` (ordered literal alternatives), `Except` (negative literal test) and `Repeat` (counted repetition).
  - Queries: `Match`, `RangeOf` and `RangesOf`. Each one folds the declared pattern array into one chain, applies the structural checks of the fold, and runs the chain at candidate start offsets.
  - `Between`, and `StringRange` as a (content, start, end) triple.
- **Deregex.cs**, the earlier variant, modelled by modules `Deregex` and `DeregexExtensions`.
  - Primitives: `None`, `End` and `Any` as before, a single-literal `Text`, and the sequential `Multi`.
  - The same three queries, with its own choice of sentinel and its single structural check.

Module `Common` holds what both variants share:
- the character comparison (`char.ToUpperInvariant`);
- `Math.Min(str.Length, range.End)`;
- the configuration errors the folds throw;
- the two sentinels `None` and `End`, which both variants define alike.

Modules `PatternExamples` and `DeregexExamples` hold worked cases.

How the model is organised:
- **Chains as data.** The source builds continuation closures. Here a chain is the datatype `Cont = Done(sentinel) | Step(head, next)`, built by `Chain`. `Any`'s test `p.Equals(None) || p.Equals(End)` becomes `next.Done?`: the continuation is a sentinel exactly when `Any` is the last declared pattern.
- **Specification functions.** What a pattern returns is the recursive function `Invoke`, together with `AnyScan` and `TextAlts`.
- **Loops proved against them.** The source's loops are methods (`Run`, `AnyLogic`, `TextLogic`, `ExceptLogic`, `RepeatLogic`, `MultiLogic`, `Compile`, `FirstFrom`, `AllFrom`). Each method is proved equal to the specification function.
- **Errors as values.** A thrown exception is an `Err` result: an `InvalidOperationException` in RegularPatterns.cs (:154, :157), a plain `System.Exception` in Deregex.cs (:95, :127, :170).

Behaviour worth noting, all of it modelled as the code has it:
- `RangesOf` advances by one after a success, so its intervals can overlap (RegularPatterns.cs:242-247).
- `Except` hands on the cursor it reached inside its last literal (RegularPatterns.cs:61-63, :76).
- `Repeat` consumes a trailing partial copy that it does not count (RegularPatterns.cs:109-122).
- A trailing `Any` returns the length of the whole source, not the limit (RegularPatterns.cs:41-42, Deregex.cs:36-37).
- A success at cursor 0 reads as a retry (RegularPatterns.cs:95, :148, :178).
- `Between` yields end 0 when nothing is found (RegularPatterns.cs:254-255 with :203).
- `Match` can succeed with a cursor past the end of the source when the range starts past it: `End` returns the start unchanged, and Match asks only for a positive result, not for one within the source (RegularPatterns.cs:38, :146-148; Deregex.cs:33, :84-100).
- The fold never inspects position 0 (RegularPatterns.cs:151, Deregex.cs:92).
- In Deregex.cs the ignore-case test is inverted: an equal character stops the literal (:53, :64).
- In Deregex.cs a lone pattern is scanned against `None`, a longer sequence against `End` (:115, :123, :159, :166).

## Model

| member | source | states |
|---|---|---|
| Common.Upper | RegularPatterns/RegularPatterns.cs:88 | upper-casing maps each ASCII lower-case letter to its capital and leaves every other character unchanged |
| Common.SameChar | RegularPatterns/RegularPatterns.cs:88 | the character test passes equal characters; case-sensitively only those; ignoring case, a lower-case letter also passes against its capital, and two non-letters must be equal (:65 and :111, negated, use the same test) |
| Common.Limit | RegularPatterns/RegularPatterns.cs:146 | the limit is the smaller of the source length and range.End: bounded by both, and equal to one of them |
| Common.NoneLogic | RegularPatterns/RegularPatterns.cs:37 | None succeeds exactly when the cursor is at the limit, with the limit as cursor; otherwise it aborts with -1 (Deregex.cs:32 is the same) |
| Common.EndLogic | RegularPatterns/RegularPatterns.cs:38 | End succeeds wherever it is reached and consumes nothing (Deregex.cs:33 is the same) |
| Common.SentinelLogic | RegularPatterns/RegularPatterns.cs:37-38 | the sentinel a query places last never consumes; only None fails, and only off the limit, with -1 |
| RegularPatterns.CommonPrefix | RegularPatterns/RegularPatterns.cs:86-91 | the inner character loop stops after k characters that all compare equal and lie below the limit; the (k+1)-th differs unless the literal or the limit ran out |
| RegularPatterns.ExceptCursor | RegularPatterns/RegularPatterns.cs:58-76 | the cursor Except hands on never lies before s, and lies within the limit unless it stays at s |
| RegularPatterns.RepeatStop | RegularPatterns/RegularPatterns.cs:109-120 | Repeat's scan stops at the first position that differs from the literal read cyclically, or at the limit; every position before it matches |
| RegularPatterns.RepeatScan | RegularPatterns/RegularPatterns.cs:108-120 | Repeat's loop state never moves the cursor backwards, leaves it within the limit once it moved, and never decreases the count |
| RegularPatterns.RepeatScanAgrees | RegularPatterns/RegularPatterns.cs:109-120 | from any loop state where the distance scanned is count complete copies plus j characters, the loop stops where RepeatStop says and counts (stop - start) / n copies |
| RegularPatterns.RepeatCounts | RegularPatterns/RegularPatterns.cs:108-120 | Repeat stops at the first cyclic mismatch and counts the complete copies before it: count·n ≤ stop - s < (count+1)·n, so a trailing partial copy is scanned but not counted |
| RegularPatterns.Invoke | RegularPatterns/RegularPatterns.cs:37-130 | every pattern result is -1, 0 or a cursor |
| RegularPatterns.AnyScan | RegularPatterns/RegularPatterns.cs:43-51 | Any's loop never returns below -1 (its value is stated by AnyScanDecided and AnyScanExhausted) |
| RegularPatterns.TextAlts | RegularPatterns/RegularPatterns.cs:83-99 | Text's alternatives never yield -1, even when the continuation aborts |
| RegularPatterns.FullMatchMeans | RegularPatterns/RegularPatterns.cs:92 | the j == text.Length test holds exactly when the literal is empty, or lies wholly below the limit and matches character by character |
| RegularPatterns.AnyScanDecided | RegularPatterns/RegularPatterns.cs:39-52 | a decisive Any result comes from the first position in [s, e) where the continuation does not retry: its success unchanged, or -1 for an abort |
| RegularPatterns.AnyScanExhausted | RegularPatterns/RegularPatterns.cs:43-51 | Any retries exactly when the continuation retries at every position of [s, e); position e is never tried |
| RegularPatterns.TextAltsTaken | RegularPatterns/RegularPatterns.cs:80-100 | a positive Text result is the continuation's result after the first literal, in declared order, that matches and whose continuation succeeds |
| RegularPatterns.TextAltsRejected | RegularPatterns/RegularPatterns.cs:80-100 | Text returns 0 exactly when no literal is taken |
| RegularPatterns.InvokeBounds | RegularPatterns/RegularPatterns.cs:37-130 | for a start within the source, a success never moves the cursor backwards and never points past the end of the source |
| RegularPatterns.AnchoredSuccess | RegularPatterns/RegularPatterns.cs:37-52 | under the None sentinel, a chain in which no None or End is declared succeeds only at exactly the limit, or at the source length when Any is last |
| RegularPatterns.MatchedLength | RegularPatterns/RegularPatterns.cs:85-91 | the character loop computes CommonPrefix |
| RegularPatterns.Run | RegularPatterns/RegularPatterns.cs:28 | applying a pattern's Logic to a compiled continuation yields Invoke |
| RegularPatterns.AnyLogic | RegularPatterns/RegularPatterns.cs:39-52 | the Any loop computes Invoke of Any |
| RegularPatterns.TextLogic | RegularPatterns/RegularPatterns.cs:80-100 | the Text loop computes Invoke of Text |
| RegularPatterns.ExceptLogic | RegularPatterns/RegularPatterns.cs:56-77 | the Except loop computes Invoke of Except: -1 if any literal fully matches, else the continuation at the last literal's common-prefix cursor |
| RegularPatterns.RepeatLogic | RegularPatterns/RegularPatterns.cs:106-130 | the Repeat loop computes Invoke of Repeat: delegate at the stop cursor iff atleast ≤ count ≤ atmost, else 0 when count = 0 and -1 otherwise |
| PatternExtensions.Chain | RegularPatterns/RegularPatterns.cs:149-161 | the folded chain of well-formed patterns is well formed |
| PatternExtensions.CheckFrom | RegularPatterns/RegularPatterns.cs:151-157 | the fold's checks from position i down to 1 pass below position 1, report EndNotLast only if some visited position holds End, and AnyAfterExcept only if some visited Except is followed by Any |
| PatternExtensions.Validate | RegularPatterns/RegularPatterns.cs:149-157 | sequences of at most two patterns always pass; each error is backed by an interior position 1..n-2 that causes it |
| PatternExtensions.CheckFromMeans | RegularPatterns/RegularPatterns.cs:151-160 | the fold's checks from i down to 1 pass iff no position there is misplaced; otherwise the error is that of the highest misplaced position |
| PatternExtensions.ValidateMeans | RegularPatterns/RegularPatterns.cs:149-160 | a sequence is rejected iff an interior position 1..n-2 holds End, or holds Except followed by Any; sequences of length ≤ 2 always pass |
| PatternExtensions.Compile | RegularPatterns/RegularPatterns.cs:149-161 | the fold returns the right-folded chain, or the first error it meets walking leftwards |
| PatternExtensions.ScanFirst | RegularPatterns/RegularPatterns.cs:197-203 | RangeOf's scan answers the first start in [s, e) where the chain succeeds, with the cursor reached; it answers (0,0) only when no start succeeds |
| PatternExtensions.ScanAll | RegularPatterns/RegularPatterns.cs:242-247 | every interval RangesOf reports is a success at its start, and starts strictly increase |
| PatternExtensions.ScanAllComplete | RegularPatterns/RegularPatterns.cs:242-247 | every start in [s, e) where the chain succeeds contributes its interval to RangesOf |
| PatternExtensions.Between | RegularPatterns/RegularPatterns.cs:252-256 | Between starts at the end of the previous interval; its end is the start of the next match searched from there to the end of the content, or 0 when none is found or no patterns are given; it fails exactly when the fold rejects the patterns |
| PatternExtensions.Matches | RegularPatterns/RegularPatterns.cs:142-162 | Match is false for no patterns, and throws exactly when the fold rejects the sequence, with the fold's error |
| PatternExtensions.FirstRange | RegularPatterns/RegularPatterns.cs:168-205 | RangeOf throws exactly when the fold rejects; otherwise its interval is over the source and starts in [range.Start, limit), or is (0,0) |
| PatternExtensions.AllRanges | RegularPatterns/RegularPatterns.cs:211-250 | RangesOf throws exactly when the fold rejects; otherwise every interval is over the source, starts in [range.Start, limit) with a positive end, and starts strictly increase |
| PatternExtensions.ChainShape | RegularPatterns/RegularPatterns.cs:149-150 | the fold ends in the query's sentinel; the pattern declared at each position i is followed by the chain of the patterns after it, and that continuation is the sentinel exactly when i is the last position, so Any takes its shortcut (:41) only when declared last; Any is last in the chain exactly when it is last in the array |
| PatternExtensions.MatchConsumesToLimit | RegularPatterns/RegularPatterns.cs:142-162 | when no None or End is declared, Match is true only when the chain reaches exactly the limit, or the source length when Any is last |
| PatternExtensions.ScanFirstHeadsScanAll | RegularPatterns/RegularPatterns.cs:197-203 | the first interval of the full scan is the first-match scan's answer |
| PatternExtensions.RangesOfHeadIsRangeOf | RegularPatterns/RegularPatterns.cs:211-250 | RangesOf's first interval is RangeOf's result, and RangesOf is empty exactly when RangeOf answers (0,0) |
| PatternExtensions.RejectedBeforeScanning | RegularPatterns/RegularPatterns.cs:149-160 | a misplaced interior pattern makes Match, RangeOf, RangesOf and Between fail with the fold's error, whatever the text and range |
| PatternExtensions.FullMatchIsOccurrence | RegularPatterns/RegularPatterns.cs:88-92 | for a non-empty literal, a case-sensitive full match against the whole source holds at a position iff the literal occurs there |
| PatternExtensions.TextFindsFirstOccurrence | RegularPatterns/RegularPatterns.cs:168-182 | for a non-empty literal, RangeOf with that one case-sensitive literal returns its first occurrence, or (0,0) when it does not occur |
| PatternExtensions.Prepare | RegularPatterns/RegularPatterns.cs:147-161 | a lone pattern is run directly against the sentinel, and a longer sequence goes through the fold; both give the chain or the fold's error |
| PatternExtensions.FirstFrom | RegularPatterns/RegularPatterns.cs:197-203 | RangeOf's loop computes ScanFirst |
| PatternExtensions.AllFrom | RegularPatterns/RegularPatterns.cs:242-247 | RangesOf's loop computes ScanAll |
| PatternExtensions.Match | RegularPatterns/RegularPatterns.cs:142-162 | Match is false for no patterns; otherwise it runs the chain once at range.Start against None and reports whether the result is positive, or the fold's error |
| PatternExtensions.RangeOf | RegularPatterns/RegularPatterns.cs:168-205 | RangeOf answers (0,0) for no patterns; otherwise the first match against End, or the fold's error |
| PatternExtensions.RangesOf | RegularPatterns/RegularPatterns.cs:211-250 | RangesOf answers [] for no patterns; otherwise every match against End, or the fold's error |
| PatternExamples.RangesOverlap | RegularPatterns/RegularPatterns.cs:242-247 | Text("aa") on "aaa" gives [0,2) and [1,3) |
| PatternExamples.RepeatAbortThenFound | RegularPatterns/RegularPatterns.cs:106-130 | Repeat("ab",1,2) on "ababab" returns -1 (abort) at start 0 and 0 (retry) at start 1, yet RangeOf returns [2,6) |
| PatternExamples.ZeroCursorIsNoMatch | RegularPatterns/RegularPatterns.cs:148 | on the empty source, None succeeds with cursor 0, and Text("") followed by None returns that 0; Match reports it as false and RangeOf as (0,0) |
| PatternExamples.AnyEscapesTheLimit | RegularPatterns/RegularPatterns.cs:41-42 | a trailing Any ends at the source length, beyond range.End |
| PatternExamples.MatchPastTheSource | RegularPatterns/RegularPatterns.cs:146-148 | a lone End on "abc" with a range starting at 5 returns the cursor 5, past the 3-character source, and Match reports true |
| PatternExamples.MatchIsAnchored | RegularPatterns/RegularPatterns.cs:148 | Match of "ab" in "abc" is false, while RangeOf finds [0,2) |
| PatternExamples.TextBacktracksOverAlternatives | RegularPatterns/RegularPatterns.cs:83-98 | Text tries its next literal when the continuation fails after the first |
| PatternExamples.ExceptAdvancesTheCursor | RegularPatterns/RegularPatterns.cs:56-77 | on "ab", Except("ax") hands on cursor 1, where its partial match of "ax" stops, so [Except("ax"), Text("b")] matches; Except("x") matches nothing and hands on 0, so [Except("x"), Text("b")] does not match |
| PatternExamples.RepeatConsumesPartialCopy | RegularPatterns/RegularPatterns.cs:109-122 | Repeat("ab",1,1) matches "aba" in full |
| PatternExamples.ExceptAnyOnlyRejectedInside | RegularPatterns/RegularPatterns.cs:151-154 | the fold accepts [Except, Any], where Except sits at the unchecked position 0, and Match then succeeds on "ab", while it rejects [Text, Except, Any] with the Except-then-Any error |
| PatternExamples.BetweenCases | RegularPatterns/RegularPatterns.cs:252-256 | Between gives the gap up to the next match, and end 0 when there is none |
| Deregex.Walk | Deregex_Dev/Deregex.cs:52-54 | the literal loop passes at most the whole literal, and what it passes lies below the limit |
| Deregex.Broken | Deregex_Dev/Deregex.cs:52-54 | a literal breaks (Text's `return 0`, Multi's `fails++` at :64-67) only when it is non-empty, starts below the limit, and stops before its end |
| Deregex.RejectsIsInverted | Deregex_Dev/Deregex.cs:53 | the guard Rejects is the negated character test when case matters, but the test itself under ignoreCasing, so equal characters stop the literal (:64 is the same guard) |
| Deregex.MultiWalk | Deregex_Dev/Deregex.cs:61-68 | Multi's cursor never moves backwards, stays within the limit once it has moved, and at most one failure is counted per literal |
| Deregex.Invoke | Deregex_Dev/Deregex.cs:32-72 | every pattern result is -1, 0 or a cursor |
| Deregex.AnyScan | Deregex_Dev/Deregex.cs:38-46 | Any's loop never returns below -1 (its value is stated by AnyScanDecided and AnyScanExhausted) |
| Deregex.WalkMeans | Deregex_Dev/Deregex.cs:52-55 | the literal breaks iff some character it reaches below the limit is rejected; otherwise it ends past the literal, or at the limit when the literal is cut off |
| Deregex.TextMeans | Deregex_Dev/Deregex.cs:50-56 | Text returns 0 on a rejected character; otherwise it returns the continuation's result unchanged, an abort included, at the clamped cursor |
| Deregex.MultiOfOneIsText | Deregex_Dev/Deregex.cs:50-72 | Multi over one literal behaves as Text over it |
| Deregex.WalkAppend | Deregex_Dev/Deregex.cs:63-68 | walking a+b is walking a and then b from where a ended, when a passed completely |
| Deregex.PastLimit | Deregex_Dev/Deregex.cs:63 | a walk that starts at or past the limit reads nothing and breaks nothing |
| Deregex.MultiIsSequential | Deregex_Dev/Deregex.cs:61-71 | Multi counts no failure iff Text over the concatenated literals would pass, and then both end at the same cursor |
| Deregex.AnyScanDecided | Deregex_Dev/Deregex.cs:34-47 | a decisive Any result is the continuation's decision at the first position where it does not retry |
| Deregex.AnyScanExhausted | Deregex_Dev/Deregex.cs:38-46 | Any retries exactly when the continuation retries at every position of [s, e) |
| Deregex.InvokeBounds | Deregex_Dev/Deregex.cs:32-72 | for a start within the source, a success never moves backwards and never points past the end of the source |
| Deregex.AnchoredSuccess | Deregex_Dev/Deregex.cs:32-37 | under None, a chain in which no None or End is declared succeeds only at exactly the limit, or at the source length when Any is last |
| Deregex.WalkLiteral | Deregex_Dev/Deregex.cs:52-54 | the character loop ends at the cursor Walk gives, and reports whether it broke |
| Deregex.WalkLiterals | Deregex_Dev/Deregex.cs:61-68 | the loop over the literals ends at the cursor and failure count MultiWalk gives |
| Deregex.Run | Deregex_Dev/Deregex.cs:5 | applying a pattern's Logic to a compiled continuation yields Invoke |
| Deregex.AnyLogic | Deregex_Dev/Deregex.cs:34-47 | the Any loop computes Invoke of Any |
| Deregex.TextLogic | Deregex_Dev/Deregex.cs:50-56 | the Text loop computes Invoke of Text |
| Deregex.MultiLogic | Deregex_Dev/Deregex.cs:59-72 | the Multi loop computes Invoke of Multi: 0 iff every literal broke (always for no literals), else the continuation at the shared cursor |
| DeregexExtensions.Chain | Deregex_Dev/Deregex.cs:91-99 | the chain starts with the first declared pattern |
| DeregexExtensions.InteriorEnd | Deregex_Dev/Deregex.cs:92-95 | the only structural check; sequences of at most two patterns are never rejected |
| DeregexExtensions.ScanSentinel | Deregex_Dev/Deregex.cs:115 | RangeOf and RangesOf use None exactly for a lone pattern, and End otherwise |
| DeregexExtensions.Compile | Deregex_Dev/Deregex.cs:91-98 | the fold returns the chain, or EndNotLast when an interior position holds End |
| DeregexExtensions.ScanFirst | Deregex_Dev/Deregex.cs:131-137 | RangeOf's scan answers the first start where the chain succeeds, or (0,0) when none does |
| DeregexExtensions.ScanAll | Deregex_Dev/Deregex.cs:174-179 | every reported range is a success at its start, and starts strictly increase |
| DeregexExtensions.ScanAllComplete | Deregex_Dev/Deregex.cs:174-179 | every start where the chain succeeds contributes its range |
| DeregexExtensions.Matches | Deregex_Dev/Deregex.cs:84-100 | Match is false for no patterns, and throws EndNotLast exactly when End is declared in the interior |
| DeregexExtensions.FirstRange | Deregex_Dev/Deregex.cs:106-139 | RangeOf throws EndNotLast exactly on an interior End; otherwise its range starts in [range.Start, limit), or is (0,0) |
| DeregexExtensions.AllRanges | Deregex_Dev/Deregex.cs:145-182 | RangesOf throws EndNotLast exactly on an interior End; otherwise every range starts in [range.Start, limit) with a positive end, and starts strictly increase |
| DeregexExtensions.ScanFirstHeadsScanAll | Deregex_Dev/Deregex.cs:131-137 | the first range of the full scan is the first-match scan's answer |
| DeregexExtensions.ChainShape | Deregex_Dev/Deregex.cs:91 | the fold ends in the sentinel, and Any is last in the chain exactly when it is last in the array |
| DeregexExtensions.MatchConsumesToLimit | Deregex_Dev/Deregex.cs:84-100 | when no None or End is declared, Match is true only when the chain reaches exactly the limit, or the source length when Any is last |
| DeregexExtensions.LoneRangeEndsAtLimit | Deregex_Dev/Deregex.cs:111-119 | for a lone pattern other than None or End, every range RangeOf finds ends at the limit, or at the source length for a lone Any |
| DeregexExtensions.RangesOfHeadIsRangeOf | Deregex_Dev/Deregex.cs:145-182 | RangesOf's first range is RangeOf's result, and RangesOf is empty exactly when RangeOf answers (0,0) |
| DeregexExtensions.InteriorEndRejected | Deregex_Dev/Deregex.cs:94-95 | an End at an interior position makes all three queries fail, whatever the text and range |
| DeregexExtensions.Prepare | Deregex_Dev/Deregex.cs:89-98 | a lone pattern is run directly against the sentinel, and a longer sequence goes through the fold |
| DeregexExtensions.FirstFrom | Deregex_Dev/Deregex.cs:131-137 | RangeOf's loop computes ScanFirst |
| DeregexExtensions.AllFrom | Deregex_Dev/Deregex.cs:174-179 | RangesOf's loop computes ScanAll |
| DeregexExtensions.Match | Deregex_Dev/Deregex.cs:84-100 | Match is false for no patterns; otherwise it runs the chain once against None, or reports the fold's error |
| DeregexExtensions.RangeOf | Deregex_Dev/Deregex.cs:106-139 | RangeOf answers (0,0) for no patterns; otherwise the first match against None for a lone pattern and End otherwise, or the fold's error |
| DeregexExtensions.RangesOf | Deregex_Dev/Deregex.cs:145-182 | RangesOf answers [] for no patterns; otherwise every match with the same sentinel split, or the fold's error |
| DeregexExamples.SentinelSplit | Deregex_Dev/Deregex.cs:115 | a lone Text("abc") in "abcabc" is found at [3,6) because of None, while followed by End it is found at [0,3) |
| DeregexExamples.IgnoreCasingIsInverted | Deregex_Dev/Deregex.cs:53 | with ignoreCasing, Text("a") matches "b" and rejects both "a" and "A" |
| DeregexExamples.TruncatedLiteralPasses | Deregex_Dev/Deregex.cs:52 | Text("abc") matches "ab" because the limit cuts the literal off |
| DeregexExamples.MultiWalksInSequence | Deregex_Dev/Deregex.cs:61-71 | Multi("ab","cd") matches "abcd" |
| DeregexExamples.MultiGoesOnAfterABreak | Deregex_Dev/Deregex.cs:63-69 | Multi("ab","cd") matches "acd": the broken "ab" leaves the cursor at 1 |
| DeregexExamples.MultiRetriesWhenAllBreak | Deregex_Dev/Deregex.cs:69-70 | Multi("ab","cd") on "xy" breaks on both literals and returns 0 (retry, not abort), so Match reports false |
| DeregexExamples.EmptyMultiNeverMatches | Deregex_Dev/Deregex.cs:69-70 | Multi without literals never matches, for any text and range |
| DeregexExamples.EndFirstAccepted | Deregex_Dev/Deregex.cs:92-95 | End declared first is accepted; End in the interior is rejected |

## Left out

- Custom patterns (RegularPatterns.cs:132-133, Deregex.cs:74-75) are arbitrary caller code with no contract to model.
- The composite `Pattern(name, params Pattern[])` constructor of Deregex.cs (:14-30) is not modelled. It writes to the console and discards its outer continuation.
- Deregex_Dev/Program.cs is a console demo driver and is not part of this model.
- `char.ToUpperInvariant` is modelled on ASCII letters only, since Unicode casing tables are not modelled.
- `System.Index` from-end indices are not modelled: every range index counts from the start.
- Null pattern arrays are not modelled: an empty sequence stands in for both null and empty, which the source treats alike.
- Struct and delegate `Equals` are replaced by datatype tags. The `Name`-based checks are replaced by constructor tests, which agree for the built-in patterns.
- Exceptions are `Err` results that carry only which of the two configuration errors was thrown; their messages are not modelled.
- `StringRange.ToString` and the implicit conversions (RegularPatterns.cs:21-23) are not modelled.
- `int` overflow is not modelled. Cursors and counts are unbounded naturals, and the source cannot reach `int.MaxValue` with string-length cursors.
- RegularPatterns.RepeatLogic: its literal is required to be non-empty. The source indexes `text[0]` only when `s < e`, so it tolerates an empty literal when the cursor is at or past the limit; the model excludes that case too. The same requirement reaches whole sequences through `WellFormed` and `WellFormedPats`, so `Invoke`, `Run`, `Match`, `RangeOf`, `RangesOf` and `Between` exclude every sequence that declares an empty `Repeat` literal, even one the chain never reaches (RangeOf over `[Text("z"), Repeat("")]` on "abc" answers (0,0) in the source).
- Strings are sequences of Dafny characters, which are Unicode scalar values. C# strings are UTF-16 code units, and `Length` and the indexer count code units (RegularPatterns.cs:42, :65, :88, :111). The model covers source strings whose code units are all non-surrogates; a supplementary-plane character or a lone surrogate has no counterpart here.
- The convenience overloads `Match`/`RangeOf`/`RangesOf(str, patterns)` and `(str, startIndex, patterns)` (RegularPatterns.cs:138-141, :164-167, :207-210; Deregex.cs:80-83, :102-105, :141-144) are not separate members: they are the range queries with `Span(0, |str|)` and `Span(startIndex, |str|)`. `Repeat`'s default arguments (RegularPatterns.cs:102-105) are `lo = 0` and `hi = int.MaxValue`, given explicitly.
