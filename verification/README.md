# Advent of Code 2025, days 1–3, in Dafny

This project models the three puzzle solvers of the repository and proves
what each one promises.

- **Dial** (`dial.dfy`, `src/main/java/Day01.java`)
  - A dial has positions 0..99 and starts at 50.
  - It is turned by commands `L<n>` and `R<n>`. Each line yields one command, taken from the first match of `([LR])(\d+)` anywhere in the line.
  - Part 1 counts the commands after which the dial rests on 0.
  - Part 2 counts every click at which the dial points at 0. It uses closed-form division cases, and these are proved equal to a click-by-click count.
  - Both parts are loop methods over the lines. They are proved against pure functions of the parsed command list.
- **Invalid ids** (`invalid_ids.dfy`, `src/main/java/Day02.java`)
  - The input is a comma-separated list of inclusive id ranges `a-b`.
  - Rule 1 marks an id invalid when its decimal rendering is two equal halves.
  - Rule 2 marks an id invalid when its rendering `S` occurs inside `S + S` with the first and last characters dropped.
  - The two brute-force loops sum the invalid ids of every range, in order. They are proved equal to a recursive sum.
- **Battery joltage** (`joltage.dfy`, `src/main/java/Day03.java`)
  - Each input line is a bank of digits; a bank must hold at least two.
  - A bank's joltage is the number formed by K of its digits taken in order (K = 2 in part 1, K = 12 in part 2).
  - The digits are chosen greedily: each time, the leftmost largest digit in a window that still leaves room for the remaining picks.
  - The greedy choice is proved optimal over every strictly increasing selection of K positions.
  - Part 2 keeps the source's fixed-size index array and fills it in place.

Shared modules:
- `decimal.dfy`: the decimal rendering of a natural number (no leading zeros) and its value.
- `java_text.dfy`: `String.split` with the trailing-empty-field rule, `contains` and `regionMatches`.
- `sequences.dfy`: sequence facts, and lemmas that carry an element-by-element parse across one more element.
- `wrappers.dfy`: `Option` and `Result`.

Java's `long` and `BigInteger` become unbounded `int` and `nat`. Each thrown exception becomes an `Err` value of a per-solver error datatype.

Behaviour worth noting:
- A dial line is accepted when `[LR]\d+` occurs anywhere in it, because the matcher uses an unanchored `find()`. The first such occurrence is the command, and the text around it is ignored.
- A range piece without two bounds, or with a bound that is not a number, is an error.

## Model

| member | source | states |
|---|---|---|
| Decimal.Digits | src/main/java/Day02.java:75 | The rendering of a number is a non-empty digit string with no leading zero, and it is one character long exactly when the number is below 10 |
| Decimal.ValueOfDigits | src/main/java/Day02.java:75 | Reading back the decimal rendering of n gives n |
| Decimal.ValueBound | src/main/java/Day03.java:113 | A digit string of length L denotes a number below 10^L |
| JavaText.SplitChars | src/main/java/Day03.java:122 | `split("")` of a non-empty line gives its characters one per piece, in order; an empty line gives one empty piece |
| JavaText.SplitOfJoin | src/main/java/Day02.java:94 | Splitting the join of delimiter-free pieces, the last one non-empty, gives the pieces back |
| JavaText.Split | src/main/java/Day02.java:94 | `split` on one character: without the delimiter the result is the whole string; otherwise it is the fields between the delimiters, in order, with only empty fields dropped from the end; no piece holds the delimiter |
| JavaText.JoinOfFields | src/main/java/Day02.java:94 | The fields are exactly the text between the delimiters: joining them with the delimiter rebuilds the string |
| JavaText.Contains | src/main/java/Day02.java:90 | `contains`: a contained string is no longer than the text, and the empty string is always contained |
| JavaText.RegionMatches | src/main/java/Day02.java:78 | `regionMatches`: when it holds, both offsets are non-negative, both regions lie inside their strings, and the two regions agree character by character |
| Dial.WrapToDial | src/main/java/Day01.java:62-63 | `((x % 100) + 100) % 100` with Java's sign-of-dividend `%` lies in [0, 100) and equals the non-negative remainder of x |
| Dial.Turn | src/main/java/Day01.java:61-65 | After a command the dial lies in [0, 100), at (position ± clicks) mod 100 |
| Dial.TurnCounting | src/main/java/Day01.java:92-113 | The part-2 switch from a dial position: the new position lies in [0, 100) and is the part-1 position |
| Dial.RightZeros | src/main/java/Day01.java:107-110 | Turning right n clicks from p passes 0 exactly (p + n) / 100 times, counted click by click |
| Dial.LeftZerosFromZero | src/main/java/Day01.java:95-97 | Turning left n clicks from 0 passes 0 exactly n / 100 times, counted click by click |
| Dial.LeftZerosFromNonZero | src/main/java/Day01.java:98-104 | Turning left n clicks from p > 0 passes 0 no times when n < p, otherwise 1 + (n - p) / 100 times, counted click by click |
| Dial.CountingMatchesUnitSteps | src/main/java/Day01.java:92-113 | The part-2 switch yields the same position as part 1 and a zero count equal to the click-by-click count, for every case of direction and position |
| Dial.LandingIsACrossing | src/main/java/Day01.java:93-111 | A command of at least one click that ends on 0 adds at least one to the part-2 count |
| Dial.DigitRun | src/main/java/Day01.java:60 | The greedy `\d+` is the longest prefix of digits: it is followed by a non-digit or by the end of the line |
| Dial.FindRotationFrom | src/main/java/Day01.java:53-56 | The search finds nothing exactly when no position from i on starts a match |
| Dial.FindRotation | src/main/java/Day01.java:53-56 | `matcher.find()` on a line fails exactly when no position of the line starts `[LR]` followed by a digit |
| Dial.FirstMatchWins | src/main/java/Day01.java:53-60 | The command read from a line is the one at the first position where the pattern matches |
| Dial.FindRotationInLine | src/main/java/Day01.java:53-60 | A command written after text without `L` or `R`, and followed by a non-digit or the end of the line, is read back exactly |
| Dial.ParseErrorPersists | src/main/java/Day01.java:54-56 | Once a line fails to parse, the later lines do not change the error |
| Dial.ParseRotations | src/main/java/Day01.java:52-60 | On success there is one command per line, each read from its own line. On failure the error names the first line with no command |
| Dial.ParseRendered | src/main/java/Day01.java:52-60 | Lines holding rendered commands parse to those commands, in order |
| Dial.WorkedExampleParses | src/main/java/Day01.java:52-60 | The lines "R68" and "L30" parse to R68 and L30 |
| Dial.DialAfter | src/main/java/Day01.java:48-65 | The position after any command list lies in [0, 100) |
| Dial.FinalPosition | src/main/java/Day01.java:61-65 | The final position is (50 + the sum of +n for R and -n for L) mod 100, whatever the path |
| Dial.LandingsAreCrossings | src/main/java/Day01.java:61-117 | When no command has zero clicks, the part-1 count is at most the part-2 count |
| Dial.ZeroClickCommandCountsOnlyForLanding | src/main/java/Day01.java:107-109 | "L50" then "R0" lands on 0 twice, yet the part-2 count is 1, because R0 adds no crossing |
| Dial.WorkedExampleCounts | src/main/java/Day01.java:93-117 | From 50, "R68" then "L30" never rests on 0 but passes it twice |
| Dial.ZeroClicksMonotone | src/main/java/Day01.java:115-117 | The running part-2 password never decreases as commands are processed |
| Dial.ComputePasswordPart1 | src/main/java/Day01.java:47-74 | Returns the first line's parse error if any line fails; otherwise the number of commands after which the dial rests on 0 |
| Dial.ComputePasswordPart2 | src/main/java/Day01.java:77-125 | Returns the first line's parse error if any line fails; otherwise the click-by-click number of times the dial points at 0 |
| InvalidIds.IsInvalidIdPart1 | src/main/java/Day02.java:74-79 | Rule 1: even length and first half equal to the second half by `regionMatches`; it holds only for ids of at least two digits |
| InvalidIds.IsInvalidIdPart2 | src/main/java/Day02.java:81-91 | Rule 2: at least two digits and S inside S + S without its end characters; ids below 10 are never invalid |
| InvalidIds.Part1IsBlockTwice | src/main/java/Day02.java:74-79 | Rule 1 holds exactly when the rendering is some block written twice |
| InvalidIds.Part1Examples | src/main/java/Day02.java:74-79 | 1212 is invalid under rule 1; 121 and 1221 are not |
| InvalidIds.Part2GivesRotation | src/main/java/Day02.java:87-90 | When S occurs in the middle of S + S, S equals a non-trivial rotation of itself |
| InvalidIds.RotationGivesPart2 | src/main/java/Day02.java:87-90 | When S equals a non-trivial rotation of itself, S occurs in the middle of S + S |
| InvalidIds.Part2IsRotationInvariant | src/main/java/Day02.java:81-91 | Rule 2 holds exactly when the id has at least two digits and its rendering equals a non-trivial rotation of itself |
| InvalidIds.RepeatedBlockIsPart2 | src/main/java/Day02.java:87-90 | An id whose rendering is a block repeated k >= 2 times is invalid under rule 2 |
| InvalidIds.Part1ImpliesPart2 | src/main/java/Day02.java:74-90 | Every id invalid under rule 1 is invalid under rule 2 |
| InvalidIds.Part2Examples | src/main/java/Day02.java:81-91 | 1212, 121212 and 11 are invalid under rule 2; 123 is not |
| InvalidIds.InvalidSumAppend | src/main/java/Day02.java:44-56 | The sum over two range lists placed end to end is the sum of their sums |
| InvalidIds.RepeatedRangesCountTwice | src/main/java/Day02.java:46-54 | Ranges are not de-duplicated: listing them twice doubles the sum |
| InvalidIds.InvertedRangeAddsNothing | src/main/java/Day02.java:47-48 | A range whose lower bound exceeds its upper bound adds nothing |
| InvalidIds.HalvesSumAtMostPeriodic | src/main/java/Day02.java:44-72 | The part-1 sum never exceeds the part-2 sum over the same ranges |
| InvalidIds.ComputeSumOfInvalidIdsPart1BruteForce | src/main/java/Day02.java:44-56 | The loop's sum is, over the ranges in order, the sum of the ids from lower to upper inclusive that are invalid under rule 1 |
| InvalidIds.ComputeSumOfInvalidIdsPart2BruteForce | src/main/java/Day02.java:60-72 | The loop's sum is, over the ranges in order, the sum of the ids from lower to upper inclusive that are invalid under rule 2 |
| InvalidIds.RangesErrorPersists | src/main/java/Day02.java:96-99 | Once a piece fails to parse, the later pieces do not change the error |
| InvalidIds.ParseBigInteger | src/main/java/Day02.java:98 | `new BigInteger` on a field: it is accepted exactly when it is a non-empty digit string, possibly after one `+`, and every other field is rejected; the value is that of the digits, below 10^length |
| InvalidIds.ParseRange | src/main/java/Day02.java:97-98 | A piece parses exactly when splitting it on `-` gives at least two fields that are both numbers; the bounds are those two numbers; a missing bound names the piece |
| InvalidIds.RangesOf | src/main/java/Day02.java:96-99 | On success there is one range per piece, each parsed from its own piece. On failure the error is that of the first piece that fails |
| InvalidIds.ParseInput | src/main/java/Day02.java:93-101 | The loop returns the ranges of the comma-separated pieces in order, or the first piece's error |
| InvalidIds.ParseBigIntegerOfDigits | src/main/java/Day02.java:98 | Parsing the rendering of n gives n |
| InvalidIds.ParseRenderedRange | src/main/java/Day02.java:97-98 | "lower-upper" parses to that range |
| InvalidIds.RangesOfRendered | src/main/java/Day02.java:96-99 | Pieces holding rendered ranges parse to those ranges, in order |
| InvalidIds.ParseRenderedRanges | src/main/java/Day02.java:93-101 | Rendering a non-empty range list as "a-b,c-d,..." and parsing it gives the list back |
| Joltage.NewBatteryBank | src/main/java/Day03.java:130-137 | A bank is built exactly when there are at least two batteries, keeping them as given; otherwise the record's error |
| Joltage.DigitString | src/main/java/Day03.java:109-112 | The appended batteries form a digit string of the same length, one digit character per battery |
| Joltage.JoltageSnoc | src/main/java/Day03.java:109-113 | Appending one more digit multiplies the value by ten and adds the digit |
| Joltage.JoltageBound | src/main/java/Day03.java:113 | K digits read as a number give a value below 10^K |
| Joltage.TwoDigitJoltage | src/main/java/Day03.java:72-75 | Two digits read as a number give ten times the first plus the second |
| Joltage.LeftmostMax | src/main/java/Day03.java:93-97 | The scan's result lies inside its window |
| Joltage.LeftmostMaxIsLeftmostMaximum | src/main/java/Day03.java:93-97 | The scan's result is a largest digit of the window, and no earlier position in the window holds that digit |
| Joltage.ScanLeftmostMax | src/main/java/Day03.java:58-64 | The scan loop, keeping the first index and replacing it only on a strictly larger digit, returns the leftmost maximum of its window |
| Joltage.Picks | src/main/java/Day03.java:89-107 | Pick j lies at or before n - K + j, so K - 1 - j digits remain after it |
| Joltage.PickWindow | src/main/java/Day03.java:93-100 | Every pick's window, from just after the previous pick up to n - (K - 1 - i), is non-empty |
| Joltage.PicksIncrease | src/main/java/Day03.java:89-107 | The chosen indices are strictly increasing |
| Joltage.PickAt | src/main/java/Day03.java:91-106 | Pick 0 is the leftmost maximum of [0, n - K + 1); pick i is the leftmost maximum from just after pick i - 1 |
| Joltage.PicksAreLeftmostMaxima | src/main/java/Day03.java:89-107 | Every chosen index is the leftmost maximum of its window |
| Joltage.PicksPrefix | src/main/java/Day03.java:89-107 | The first i picks do not depend on how many more picks follow |
| Joltage.GreedyJoltage | src/main/java/Day03.java:89-115 | The greedy K-digit value: the digits at the greedy picks read as a number, below 10^K |
| Joltage.GreedyDominatesPrefix | src/main/java/Day03.java:89-115 | After i picks, the greedy prefix value beats that of any selection's first i positions; when the two tie, the greedy's last index is no further right |
| Joltage.GreedyPickBeatsSelection | src/main/java/Day03.java:99-104 | When the greedy is no further right than a selection, its next digit is at least the selection's next digit, and on a tie it is no further right |
| Joltage.GreedyIsOptimal | src/main/java/Day03.java:89-115 | No strictly increasing selection of K positions gives a larger number than the greedy one |
| Joltage.GreedyIsMaximum | src/main/java/Day03.java:89-115 | The greedy value is the maximum over all strictly increasing K-selections and is below 10^K |
| Joltage.GreedyIsSelection | src/main/java/Day03.java:89-107 | The greedy indices are a strictly increasing selection of K positions, and the value is below 10^K |
| Joltage.PicksOfFullBank | src/main/java/Day03.java:89-107 | When the bank has exactly K digits, the picks are positions 0, 1, ..., K - 1 |
| Joltage.FullBankIsItself | src/main/java/Day03.java:89-115 | When the bank has exactly K digits, its joltage is the whole bank read as a number |
| Joltage.TwoBatteryBank | src/main/java/Day03.java:58-75 | A bank of exactly two batteries yields ten times the first plus the second |
| Joltage.TwoDigitValue | src/main/java/Day03.java:72-75 | Concatenating the renderings of two digits and parsing the result gives ten times the first plus the second |
| Joltage.PairJoltage | src/main/java/Day03.java:72-75 | Positions i < j form a two-pick selection whose value is 10 * b[i] + b[j] |
| Joltage.GreedyPairValue | src/main/java/Day03.java:58-75 | The two part-1 indices are increasing and in range, and the result is 10 * b[first] + b[second] |
| Joltage.GreedyPairIsBest | src/main/java/Day03.java:53-76 | The part-1 value is at least 10 * b[i] + b[j] for every i < j |
| Joltage.ComputePart1BankJoltage | src/main/java/Day03.java:53-76 | Returns the greedy two-digit value. It is at most 99, it is 10 * b[i] + b[j] for some i < j, and no pair i < j gives more |
| Joltage.AppendDigit | src/main/java/Day03.java:109-112 | Each builder append adds the rendering of the next chosen digit |
| Joltage.Part2GreedyBounds | src/main/java/Day03.java:89-115 | With at least 12 batteries, the 12-digit greedy value is below 10^12 and is the maximum over all 12-selections |
| Joltage.ComputePart2BankJoltage | src/main/java/Day03.java:78-116 | Fails when the bank has fewer than 12 batteries. Otherwise the index array is filled by the greedy scans, and the result is the 12-digit greedy value: below 10^12 and the maximum over every strictly increasing 12-selection |
| Joltage.Part1Total | src/main/java/Day03.java:39-44 | The part-1 total of the per-bank values is 0 for no banks and at most 99 per bank |
| Joltage.AllBanksLongEnoughSnoc | src/main/java/Day03.java:46-51 | All banks are long enough for part 2 exactly when the earlier ones are and the last one holds at least 12 batteries |
| Joltage.Part2Total | src/main/java/Day03.java:46-51 | The part-2 stream sum: the per-bank values added in order; the only failure is part 2's own error, and it needs at least one bank |
| Joltage.Part2TotalOutcome | src/main/java/Day03.java:46-51 | The part-2 total fails, with part 2's error, exactly when some bank holds fewer than 12 batteries; otherwise it is below 10^12 per bank |
| Joltage.ParseDigitPiece | src/main/java/Day03.java:123 | `Integer.parseInt` of one piece succeeds exactly on a single digit character, and the piece is that digit written out |
| Joltage.DigitsOfPieces | src/main/java/Day03.java:122-124 | On success there is one digit per piece; every failure is a number-format error |
| Joltage.DigitsPieceByPiece | src/main/java/Day03.java:122-124 | On success each piece is the digit at its position. On failure the error names the first piece that is not a digit |
| Joltage.BankOf | src/main/java/Day03.java:121-125 | One line becomes one bank; it fails with a number-format error, or with the record's error only for a line of fewer than two characters |
| Joltage.ShortLines | src/main/java/Day03.java:121-134 | An empty line fails with the number-format error of its one empty piece, before the record is built; a one-digit line fails with the record's error |
| Joltage.BankSpellsLine | src/main/java/Day03.java:121-125 | A parsed bank, written back as digits, is the line it came from |
| Joltage.BanksOf | src/main/java/Day03.java:120-126 | On success there is one bank per line; parsing never raises part 2's error |
| Joltage.BanksLineByLine | src/main/java/Day03.java:120-126 | On success bank i comes from line i. On failure the error is that of the first failing line |
| Joltage.DigitsErrorPersists | src/main/java/Day03.java:122-124 | Once a character fails to parse as a digit, the later characters do not change the error |
| Joltage.BanksErrorPersists | src/main/java/Day03.java:120-126 | Once a line fails, the later lines do not change the error |
| Joltage.ParseInput | src/main/java/Day03.java:118-128 | The loops give one bank per line, holding each character's digit value in order. Otherwise they return the first failing line's error: the number-format error of its first piece that is not a digit (for an empty line, its one empty piece), or the record's error for a one-digit line |
| Joltage.DigitsOfRenderedPieces | src/main/java/Day03.java:122-124 | The one-character pieces of rendered digits parse back to those digits |
| Joltage.BankOfRendered | src/main/java/Day03.java:121-125 | A bank's digit line parses back to that bank |
| Joltage.BanksOfRendered | src/main/java/Day03.java:120-126 | Lines holding rendered banks parse to those banks, in order |
| Joltage.ParseRenderedBanks | src/main/java/Day03.java:118-128 | Writing a non-empty list of banks one per line and parsing the text gives the banks back |

## Left out

- The `main` methods: reading files, timing and console output. Each solver takes the input text, or its lines, as a parameter.
- The `System.out` narration inside the two dial loops. It is diagnostic only.
- Null arguments and the null guards at `Day03.java` lines 40, 47, 54 and 80: Dafny values are never null.
- The stream plumbing of the two totals, which is modelled as a recursive sum.
- Overflow of `long` sums, of `Long.parseLong` on very long digit runs, and of `Integer.parseInt`. All integers are unbounded.
- The unreachable `default` branch of the dial `switch`, because a parsed direction is always `L` or `R`.
- The general Java regex engine. Only the one pattern `([LR])(\d+)` with `find()` is modelled, with `\d` as the ASCII digits, which is Java's default.
- Non-ASCII digits, which `Integer.parseInt` and `new BigInteger` would accept. Only `0`–`9` parse.
- InvalidIds.ParseBigInteger: models `new BigInteger` only on fields that come from splitting on `-`. Such a field holds no minus sign, so only an optional `+` is handled.
- InvalidIds.RepeatedBlockIsPart2: the converse, that every id invalid under rule 2 is a repeated block, is not proved. The exact characterisation proved is the rotation one, InvalidIds.Part2IsRotationInvariant.
- Joltage.ParseRenderedBanks, InvalidIds.ParseRenderedRanges: they require a non-empty list. Splitting the empty text gives one empty piece, which is an error in the source too.
- Joltage.ScanLeftmostMax: it is the one scan loop that the source writes out four times, at lines 60-64, 67-71, 93-97 and 100-104. Both per-bank methods call it.
- The part-1 per-bank method works on the bank's immutable list. The part-2 index array is the one array in the model.
