# Verified models of the source-to-IR compilers

The repository compiles C, POSIX shell and Python into a shell-flavoured intermediate
representation. This project models four of its parts on abstract syntax and proves what they
promise, or exactly where they do not keep it.

**Interval analysis of Python** (`Int64`, `Intervals`, `PyText`, `PyEval`, `PyEvalProof`,
`PyEvalTop`, `PyEvalSound`, `PyRegroup`, `PyWidth`, `PyLoops`, `PyCounter`). Overflow-checked int64 intervals; the evaluator
that reads an expression's *text*, splitting it at the rightmost operator; abstract runs of
assignments, branches and loops; counter bounds; and the choice of 32-bit storage. The concrete side
is Python on unbounded integers (section 6.7 of the Python Language Reference), with runs as
relations between stores.

**Shell arithmetic** (`ArithAst`, `ArithParser`, `ArithGrammar`, `ArithRoundTrip`, `ArithGuard`). The
recursive-descent parser as an object with a position, proved against a specification and that against
a grammar, its inverse printer, and the filter that admits only trees whose meaning does not depend on evaluation order.

**Whole-program shell analyses** (`ShText`, `ShExpr`, `ShLift`, `ShStrLen`, `ShBuiltin`,
`ShShell`, `ShConst`, `ShWrites`). Numeric and
string lifting as chaotic iteration to a least fixed point, string-length bounds against all runs,
and write-once verdicts against the number of writes any run makes.

**C lowering** (`CLang`, `CHoist`, `CSwitch`, `CSwitchExact`, `CFor`, `CLower`, `CFold`, `CWidth`,
`CWidthValue`). A statement
language with break, continue and return and its big-step meaning, in which fuel counts loop trips
only, so that a program and its lowering can be compared at every fuel; condition hoisting, switch
fallthrough as an if-chain, `for` as `while`, and their composition over whole statements; the
folding interpreter for calls with literal arguments; the casts that keep 64-bit arithmetic apart
from plain numbers, and the values the tree with these casts computes.

Where the source is a loop or an object that changes, the model is a method or a class proved equal
to a specification function, and the theorems are about that function. What it is compared with (Python's
and C's operators, the shell's commands, the grammar, the rows of precedence) is written down separately,
not in terms of the code.

## Where the code and its comments disagree

The model follows the code. Each of these has a lemma with a concrete input, and where it can be said
in terms of the input, the exact condition under which the code is right.

- Floor division is announced as supported, but the guard before it always refuses
  (`QuotientAlwaysRefused`).
- Negation wraps for an interval that starts at the minimum int64, and `abs` of an interval around
  zero is wrong (`NegIVExact`, `AbsIVExact`).
- The env after a Python loop covers neither zero trips nor bodies that assign the loop target, and
  an `if` without else is taken as always entered (`ZeroTripsAreMissed`, `TargetIsNotRebound`,
  `IfWithoutElseIsUnsound`; exactly when: `LoopIsCoveredExactly`, `TargetIsReboundExactly`,
  `IfWithoutElseExactly`); six passes are too few for chains of copies (`SixPassesAreTooFew`). A counter
  updated by `*=` is taken as not updated (`OtherUpdatesAreMissed`, `BoundKeptExactly`).
- The width check reports texts that are no sub-expressions, and regroups an augmented assignment
  (`ReportMayBeSpurious`, `FlatReportsParts`, `WideValueInNarrowName`,
  `TwoNamesExactly`, `SumIsRegroupedExactly`); it does not look into calls (`WideArgumentIsMissed`,
  `UnsplitReportExactly`).
- The 1024 passes of the string-length analysis are too few for its cap of 4096
  (`PassLimitIsTooLow`), and assignments in case bodies, pipelines and after `&&` escape it
  (`BoundsHoldExactlyWhenQuiet`); a while condition counts as evaluated once in the write-once verdict, and a
  declaration that names a variable twice as one write, and an assignment after `&&` is not seen at all
  (`ConstIsWrittenOnceExactly`, `RepeatedDeclarationIsOneSite`, `UnseenAssignmentIsMissed`); the second of two loops over a variable hides the first
  (`TwoLoopsAreNotSeen`, `LiftedIsIntegerExactly`).
- A switch's default is assumed last, a switch with only a default disappears, a guarded break loses
  its else, and a guarded break whose condition reads memory is not found
  (`MovedDefaultExactly`, `DroppedDefaultExactly`, `GuardElseIsLostExactly`,
  `ReadGuardExactly`); nor is a break behind other work in an `if` (`DeepBreakExactly`).
- The `for` rewriting recognises the continue signal but not the continue node the frontend emits
  (`PlainContinueIsMissed`, `WrapExactly`).
- An increment that C skips is still made by hoisting and by folding (`SkippedOperandHoistsExactly`,
  `TernaryHoistsExactly`, `SkippedOperandExactly`); the fold takes every compound assignment but `+=` for `-=`
  (`CompoundAssignmentExactly`) and text in a loop condition for zero (`LoopDecisionExactly`).
- Explicit casts can put a plain number beside a BigInt (`MixExactly`,
  `WidthlessCastMixesExactly`); a signed operand of an unsigned 64-bit operator is not converted, a 32-bit
  unsigned sum is not wrapped and a literal above the largest int64 is clamped (`SignedOperandExactly`,
  `NarrowSumExactly`, `LargeLiteralExactly`).

## Model

| member | source | states |
|---|---|---|
| `Int64.AddOvfExact` | py-sh-go/autocython_ranges.go:1629-1635 | On wrapping int64 arithmetic the sign tests report overflow exactly when the true sum does not fit, and otherwise the sum is returned. |
| `Int64.MulOvfExact` | py-sh-go/autocython_ranges.go:1637-1649 | The `p / y != x` test, with its two special cases for -1, misses no overflowing product and rejects no fitting one. |
| `Intervals.MulLoop` | py-sh-go/autocython_ranges.go:1604-1627 | The nested loop over the four endpoint pairs computes the multiplication the theorems below are about, unknown on the first overflow included. |
| `Intervals.AddIVExact` | py-sh-go/autocython_ranges.go:1585-1595 | Interval addition is the tightest interval holding every pointwise sum, and unknown exactly when some sum leaves int64. |
| `Intervals.SubIVExact` | py-sh-go/autocython_ranges.go:1597-1602 | Interval subtraction is the tightest interval holding every pointwise difference; it is unknown exactly when some difference leaves int64 or the subtrahend starts at the minimum, where `-lo` wraps. |
| `Intervals.MulIVExact` | py-sh-go/autocython_ranges.go:1604-1627 | Interval multiplication is the tightest interval holding every pointwise product, for operands of any signs, and unknown exactly when some product leaves int64. |
| `Intervals.ModIVSound` | py-sh-go/autocython_ranges.go:1548-1566 | A known result of `%` contains Python's floor modulus of every pair of values, and its divisors are positive. |
| `Intervals.ModIVExact` | py-sh-go/autocython_ranges.go:1548-1566 | `%` answers exactly for a dividend known non-negative and a divisor known positive, and then with the smallest interval that holds the remainders of all non-negative dividends. |
| `Intervals.NegIVExact` | py-sh-go/autocython_ranges.go:1404-1409 | Negation is unknown exactly when the operand's high end is the minimum int64, is the tightest interval exactly when its low end is not, and contains the negative of every value exactly when the low end is not the minimum or the answer is unknown. |
| `Intervals.AbsIVExact` | py-sh-go/autocython_ranges.go:1438-1453 | `abs` is unknown exactly when the operand starts at the minimum int64, and otherwise the tightest interval, and one that contains every absolute value, exactly when the operand does not have zero strictly inside. |
| `Intervals.MinMaxIVExact` | py-sh-go/autocython_ranges.go:1455-1469 | `min` and `max` are known exactly when both operands are, and are then the tightest intervals. |
| `PyText.SplitTop` | py-sh-go/autocython_ranges.go:1512-1529 | The leftward scanning loop returns the position the specification names: the rightmost operator of the set outside brackets that follows an operand and is not half of `**`. |
| `PyText.SplitTopComma` | py-sh-go/autocython_ranges.go:1473-1488 | The loop returns the first comma outside brackets. |
| `PyText.Balanced` | py-sh-go/autocython_ranges.go:1658-1672 | The loop decides bracket balance: depth never below zero, zero at the end. |
| `PyText.StripOuterParens` | py-sh-go/autocython_ranges.go:1651-1656 | The loop removes enclosing brackets until none encloses the whole text. |
| `PyText.ScanOver` | py-sh-go/autocython_ranges.go:1512-1529 | The scan passes over the whole text of any expression that is inside brackets, or offers no operator of the set and stands after an operator: operands after another operator are never split. |
| `PyText.TextIsBalanced` | py-sh-go/autocython_ranges.go:1658-1672 | The text of every expression, calls, subscripts and displays included, is balanced at every depth. |
| `PyText.CommaOver` | py-sh-go/autocython_ranges.go:1473-1488 | The comma scan passes over the whole text of any expression, so a two-argument call is split at its own comma. |
| `PyEvalProof.ScanFindsCut` | py-sh-go/autocython_ranges.go:1512-1529 | On the text of any parse tree the scan finds exactly the tree's rightmost operator of the set at that precedence, or nothing if there is none. |
| `PyEvalProof.StripText` | py-sh-go/autocython_ranges.go:1651-1656 | Stripping brackets from an expression's text strips the parentheses of its tree and never the first and last bracket of two different groups. |
| `PyEvalSound.PlusCutKeepsValue` | py-sh-go/autocython_ranges.go:1388-1393 | Splitting at the rightmost `+`, which regroups any `-` after it, keeps the value of the left-associative sum, for every store. |
| `PyEvalSound.OtherCuts` | py-sh-go/autocython_ranges.go:1388-1403 | Every other split is at the tree's own operator, or leaves a right side headed by a quotient. |
| `PyEvalSound.EvalTextSound` | py-sh-go/autocython_ranges.go:1378-1471 | For every parse tree over literals, names, + - * / // % **, signs, parentheses, calls of any function with one or two arguments, and any other call, subscript, list or dictionary as its text, every env, every store the env allows and every starting depth: a known interval means Python's evaluation succeeds with an int in it. |
| `PyEvalSound.OperatorInterval` | py-sh-go/autocython_ranges.go:1388-1396 | The interval of a sum, product or remainder is computed from the intervals of the tree's own two operands whenever the operator is `+`, `*` or `%`. |
| `PyEvalSound.DifferenceInterval` | py-sh-go/autocython_ranges.go:1388-1393 | A difference is computed at its own `-` if no `+` stands outside brackets in it, and otherwise as the sum around the last such `+`. |
| `PyEvalSound.UnsplitInterval` | py-sh-go/autocython_ranges.go:1404-1471 | Of every tree that is no binary operator the interval is exactly what its operands' intervals give: a literal itself if it fits int64, a name what the env says, signs, int, abs, min and max their rule; a power, any other call and any other bracketed text unknown. |
| `PyEvalSound.SignsExactly` | py-sh-go/autocython_ranges.go:1376-1382 | One under n minus signs, read from any depth, has its interval exactly when depth and signs come to at most sixteen, and is unknown beyond. |
| `PyEvalSound.NegationConditionIsNeeded` | py-sh-go/autocython_ranges.go:1404-1409 | With x in [minimum, 0], `-x` gets an interval that excludes its value at x = 0. |
| `PyEvalSound.AbsConditionIsNeeded` | py-sh-go/autocython_ranges.go:1438-1453 | With x in [-1, 5], `abs(x)` gets an interval that excludes its value at x = 0. |
| `PyEval.QuotientAlwaysRefused` | py-sh-go/autocython_ranges.go:1397-1403 | The guard in front of the floor-division rule holds of every left part, so the rule behind it is never reached. |
| `PyEvalSound.QuotientIsTop` | py-sh-go/autocython_ranges.go:1397-1403 | Every expression headed by `/` or `//` is unknown. |
| `PyEvalSound.PowIsTop` | py-sh-go/autocython_ranges.go:1404-1421 | A power that reaches the unsplit cases is unknown, although its text may look like a call. |
| `PyEvalTop.OverClosedIsTop` | py-sh-go/autocython_ranges.go:1380-1421 | Any text that closes a bracket it never opened is unknown, at every depth. |
| `PyEvalTop.CommaIsTop` | py-sh-go/autocython_ranges.go:1380-1471 | A text whose brackets match and which has a comma outside them is unknown at every depth, wherever operators stand in it: a list of arguments is never taken for an expression. |
| `PyEvalTop.UnknownCallIsTop` | py-sh-go/autocython_ranges.go:1430-1471 | A call of any function but int, abs, min and max, with any arguments whose brackets match, is unknown at every depth, and so is a call of one of those four with another number of arguments. |
| `PyEvalTop.OtherTextIsTop` | py-sh-go/autocython_ranges.go:1378-1471 | Whatever else stands there is unknown: a text without enclosing brackets and without an operator to split at that begins with no minus sign and is no number, no name and no call of the four functions. |
| `PyWidth.ReportIsWide` | py-sh-go/autocython_width.go:270-318 | Whatever the intermediate check reports mentions the name, has the range reported and does not fit 32 bits. |
| `PyWidth.UnknownIsUnreported` | py-sh-go/autocython_width.go:270-318 | A text whose range is unknown, or that does not mention the name, has no report. |
| `PyWidth.ReportIsSmallest` | py-sh-go/autocython_width.go:270-318 | At neither split of the reported text does one of the parts have a report of its own. |
| `PyWidth.LeftReportWins` | py-sh-go/autocython_width.go:270-318 | Of a sum, difference, product or remainder the report is that of its left operand if there is one, else that of its right one, and else, where no `*` or `%` is left to split at, the whole if it does not fit. |
| `PyWidth.FitsExactly` | py-sh-go/autocython_width.go:172-174 | A known range fits exactly when every value it allows is an int of 32 bits. |
| `PyWidth.NoReportMeansAllFit` | py-sh-go/autocython_width.go:270-318 | If every part of a right-hand side, split at + - * % down to calls, signs and powers, has a proved range and nothing is reported, every part mentioning the name fits 32 bits. |
| `PyWidth.IntEvidence` | py-sh-go/autocython_width.go:178-250 | The two passes give a name 32 bits exactly when its own range fits and no assignment to it, plain or augmented, has a reported intermediate. |
| `PyWidth.NarrowNameIsSafe` | py-sh-go/autocython_width.go:178-345 | Every part mentioning a name kept at 32 bits fits 32 bits, in the checked expression of each plain or augmented assignment to it whose parts have proved ranges; where `x op rhs` is a parse tree as it stands, that is the stored expression. |
| `PyWidth.NarrowNameValuesFit` | py-sh-go/autocython_width.go:178-345 | So in every store the env allows, Python's value of every such part is an int of 32 bits, under the sign conditions, which operators, names and literals meet by themselves. |
| `PyWidth.UnsplitReportExactly` | py-sh-go/autocython_width.go:270-318 | A call, a sign or a power is reported exactly when it mentions the name and its own range is known and does not fit: what is computed inside is not looked at. |
| `PyWidth.WideArgumentIsMissed` | py-sh-go/autocython_width.go:270-318 | So `min(x*x, 100)` with x up to 100000 is not reported, although the product in it reaches 10000000000. |
| `PyWidth.NarrowNameStoresFit` | py-sh-go/autocython_width.go:178-345 | The value an augmented assignment stores into such a name is an int of 32 bits in every store the env allows, if the checked expression has the stored value (`x += a + b`, `x *= a*b`, or a right-hand side that binds tighter). |
| `PyWidth.WideValueInNarrowName` | py-sh-go/autocython_width.go:318-345 | Otherwise it need not be: with x in [0, 999] and a, b at 2000000, `x *= a + b` reports nothing and x is kept at 32 bits, while x = 999 stores 3996000000. |
| `PyRegroup.GraftText` | py-sh-go/autocython_width.go:318-345 | The text checked for `x op= rhs` is that of the tree in which an operator of rhs that binds no tighter than op takes what op makes of its left operand. |
| `PyRegroup.HarmlessKeepsValue` | py-sh-go/autocython_width.go:318-345 | That tree has the stored value in every store if rhs binds tighter than op, or op is `+`, or op is `*` and rhs is a product of factors. |
| `PyRegroup.TwoNamesExactly` | py-sh-go/autocython_width.go:318-345 | For a right-hand side of two names, over `+ - * %`, it has the stored value in every store if and only if that condition holds. |
| `PyRegroup.SumIsRegroupedExactly` | py-sh-go/autocython_width.go:318-345 | For `x -= sum` and `x *= sum`, whatever the sum, it has the stored value if and only if the rest of the sum after its first term is zero, or, for a product, x is one. |
| `PyWidth.AugmentedIsRegrouped` | py-sh-go/autocython_width.go:318-345 | `x *= a + b` is checked as the text of `x*a + b`, which is a different expression from the one stored. |
| `PyWidth.ReportMayBeSpurious` | py-sh-go/autocython_width.go:270-318 | The check also splits at a `*` below a top-level `+`: it reports `y+z` in `x*y+z`, where every sub-expression fits. |
| `PyWidth.FlatReportsParts` | py-sh-go/autocython_width.go:270-318 | If no product stands outside brackets in a sum of the right-hand side, every report is a sub-expression of it, in every env and for every name. |
| `PyWidth.NotFlatButHarmless` | py-sh-go/autocython_width.go:270-318 | The converse fails: `a + b*(a+b)` has such a product, and cut there it leaves the text of another of its parts, so no env makes it report anything else. |
| `PyLoops.RangeRun.RunStmt` | py-sh-go/autocython_ranges.go:493-573 | Running one statement in place leaves the env the specification gives: the target set or forgotten, `x op= e` from both ranges, branches joined. |
| `PyLoops.RangeRun.RunBlock` | py-sh-go/autocython_ranges.go:417-491 | The in-place walk over a block leaves the fold of its statements over the env. |
| `PyLoops.RangeRun.RunIf` | py-sh-go/autocython_ranges.go:961-1015 | The branches run on copies of the entry env and the copies are joined name by name. |
| `PyLoops.RangeRun.RunList` | py-sh-go/autocython_ranges.go:749-761 | A list loop runs the body once for each element, the target rebound each time. |
| `PyLoops.RangeRun.RunFor` | py-sh-go/autocython_ranges.go:764-782 | The target is bound once and the body run until a pass changes nothing; after six passes what the last one changed is dropped. |
| `PyLoops.AssignExactly` | py-sh-go/autocython_ranges.go:493-573 | After an assignment every target has exactly the range of the right-hand side, or none if that is unknown, and every other name what it had. |
| `PyLoops.AugmentedExactly` | py-sh-go/autocython_ranges.go:493-573 | After `x op= e` the range of x is the tightest one that holds the sums, differences, products or (for any non-negative dividend) remainders of its range and that of e, and x is dropped exactly when a range is missing, a result leaves int64, or the operator is a division. |
| `PyLoops.JoinExactly` | py-sh-go/autocython_ranges.go:56-100 | A name is known after a join exactly when it is on both sides, and then with the smallest range that holds both. |
| `PyLoops.IfExactly` | py-sh-go/autocython_ranges.go:961-1015 | After an `if` a name is known exactly when it is after every branch, each run from the entry env, and then with the smallest range that holds all of theirs. |
| `PyLoops.LoopsKeepTheRest` | py-sh-go/autocython_ranges.go:749-782 | A name the body never writes keeps exactly what is known of it through both kinds of `for` loop, the six-pass exit included. |
| `PyLoops.BlockSound` | py-sh-go/autocython_ranges.go:493-1015 | If the env admits a store, the env after a block admits every store a run of the block can end in: assignments, augmented assignments and if/elif/else, nested at will. |
| `PyLoops.JoinSound` | py-sh-go/autocython_ranges.go:961-1015 | The joined env admits the store after whichever branch was taken. |
| `PyLoops.TripsSound` | py-sh-go/autocython_ranges.go:764-782 | After n trips of a `for` (n at least 1) the store is admitted by the env after n abstract passes, whatever values of the counter's interval the trips take, if the env before each pass allows the target to be bound again, as it does for every body that leaves the target alone. |
| `PyLoops.ForFixpointSound` | py-sh-go/autocython_ranges.go:764-782 | If the body stabilises at its k-th pass and every pass allows the target to be bound again, the final env admits the store after every run of at least one and at least k-1 trips, of any length. |
| `PyLoops.UnrolledSound` | py-sh-go/autocython_ranges.go:749-761 | On the unrolled path the env admits the store after exactly the list's number of trips, none included, even if the body assigns the target. |
| `PyLoops.ZeroTripsAreMissed` | py-sh-go/autocython_ranges.go:764-782 | A loop that makes no trip can end in a store the final env excludes: the entry state is never joined in. |
| `PyLoops.LoopIsCoveredExactly` | py-sh-go/autocython_ranges.go:764-782 | The env a stabilised loop leaves, if it allows the target to be bound again, admits the store after every run of any number of trips, none included, if and only if the target and each name the body writes is dropped from it, or left with a range that covers the one it had on entry. |
| `PyLoops.TargetIsNotRebound` | py-sh-go/autocython_ranges.go:764-782 | `for i in range(4, 6): s = i; i = 0` stabilises on s in [0, 0] although s ends as 5: the target is not bound again per pass. |
| `PyLoops.TargetIsReboundExactly` | py-sh-go/autocython_ranges.go:764-782 | For every body, one that assigns the target included, where runs of each number of trips up to n exist: the env of each pass admits the store at the start of the trip it stands for if and only if the env of each pass has dropped the target or covers the counter's interval. |
| `PyLoops.SixPassExitSound` | py-sh-go/autocython_ranges.go:764-782 | The six-pass exit is right for every run of at least six trips if one more pass from what is left keeps all that it claims. |
| `PyLoops.SixPassesAreTooFew` | py-sh-go/autocython_ranges.go:764-782 | On every chain `a = b; b = c; ...; z = 9` of more than six names the loop leaves by the six-pass exit and claims the first name is still 0, while a run with a trip for each name leaves it 9. |
| `PyLoops.IfWithoutElseIsUnsound` | py-sh-go/autocython_ranges.go:980-1008 | An `if` without else leaves an env that excludes the store of the run that skips it. |
| `PyLoops.IfWithoutElseExactly` | py-sh-go/autocython_ranges.go:980-1008 | The env after an `if` without else admits the store after every run, taken or skipped, if and only if each name a branch writes is dropped, or left with a range that covers the one it had. |
| `PyCounter.RangeCounterSound` | py-sh-go/autocython_ranges.go:652-693 | Every element of Python's range(start, stop, step), for every choice of arguments within the known intervals and a step of either sign, lies in the counter's interval. |
| `PyCounter.RangeCounterExactly` | py-sh-go/autocython_ranges.go:652-693 | The counter's interval is the smallest one that holds every value the start and the stop may have. |
| `PyCounter.WhileCounterExact` | py-sh-go/autocython_ranges.go:844-914 | The bound covers every loop-head and exit value of every run of a counter that steps at most once per trip, exactly when no entry value lies past the bound. |
| `PyCounter.WhileBoundExactly` | py-sh-go/autocython_ranges.go:844-914 | There is a bound exactly when the step is not zero and goes the condition's way and neither the last number for which the condition holds nor one step beyond it leaves int64; it reaches from the entry interval to that value. |
| `PyCounter.UnitStepBoundIsTight` | py-sh-go/autocython_ranges.go:844-914 | With a step of one the bound is tight: it begins at the entry interval's near end and some run leaves the loop at its far end. |
| `PyCounter.CounterUpdateSound` | py-sh-go/autocython_ranges.go:916-959 | If a body's only recognised update of the counter is a constant step and every write of it is of a recognised form, each run of the body leaves the counter unchanged or one step on. |
| `PyCounter.UpdateIsRecognised` | py-sh-go/autocython_ranges.go:916-959 | If a body writes the counter once only, as `i = i + d`, `i = d + i`, `i += d`, `i = i - d` or `i -= d`, the step found is d, or -d. |
| `PyCounter.WhileSound` | py-sh-go/autocython_ranges.go:788-842 | At every loop head of every run of a bounded while, the env after as many passes as trips admits the store, counter included. |
| `PyCounter.WhileFixpointSound` | py-sh-go/autocython_ranges.go:788-842 | If the passes stabilise at the k-th, the final env admits the store at every loop head from trip k-1 on, the exit included. |
| `PyCounter.RunBoundedWhile` | py-sh-go/autocython_ranges.go:788-842 | The in-place loop, which resets the counter to its bound after each pass, computes those passes and says whether they stabilised. |
| `PyCounter.WhileKeepsTheRest` | py-sh-go/autocython_ranges.go:788-842 | After any number of those passes the counter has its bound, and a name the body never writes exactly what was known of it. |
| `PyCounter.WrittenNamesExactly` | py-sh-go/autocython_ranges.go:788-842 | The names dropped for a loop without a bound are exactly those some statement of the body, in whatever branch, writes. |
| `PyCounter.DroppingWrittenIsSound` | py-sh-go/autocython_ranges.go:788-842 | Without a bounded counter, dropping every assigned name admits the store at every loop head of every run, whatever the condition. |
| `PyCounter.OtherUpdatesAreMissed` | py-sh-go/autocython_ranges.go:916-959 | `i = 0; while i < 10: i += 1; i *= 2` counts as a step of one and gets the bound [0, 10], while its run has the heads 0, 2, 6 and 14. |
| `PyCounter.BoundKeptExactly` | py-sh-go/autocython_ranges.go:844-959 | For any body with a recognised step, whatever else it writes: the bounds computed for all entry intervals hold at every head of every run if and only if no single trip moves the counter back or past the exit value. |
| `PyCounter.MatchedBodiesStayInside` | py-sh-go/autocython_ranges.go:916-959 | A body whose writes of the counter are all of the recognised forms never moves it back or past the exit value. |
| `ArithParser.Primary` | posix-sh-go/lowering.go:986-1054 | A primary that is read consumes at least one token. |
| `ArithParser.Unary` | posix-sh-go/lowering.go:1056-1096 | A unary expression that is read consumes at least one token, which with the other levels bounds the mutual recursion. |
| `ArithParser.Pow` | posix-sh-go/lowering.go:1098-1113 | A power that is read consumes at least one token. |
| `ArithParser.Binary` | posix-sh-go/lowering.go:1115-1333 | A left-associative level that succeeds consumes at least one token. |
| `ArithParser.Ternary` | posix-sh-go/lowering.go:1335-1359 | A ternary that is read consumes at least one token. |
| `ArithParser.Assignment` | posix-sh-go/lowering.go:1361-1408 | An assignment or expression that is read consumes at least one token. |
| `ArithParser.Parser.Eat` | posix-sh-go/lowering.go:968-974 | Moves past a punctuator exactly if it is next. |
| `ArithParser.Parser.ParsePrimary` | posix-sh-go/lowering.go:986-1054 | Moving the position field, reads exactly what the specification of a primary reads and fails exactly when it fails. |
| `ArithParser.Parser.ParseUnary` | posix-sh-go/lowering.go:1056-1096 | The same for prefix increments and the unary operators. |
| `ArithParser.Parser.ParsePow` | posix-sh-go/lowering.go:1098-1113 | The same for right-associative `**`. |
| `ArithParser.Parser.ParseBinary` | posix-sh-go/lowering.go:1115-1333 | The same for each of the ten levels that loop, rebuilding the left operand. |
| `ArithParser.Parser.ParseTernary` | posix-sh-go/lowering.go:1335-1359 | The same for `?:`. |
| `ArithParser.Parser.ParseAssignment` | posix-sh-go/lowering.go:1361-1408 | The same for assignment, with its look past an identifier and back. |
| `ArithParser.ParseText` | posix-sh-go/lowering.go:1410-1421 | The entry point accepts exactly the texts that are one whole expression. |
| `ArithGrammar.ParserIsGrammar` | posix-sh-go/lowering.go:986-1421 | The parser accepts a token text with a tree if and only if the grammar, written down from the rows of 6.5.5 to 6.5.15 of C11 with `**` above them and independently of the parser's tables, derives the text from that tree: redundant brackets are accepted, everything else is refused, and no text has two trees. |
| `ArithRoundTrip.ParseUndoesPrint` | posix-sh-go/lowering.go:986-1421 | For every tree of the grammar, parsing its minimally bracketed text (by precedence and associativity) returns exactly that tree with no token left. |
| `ArithRoundTrip.ParserRangeIsGrammar` | posix-sh-go/lowering.go:986-1421 | A tree can be the result of a parse if and only if it is a tree of the grammar. |
| `ArithRoundTrip.FullTextRoundTrip` | c-sh-go/main.go:3358-3378 | The shell parser reads the C frontend's fully bracketed arithmetic text, `$` dropped, back to the C expression, for the operators both sides share. |
| `ArithGuard.PureIsOrderFree` | posix-sh-go/lowering.go:1439-1453 | A tree without writes has the same outcome under every order of evaluation and leaves the state alone. |
| `ArithGuard.DivisionIsFound` | posix-sh-go/lowering.go:1423-1437 | The division walk says yes exactly if a `/` or `%` stands somewhere in the tree. |
| `ArithGuard.LowerableExactly` | posix-sh-go/lowering.go:1439-1470 | A tree is taken for lowerable exactly if no assignment, increment or decrement stands anywhere below its root, keys and branches included. |
| `ArithGuard.NativeExactly` | posix-sh-go/lowering.go:1472-1481 | A text is accepted for native lowering exactly if it is one expression, is lowerable and does not both divide and write. |
| `ArithGuard.NativeIsOrderFree` | posix-sh-go/lowering.go:1455-1481 | Every text accepted for native lowering has the same value and final state under any two orders of operand evaluation, for any meaning of the operators. |
| `ArithGuard.RejectedTreesCanDependOnOrder` | posix-sh-go/lowering.go:1455-1470 | The filter is not idle: `x++ + x`, which it rejects, depends on the order. |
| `ArithGuard.DivisionFreeNeverFails` | posix-sh-go/lowering.go:1423-1437 | A tree the division walk clears always has a value if only `/` and `%` can fail. |
| `ArithGuard.NativeWritesComplete` | posix-sh-go/lowering.go:1472-1481 | An accepted text that writes always completes: no write is followed or prevented by a failing division. |
| `ArithGuard.WritesAreCollected` | posix-sh-go/analysis.go:439-464 | The walk that collects written variables finds one exactly in the trees that the write test rejects. |
| `ArithGuard.WrittenVarsExactly` | posix-sh-go/analysis.go:439-464 | The names collected are exactly those that an assignment, increment or decrement somewhere in the tree names. |
| `ArithGuard.EvalWritesOnlyWrittenVars` | posix-sh-go/analysis.go:439-464 | Evaluating any tree, in any order, changes only the collected variables and no array element. |
| `ShText.DecimalRoundTrip` | posix-sh-go/analysis.go:868-892 | The decimal text of every int64 parses back to it, trimmed or not, so it counts as an integer. |
| `ShText.DecimalIsShortest` | posix-sh-go/analysis.go:868-892 | It has no plus sign, a minus sign exactly for negative numbers and no leading zero. |
| `ShText.ParseIntExactly` | posix-sh-go/analysis.go:868-892 | What parses as an int64 is exactly its numeral, digit by digit from the left, with an optional sign. |
| `ShText.IntegerExactly` | posix-sh-go/analysis.go:868-892 | A text counts as an integer exactly if it is such a numeral between stretches of white space. |
| `ShText.DecimalLength` | posix-sh-go/analysis.go:1131-1201 | An int64 takes at most 20 characters, and the minimum takes exactly 20: the bound used for arithmetic. |
| `ShLift.ChaoticLift` | posix-sh-go/analysis.go:859-910 | For any monotone rule, visiting the names in arbitrary order in every pass, with additions taking effect within the pass, terminates in the least fixed point. |
| `ShLift.LeastFixpointIsUnique` | posix-sh-go/analysis.go:859-910 | There is one least fixed point, so the result does not depend on the order of map iteration. |
| `ShLift.NumericLiftVars` | posix-sh-go/analysis.go:846-911 | The numeric lift is the least set closed under its rule, whatever the order of visits. |
| `ShLift.StringLiftVars` | posix-sh-go/analysis.go:914-969 | The string lift is the least set closed under its rule, given the numeric one, whatever the order of visits. |
| `ShLift.NumericLiftExactly` | posix-sh-go/analysis.go:846-911 | A variable is in the numeric lift if and only if in finitely many steps it is shown to be assigned, eligible, bound by no loop, or last by a numeric one, and to have only integers, integer texts, division-free arithmetic and copies of variables shown so in fewer steps as sources. |
| `ShLift.StringLiftExactly` | posix-sh-go/analysis.go:914-969 | A variable is in the string lift if and only if in finitely many steps it is shown to be assigned, eligible, not numeric, and to have only literals, interpolations, captures and copies of variables shown so in fewer steps as sources. |
| `ShLift.LiteralsAreLifted` | posix-sh-go/analysis.go:914-969 | An eligible variable that is not numeric and has only literal sources is lifted; one with an arithmetic, integer or unknown source never is. |
| `ShLift.LiftsAreDisjoint` | posix-sh-go/analysis.go:926-931 | No variable is lifted both ways. |
| `ShLift.NumericIterYieldsInteger` | posix-sh-go/analysis.go:467-505 | Every value an iterable judged numeric yields is an integer. |
| `ShLift.NumericSourceProducesInteger` | posix-sh-go/analysis.go:868-892 | From a store where lifted variables are empty or integers, every source the rule accepts produces an empty or integer text. |
| `ShLift.LiftedIsAlwaysInteger` | posix-sh-go/analysis.go:846-911 | In every run of assignments, loops and unseen writes, with at most one loop for each variable and no uncollected assignment that stores anything else into a lifted variable, a numerically lifted variable that starts empty is at every point empty or an integer. |
| `ShLift.TwoLoopsAreNotSeen` | posix-sh-go/analysis.go:792-843 | Two loops over one variable break that: only the last iterable is looked at. |
| `ShLift.LiftedIsIntegerExactly` | posix-sh-go/analysis.go:792-911 | Every run keeps the numerically lifted variables empty or integer if and only if every loop over one of them, and every uncollected assignment to one of them, can only give empty or integer texts. |
| `ShLift.UnseenAssignmentIsMissed` | posix-sh-go/analysis.go:710-795 | `x=1; true && x=word`: only the first assignment is collected, x is lifted, and a run stores the word. |
| `ShLift.IterIsSafeExactly` | posix-sh-go/analysis.go:467-505 | Which iterables those are: lists of literal items that are empty or integers, and ranges. |
| `ShStrLen.RunPass` | posix-sh-go/analysis.go:1483-1509 | One in-place pass computes the next bounds and reports a change whenever there is one. |
| `ShStrLen.AnalyzeStringLengths` | posix-sh-go/analysis.go:1463-1516 | The loop stops after at most 1024 passes; if it stops before, one more pass would change nothing. |
| `ShStrLen.ExprLenSound` | posix-sh-go/analysis.go:1131-1201 | A bound below saturation holds of every text an expression may give in a store within the variables' bounds. |
| `ShStrLen.LiteralBoundExactly` | posix-sh-go/analysis.go:1016-1016 | One pass bounds a literal by its length if that is at most 4096, and leaves it unbounded otherwise. |
| `ShStrLen.BoundsAreWords` | posix-sh-go/analysis.go:1131-1201 | A bound is a 64-bit number, and the bound of a concatenation is the sum, or the largest such number where the sum is more. |
| `ShStrLen.QuietBoundsHold` | posix-sh-go/analysis.go:1026-1122 | Bounds that one more pass would not change, and no uncollected assignment would raise, hold at every point of every run: any assignments, collected or not, in any order, any number of times. |
| `ShStrLen.PassesAreAttained` | posix-sh-go/analysis.go:1482-1510 | After any number of passes over right-hand sides without integer nodes, some run reaches every bound exactly and exceeds the cap on every unbounded variable: no pass overshoots. |
| `ShStrLen.BoundsHoldExactlyWhenQuiet` | posix-sh-go/analysis.go:1026-1510 | For right-hand sides without integer nodes, the bounds after k passes hold in every run if and only if one more pass would change nothing and no assignment that is not collected would raise one. |
| `ShStrLen.UnseenAssignmentIsMissed` | posix-sh-go/analysis.go:1026-1122 | `x=a; true && x=ab`: the second assignment is not collected, one pass is quiet with the bound 1, and a run reaches a length of two. |
| `ShStrLen.IntegerBoundsMayHoldEarly` | posix-sh-go/analysis.go:1131-1201 | With integer nodes one direction fails: after one pass over `y=a`, `y=$x`, `x=5` the bounds hold in every run, and the next pass still raises one. |
| `ShStrLen.BoundsOnlyMoveUp` | posix-sh-go/analysis.go:1482-1510 | From pass to pass a bound only moves up, from 0 through the cap of 4096 to unbounded. |
| `ShStrLen.LowPassLimitIsUnsound` | posix-sh-go/analysis.go:1016-1017 | Any pass limit below the cap stops early on `s="${s}x"` with a bound some run exceeds. |
| `ShStrLen.PassLimitIsTooLow` | posix-sh-go/analysis.go:1016-1017 | The limit of 1024 under the cap of 4096 is such a limit. |
| `ShConst.VarConstAcc.AddSite` | posix-sh-go/analysis.go:1536-1541 | Recording a site counts it and, under a loop or function, marks the name, and changes nothing else. |
| `ShBuiltin.BuiltinNames` | posix-sh-go/analysis.go:1553-1568 | The recursion over an argument list finds exactly the names that its words `name` or `name=value` begin with, nested lists included. |
| `ShBuiltin.MarkAllIdents` | posix-sh-go/analysis.go:231-250 | The scan finds exactly the identifiers of a text: the stretches of identifier characters that begin with a letter or underscore and cannot be made longer. |
| `ShBuiltin.LetWords` | posix-sh-go/analysis.go:1597-1608 | Of the words of a `let`, the identifiers of exactly the literal ones are found. |
| `ShShell.KindsAreRight` | posix-sh-go/analysis.go:1543-1620 | The classification by command name is the shell's: declarations, the four commands that store into the names they are given, `let`, and the three that run text. |
| `ShShell.GivenIsCollected` | posix-sh-go/analysis.go:1553-1568 | A name is collected exactly as often as the words, nested lists included, are `name` or `name=value`. |
| `ShShell.LetNamesStandIn` | posix-sh-go/analysis.go:1597-1608 | A `let` is taken to write exactly the names that stand in its literal words as words of their own. |
| `ShShell.BaseIsHit` | posix-sh-go/analysis.go:1536-1541 | An assignment is credited exactly to the variable it hits: itself, or the array whose element it is. |
| `ShConst.VarConstAcc.ClassifyBuiltin` | posix-sh-go/analysis.go:1573-1620 | From the command's name and its argument list: a declaration records each name its words spell as one site, a read or unset as written at run time, a `let` every identifier in its words, and eval or source that anything may be written. |
| `ShConst.VarConstAcc.WalkExpr` | posix-sh-go/analysis.go:1622-1684 | The walk over an expression records exactly its write sites. |
| `ShConst.VarConstAcc.WalkStmt` | posix-sh-go/analysis.go:1686-1771 | The walk over a statement records exactly its write sites, loop and function bodies as run many times, while conditions as run once. |
| `ShConst.VarConstAcc.WalkBlock` | posix-sh-go/analysis.go:1686-1771 | The walk over a block records the sites of its statements together. |
| `ShConst.AnalyzeVarConst` | posix-sh-go/analysis.go:1775-1814 | The verdict Const goes exactly to the names with one site, not under a loop or function, and no other kind of write. |
| `ShWrites.ConstVerdictExactly` | posix-sh-go/analysis.go:1536-1814 | A variable is Const if and only if one plain write to it, repeated by no loop or function, is all that is written of it anywhere the walk looks, each command counted by its own name and words. |
| `ShWrites.StoredIsNotConst` | posix-sh-go/analysis.go:1543-1597 | A variable given to a `read`, `readarray`, `mapfile` or `unset` of the program is never Const. |
| `ShWrites.WrittenOnceExactly` | posix-sh-go/analysis.go:1622-1771 | For every program and variable, no run writes it more than once if and only if the most writes on any path, loops and functions counted as repeated, are at most one; what a command writes is stated by its own name. |
| `ShWrites.ConstIsWrittenOnceExactly` | posix-sh-go/analysis.go:1536-1814 | A variable with verdict Const is written at most once in every run, over nested if, case, for, while, function and block bodies and every kind of write, if and only if no path writes it twice, recorded or not. If all its writes are recorded, that is if and only if its site is in no while condition and in no declaration that names it twice. |
| `ShWrites.RepeatedDeclarationIsOneSite` | posix-sh-go/analysis.go:1613-1619 | `declare x=1 x=2` is recorded as one site, so x gets the verdict Const, and writes x twice. |
| `ShWrites.UnseenAssignmentIsMissed` | posix-sh-go/analysis.go:1633-1650 | `x=1; true && x=2`: the second assignment is a call that the walk does not record, so x gets the verdict Const and is written twice. |
| `CHoist.Hoister.HoistToTemp` | c-sh-go/main.go:3433-3444 | Bumps the counter and appends one assignment of the expression to the fresh temporary. |
| `CHoist.Hoister.HoistCondReads` | c-sh-go/main.go:3711-3745 | The in-place rewriting returns the condition, appends the statements and advances the counter as the specification says, operands left to right. |
| `CHoist.HoistIsPlain` | c-sh-go/main.go:3711-3745 | What is left of a condition reads no memory, and mentions only its own variables and temporaries numbered after the counter. |
| `CHoist.HoistIsMinimal` | c-sh-go/main.go:3711-3745 | One temporary is made for each read and each ternary and none besides, one more statement for each increment, and a plain condition stays as it is. |
| `CHoist.HoistComputes` | c-sh-go/main.go:3711-3745 | The hoisted statements end normally in a state that agrees with C's on the program, where the rest of the condition has C's value; older temporaries are untouched. |
| `CHoist.HoistingKeepsMeaning` | c-sh-go/main.go:3711-3745 | The same at every fuel: temporaries, then the rewritten condition, evaluate to the condition, under logical and, or, not, `?:` and nested reads. |
| `CHoist.SkippedIncrementIsRun` | c-sh-go/main.go:3720-3728 | `0 && ++i`: the hoisted form increments i, C does not. |
| `CHoist.SkippableIncrementExactly` | c-sh-go/main.go:3720-3728 | Hoisting `l && ++x` (or `--x`) keeps the program's state if and only if l is true there. |
| `CHoist.AndHoistsExactly` | c-sh-go/main.go:3720-3728 | Hoisting `l && r` keeps the value and the program's state if and only if, where l is false, r changes nothing, and where l is true, what is left of l is still true after r, or r is false. |
| `CHoist.OrHoistsExactly` | c-sh-go/main.go:3720-3728 | The same for logical or, with the truth of l the other way round. |
| `CHoist.SkippedOperandHoistsExactly` | c-sh-go/main.go:3720-3728 | Where r writes no variable of l, hoisting either logical operator is right if and only if C evaluates r too, or r changes nothing. |
| `CHoist.AnyTernaryHoistsExactly` | c-sh-go/main.go:3733-3745 | For any `?:`, whatever its parts share: hoisting is right if and only if what is left of it gives C's value after both branches have run, and the branch that C does not take leaves the program as the taken one alone does. |
| `CHoist.TernaryHoistsExactly` | c-sh-go/main.go:3733-3745 | Where the branches share no written variable with the test or each other, hoisting `?:` is right if and only if the branch that C does not take changes nothing. |
| `CSwitch.SplitMidBreaks` | c-sh-go/main.go:3622-3655 | The scan for the first break computes the split: up to a bare break, or the rest and the next arm moved into the else of a guarded one, or the next arm appended. |
| `CSwitch.BreaksAreFound` | c-sh-go/main.go:3622-3655 | The scan takes for breaks exactly the two forms of a break, and for guarded breaks exactly an `if` whose only statement is one, bare or in braces. |
| `CSwitch.CollectSections` | c-sh-go/main.go:4597-4635 | The parser's loop yields the cases in order and the last default's body. |
| `CSwitch.MergeArms` | c-sh-go/main.go:4656-4664 | The arms are each body split against the arm after it, from the last case backwards. |
| `CSwitch.LowerSwitch` | c-sh-go/main.go:4656-4677 | The whole lowering as the source's loops do it, nothing for a switch without cases. |
| `CSwitch.SplitMeaning` | c-sh-go/main.go:3622-3655 | A split body ends like the body followed by falling into the next arm, whoever catches a break; no break is left at its top. |
| `CSwitch.SwitchIsSettledSwitch` | c-sh-go/main.go:4644-4677 | For every switch with a case, whatever its bodies: the chain implements C's switch over the sections with the default moved to the end and guarded breaks without their else, except that a deeper break is left to the loop around. |
| `CSwitch.SwitchLoweringKeepsMeaning` | c-sh-go/main.go:3622-3655 | From every state and at every fuel the chain has the outcome and final state of selecting a case and falling through until a break (6.8.4.2 of C11), for a plain discriminant, a default last or absent, and breaks bare or as `if (c) break;`; the chain lets no break out. |
| `CSwitch.DefaultMayStandAnywhere` | c-sh-go/main.go:4621-4633 | If no body falls through, the same holds wherever the default stands. |
| `CSwitch.FallsIntoEarlierDefault` | c-sh-go/main.go:4644-4677 | With the default in front, the last case falls into it. |
| `CSwitchExact.MovedDefaultExactly` | c-sh-go/main.go:4644-4677 | With a default at any position and fallthrough allowed everywhere, the lowering is right from a given state if and only if moving the default behind the other sections makes no difference: entered in front, control does not get that far or both orders come to the same; entered at the default or behind it, control does not fall on, or what the one order runs in addition ends, up to a break, where it began. |
| `CSwitch.OnlyDefaultIsDropped` | c-sh-go/main.go:4671-4673 | `switch (0) { default: x = 1; }` sets x in C and is lowered to nothing. |
| `CSwitch.DroppedDefaultExactly` | c-sh-go/main.go:4671-4673 | Dropping a switch with only a default is right if and only if the default, run after the discriminant, ends normally or by a break in the state the switch was entered in. |
| `CSwitch.GuardElseIsLost` | c-sh-go/main.go:3642-3647 | A guarded break with an else of its own loses that else. |
| `CSwitchExact.GuardElseIsLostExactly` | c-sh-go/main.go:3642-3647 | A case with `if (c) break; else E` before any tail is lowered right from a given state if and only if the case is not selected, the guard is not reached, the break is taken, or E and the tail come to the same as the tail alone. |
| `CSwitch.DeepBreakEscapes` | c-sh-go/main.go:3622-3655 | A break deeper than a guarded one leaves the chain as a loop break. |
| `CSwitchExact.DeepBreakExactly` | c-sh-go/main.go:3622-3655 | A case with `if (c) { work; break; }` before any tail is lowered right from a given state if and only if the case is not selected, the `if` is not reached, c is false there, or the work does not get to the break. |
| `CFor.WrapForContinues` | c-sh-go/main.go:801-851 | The transforming loop computes the wrapped body: signals in blocks and if-arms wrapped, everything else untouched. |
| `CFor.WrapMeaning` | c-sh-go/main.go:790-851 | The wrapped body runs like the body, except that a continue has run the step exactly once. |
| `CFor.WrapExactly` | c-sh-go/main.go:801-851 | For every body: the wrapped body runs as the body with the step before its continue if and only if a continue that ends the run is a signal call in blocks and if-arms only, or the step leaves its state as it was. |
| `CFor.KeptRunsAreTheSame` | c-sh-go/main.go:790-851 | A run whose every trip meets that condition is the same run in the `for` and in its rewriting, whatever continues the body holds. |
| `CFor.StrippingKeepsMeaning` | c-sh-go/main.go:790-851 | `for (init; c; u) body` and `init; while (c) { wrapped body; u }` have the same outcome at every fuel (6.8.5.3, 6.8.6.2 of C11), for every body whose own continues are signal calls outside switches. |
| `CFor.PlainContinueIsMissed` | c-sh-go/main.go:812-847 | The first-class continue node is not recognised: `for (; i < 1; i++) continue;` ends, its rewriting never does. |
| `CFor.ContinueInSwitchIsMissed` | c-sh-go/main.go:844-847 | A continue out of a switch reaches the loop without the step, which is right if and only if the step is idle there. |
| `CLower.Lowerer.Statement` | c-sh-go/main.go:4378-4677 | The lowering as the parser does it, with its counter across statements: parts first, then the condition. |
| `CLower.Lowerer.HoistCond` | c-sh-go/main.go:3711-3745 | Each condition is hoisted into a list of its own. |
| `CLower.Lowerer.Statements` | c-sh-go/main.go:3796-3836 | A statement list in order, blocks opened in place and a switch without cases dropped. |
| `CLower.ReadsAreNotPlain` | c-sh-go/main.go:3688-3705 | A condition is hoisted exactly if it is not built from variables, literals, comparisons, arithmetic and logic alone. |
| `CLower.GuardRun` | c-sh-go/main.go:4447-4458 | The guard runs on into the body when the condition holds and leaves the loop when it does not. |
| `CLower.GuardedWhileMeaning` | c-sh-go/main.go:4423-4460 | `while (c) body` and `while (1) { temps; if (c') {} else break; body }` have the same runs up to temporaries, trip for trip, including bodies that break, continue or return. |
| `CLower.ForMeaning` | c-sh-go/main.go:4461-4546 | The same for a for loop whose condition is tested by a guard in the body. |
| `CLower.SwitchMeaning` | c-sh-go/main.go:4575-4677 | The same for a switch, its discriminant hoisted once and its bodies lowered first. |
| `CLower.LowerMeaning` | c-sh-go/main.go:4378-4677 | Every accepted program, with any nesting of if, while, for, switch and blocks, ends in the same way, with the same value and the same program state, as its lowering, at every fuel. |
| `CLower.GuardWithReadEscapes` | c-sh-go/main.go:4411-4422 | `switch (0) { case 0: if (*p) break; }`: the guard is wrapped with its temporary, the split misses it and the break escapes. |
| `CLower.ReadGuardExactly` | c-sh-go/main.go:4411-4422 | A one-case switch with `if (c) break;` between any statements is lowered right, from a given state, if and only if c reads no memory or the break is not taken there. |
| `CFold.Interpreter.EvalConst` | c-sh-go/main.go:1705-1894 | Folding an expression over the literal environment, which it updates in place, follows the specification. |
| `CFold.Interpreter.EvalTop` | c-sh-go/main.go:1599-1611 | A va_arg that is the whole expression takes the next remaining literal. |
| `CFold.Interpreter.Interpret` | c-sh-go/main.go:1617-1671 | One statement goes on, returns or refuses as specified, the environment updated in place. |
| `CFold.Interpreter.InterpretLoop` | c-sh-go/main.go:1642-1666 | The guarded loop makes at most the guard's number of tests and refuses after them. |
| `CFold.FoldUserBody` | c-sh-go/main.go:1677-1692 | The folded call, with the guard of 100000. |
| `CFold.FoldConstSound` | c-sh-go/main.go:1705-1894 | An expression that folds has that value and those effects in C, where what logical and / or may skip writes nothing; C's operators are stated by themselves: order of the integers, congruence modulo 2^64, quotient and remainder. |
| `CFold.ComputeExactly` | c-sh-go/main.go:1800-1832 | `+ - *` give the int64 congruent to the result modulo 2^64, `/` and `%` the one quotient and remainder with a = q*b + r, r smaller than b and of a's sign (6.5.5 of C11), and nothing exactly for a zero divisor. |
| `CFold.CompareExactly` | c-sh-go/main.go:1833-1873 | A comparison of numbers is 1 or 0 by the order of the two integers; of other values only equality is decided, by the text. |
| `CFold.BindIsParameters` | c-sh-go/main.go:1677-1685 | Each parameter holds the argument at the last position of its name. |
| `CFold.FoldUserBodySound` | c-sh-go/main.go:1677-1692 | If a call folds to v, running the body in C (int64 arithmetic, unbounded loops, early return, va_arg in order) returns v under every limit on loop tests at least the guard. |
| `CFold.FoldedIsTheOnlyAnswer` | c-sh-go/main.go:1643-1666 | Whatever the body ends in under any limit at all is the folded value: the guard never changes a successful answer. |
| `CFold.CountingFoldsExactly` | c-sh-go/main.go:1642-1666 | `i = 0; while (i < n) i += 1; return i;` folds to n if and only if n is below 100000. |
| `CFold.DirectBodiesFoldExactly` | c-sh-go/main.go:1677-1692 | On bodies over numbers with `=`, `+=`, `-=`, no logical operators and va_arg only as a whole expression, the fold answers v if and only if C returns v within the guard's number of loop tests. |
| `CFold.CompoundAssignmentExactly` | c-sh-go/main.go:1627-1641 | `x op= b` folds to what C computes for all int64 values if and only if op is `+` or `-`: every other operator is folded as a subtraction. |
| `CFold.SkippedIncrementExactly` | c-sh-go/main.go:1858-1873 | `n && x++` folds to what C does if and only if n is nonzero. |
| `CFold.SkippedOperandExactly` | c-sh-go/main.go:1858-1873 | `l && r` or logical or, over operands that fold to numbers, folds to what C does if and only if C evaluates r, or r leaves the environment unchanged. |
| `CFold.TextConditionEndsLoop` | c-sh-go/main.go:1648-1654 | A loop condition that is text is taken for zero: `while ("a"); return 1;` folds to 1, C never returns. |
| `CFold.LoopTestExactly` | c-sh-go/main.go:1648-1654 | The fold's reading of a loop condition agrees with C's exactly for numbers. |
| `CFold.NumberTestsFoldSound` | c-sh-go/main.go:1642-1666 | A loop whose tests all come out as numbers folds to what C does, whatever its condition is. |
| `CFold.LoopDecisionExactly` | c-sh-go/main.go:1642-1666 | A loop folds to what C does for every foldable body that ends in a return if and only if its condition's value is a number. |
| `CWidth.OnlyCastsAreAdded` | c-sh-go/main.go:3003-3098 | Without its casts the lowered tree is the expression: no operand is dropped, added or moved. |
| `CWidth.TypeIsHighestLeaf` | c-sh-go/main.go:2952-2995 | An operator's type is the highest-ranking type among its leaves, and int at least. |
| `CWidth.CastsByLeaves` | c-sh-go/main.go:2952-3098 | For every expression the lowered tree is the one in which each operator and operand is cast to the 64-bit type its own leaves call for, unsigned if one of them is, or else to that of the nearest operator around it that has one; explicit casts keep their type. |
| `CWidthValue.PolynomialExactly` | c-sh-go/main.go:3003-3046 | Over sums, differences and products with a 64-bit leaf, the tree computes the integer value reduced modulo 2^64, unsigned if and only if a leaf is unsigned and 64-bit. |
| `CWidthValue.LargeLiteralExactly` | c-sh-go/main.go:3048-3058 | A literal no int64 holds is clamped: `u + n` is right for every u if and only if n is at most the largest int64. |
| `CWidthValue.SignedOperandExactly` | c-sh-go/main.go:3003-3046 | A signed 64-bit sum keeps its sign beside an unsigned operand: `s + 0 < u` is what C computes if and only if s is not negative or is below u as an unsigned number too. |
| `CWidthValue.NarrowSumExactly` | c-sh-go/main.go:3003-3046 | A sum of two unsigned ints under a 64-bit operator is not wrapped at 32 bits: `x + y + t` is what C computes if and only if x + y needs no wrapping. |
| `CWidth.MixExactly` | c-sh-go/main.go:3003-3098 | For every expression and any casts, no operator of the lowered tree meets both a BigInt and a plain number if and only if no 64-bit operator has a 32-bit cast as an operand, no operator below one has such a cast on one side only, and every other operator has a BigInt on both sides or on neither; casts without a width pass their operand through. |
| `CWidth.CastFreeIsFullyCast` | c-sh-go/main.go:3003-3046 | Without explicit casts a 64-bit expression is lowered to a tree whose root is a 64-bit cast, as is each operand of each operator below. |
| `CWidth.NarrowCastMixes` | c-sh-go/main.go:3084-3092 | `(int)a + b` with b a long long meets a plain number and a BigInt. |
| `CWidth.WidthlessCastMixes` | c-sh-go/main.go:3084-3092 | `(char)b + 1` with b a long long does too: the cast hides its operand's type. |
| `CWidth.WidthlessCastMixesExactly` | c-sh-go/main.go:3084-3092 | A widthless cast under an operator that is not 64-bit mixes if and only if one side is a BigInt behind such casts and the other is not. |

## Left out

- Lexing of bytes: Python texts and shell arithmetic are sequences of tokens, C is abstract syntax.
  Where characters would fuse (`1--b`, which the shell parser reads as `1 - -b`) the tokens are taken
  as separate.
- I/O, JSON and tree-sitter or ANTLR trees, CLI mains, the sh2 runtime, and the core passes that run
  after the frontends; heredocs, quoting, redirects, globs, and the fish, bat, perl and PowerShell
  frontends.
- Aliasing of the JSON maps the C lowering edits in place: statements are values, so an arm shared by
  several cases is a copy.
- Python facts other than intervals: list facts and their escapes, additive accumulators over lists,
  walrus, with, try, global and nested definitions, break, continue and `else` on loops.
- PyLoops.ForFixpointSound: is about loops that stabilise. The six-pass exit, where changed names are
  dropped, is wrong for long chains (`SixPassesAreTooFew`); `SixPassExitSound` says when it is right,
  without a converse: a claim that a pass does not keep may still hold in every run.
- PyEvalSound.EvalTextSound: assumes the sign conditions, which `NegIVExact` and `AbsIVExact` show to
  be exact for one operation; floats, and the results of calls and subscripts the evaluator does not know, are
  values the analysis does not track. A call of, or subscript into, a parenthesised expression, tuples and
  comparisons are not among the trees.
- PyCounter.CounterUpdateSound: loop bodies hold no loops of their own, while the source's walk looks
  into them; there one trip may step more than once (`while i < 8: for j in range(5): i += 1` gets the
  bound 8 and leaves with 10).
- PyCounter.WhileSound: the same bodies, as for `PyCounter.WhileFixpointSound`.
- PyWidth.FlatReportsParts: one direction only. As texts the converse is false (`NotFlatButHarmless`):
  what is reported may happen to be the text of another part.
- PyWidth.NoReportMeansAllFit: is about parts that mention the assigned name, the only ones the source looks
  at, and not about what stands inside calls, signs and powers, where it is false (`WideArgumentIsMissed`).
- The depth limit of 24 in the statement walk, and lambdas and comprehensions in the written text.
- Captures of command output in the string-length analysis are unbounded texts; the source bounds some
  by the commands in the pipeline.
- ShStrLen.BoundsHoldExactlyWhenQuiet: leaves out plain integer nodes, whose fixed bound of 20 need
  not be attained (`IntegerBoundsMayHoldEarly`); `QuietBoundsHold` covers them.
- ShLift.NumericIterYieldsInteger: brace expansions, of which the source takes every range for numeric,
  are not among the iterables.
- ShLift.LiftedIsIntegerExactly: a text put together from parts counts as any text.
- ShWrites.ConstIsWrittenOnceExactly: tests go either way, so a path that no run takes counts as well;
  writes made in a subshell or a pipeline stage count like others.
- Declarations whose name is computed (`declare "$n=1"`) name nothing here, as in the source; the
  writes they make are not part of a run.
- The context walk that bars names from lifting (`[[ ]]`, getopts, traps and the like) is a set given
  to the model; so are the reserved names.
- C expressions other than those of `CLang.Expr`: bit operations, calls, members, postfix increments
  (which the condition grammar cannot render), compound assignment, floats and integer widths; C
  statements do-while, goto and labels. Division by zero, undefined in C, is zero.
- CHoist.HoistingKeepsMeaning: reads are total, so a hoisted read that C would have skipped is
  harmless here; on a real null address it is not.
- CLower.LowerMeaning: temporaries are a name space of their own, as the `___t` prefix intends.
- CFor.StrippingKeepsMeaning: the if node's elsif list, always empty in this frontend, is not part of
  the node.
- CWidthValue.PolynomialExactly: quotients, shifts and comparisons are not polynomials; what goes wrong with
  them is `SignedOperandExactly`. Arithmetic without a 64-bit operand is left to the runtime's numbers.
- CFold.LoopTestExactly: string literals that read as numbers are no values here, while the source parses
  them (`while ("0")` ends at once); two equal string literals compare as equal, which C leaves open.
- PyRegroup.SumIsRegroupedExactly: products with `%` among the factors, and `%=` over anything looser, are
  characterised for two names only (`TwoNamesExactly`).
- CFold.FoldUserBodySound: numbers are in canonical decimal; calls inside a folded body, `sizeof`,
  and statements the fold refuses (if, for, stores) are not part of the language.
- The 64-bit pointer-element typing of temporaries, and folding of ternaries and calls to constants
  inside arithmetic.
- Variable lifetimes, no-space verdicts and static heap offsets.
