# Constrained test selection

This project models the core of two C++ generators of arithmetic tests,
`fancy_test_generator.cpp` and `simple_test_generator.cpp`. Both programs
draw a test of `NUM_PROBLEMS = 20` problems from a bank. A test is accepted
when two conditions hold:

- its total difficulty lies in `[MIN_DIFFICULTY, MAX_DIFFICULTY] = [65, 75]`;
- every topic present in the bank is covered by between `MIN_TOPIC = 3` and
  `MAX_TOPIC = 7` of its problems.

To find such a test, each program shuffles the whole bank in place and takes
its first 20 problems. It repeats this until the candidate passes `valid`.
The fancy generator also has two more parts:

- a `Header` object that collects LaTeX `\newcommand` definitions in a
  `std::map` and writes them between two `\input` lines;
- a `FancyLayout::format` that renders one problem.

Modules:

- `Problems` (`problem.dfy`): a problem (topic, difficulty, question,
  answer) and the set of topics of a bank.
- `Shuffling` (`shuffling.dfy`): the in-place shuffle of the bank, as a
  Fisher–Yates pass over an `array`. The random draws come from the caller as
  `coins(attempt, position)`. The shuffle is specified by the function
  `Shuffled`, and the lemma `ShuffledPermutation` proves that it is a
  permutation.
- `Selection` (`selection.dfy`): the algorithm both programs share. It is
  parameterised by its five constants.
  - `Valid` is proved equal to the predicate `IsValidTest`. Its loops mirror
    the C++ ones, including the topic-count map whose `operator[]` inserts 0.
  - `TestProblems` is proved equal to the function `Search`. It is also proved
    sound: a chosen test has the right size, is drawn from the bank, and is
    valid.
  - Further lemmas show that the test metrics do not depend on problem order,
    and that some bank/constraint combinations cannot be satisfied at all.
- `StringOrder` (`string_order.dfy`): the lexicographic order on strings that
  `std::map<std::string, …>` iterates in, and the sorted key sequence of a
  key set.
- `FancyTestGenerator` and `SimpleTestGenerator`: each program's constants,
  bound to the shared algorithm. The fancy module also contains `Format` and
  the `Header` class.

## Model

| member | source | states |
|---|---|---|
| Selection.Valid | fancy_test_generator.cpp:81-106 | returns true exactly when the total difficulty is within the bounds and every topic of the given set is counted within the per-topic bounds (both directions); topics of the test outside the set are ignored |
| Selection.BankTopics | fancy_test_generator.cpp:112-115 | the collected topic set is exactly the set of topics occurring in the bank, and contains the topic of every bank entry |
| Selection.TestProblems | fancy_test_generator.cpp:110-128 | the result equals the shuffle-and-retry search over the bank; when a test is chosen, it has `numProblems` entries, is a sub-multiset of the bank, and satisfies `valid` |
| Selection.SearchSound | fancy_test_generator.cpp:121-127 | any test the retry loop returns has exactly `numProblems` problems, every problem is drawn from the bank without repetition beyond its multiplicity, and it satisfies the constraints |
| Selection.SearchBudgetStable | fancy_test_generator.cpp:121-127 | once the loop returns a test within some number of attempts, allowing more attempts returns the same test, so the bounded search agrees with the unbounded loop on every run that terminates |
| Selection.InfeasibleQuotasExhaust | fancy_test_generator.cpp:121-127 | if the number of bank topics times the per-topic minimum exceeds the test size, no attempt can succeed, whatever the budget and the draws: the loop never returns |
| Selection.QuotasExceedSize | fancy_test_generator.cpp:99-104 | no test is valid when the per-topic minimums of all the given topics together exceed the test's length |
| Selection.CoveredSplit | fancy_test_generator.cpp:90-93 | the problems on a set of topics are those on one of its topics plus those on the rest |
| Selection.CoveredBound | fancy_test_generator.cpp:90-93 | the problems on a set of topics number at most the test's length |
| Selection.CoveredZero | fancy_test_generator.cpp:90-93 | no problem is on a topic of the empty set |
| Selection.CoveredAtLeast | fancy_test_generator.cpp:99-104 | if each topic of a set is counted at least `m` times, the problems on those topics number at least `|topics| * m` |
| Selection.AbsentTopicRejected | fancy_test_generator.cpp:84-87 | a bank topic missing from the test keeps its seeded count of 0, so the test is rejected whenever the minimum is positive |
| Selection.TopicCountPositive | fancy_test_generator.cpp:90-93 | a topic's count in a test is positive exactly when some problem of the test has that topic |
| Selection.TopicCountBounds | fancy_test_generator.cpp:90-93 | a topic's count lies between 0 and the test's length |
| Selection.TwoTopicCounts | fancy_test_generator.cpp:90-93 | the counts of two distinct topics add up to at most the test's length |
| Selection.TotalAppend | fancy_test_generator.cpp:90-93 | the accumulated difficulty and topic counts of a concatenation are the sums over its parts |
| Selection.TotalRemove | fancy_test_generator.cpp:90-93 | removing one problem from a test subtracts exactly that problem's contribution from a metric |
| Selection.TotalPermutation | fancy_test_generator.cpp:90-93 | the difficulty sum and every topic count are the same for any two orderings of the same problems |
| Selection.ValidPermutationInvariant | fancy_test_generator.cpp:81-106 | validity of a test does not depend on the order of its problems |
| Shuffling.Pick | fancy_test_generator.cpp:122 | the swap partner drawn for position `i - 1` lies in `[0, i)` |
| Shuffling.ShuffledPermutation | fancy_test_generator.cpp:122 | shuffling yields a permutation of the bank: the same multiset of problems |
| Shuffling.Shuffle | fancy_test_generator.cpp:122 | the in-place pass over the array leaves it holding the specified shuffle of its old contents, a permutation of them |
| FancyTestGenerator.Valid | fancy_test_generator.cpp:81-106 | with this program's constants: true exactly when the difficulty sum is in 65..75 and each given topic occurs 3..7 times |
| FancyTestGenerator.TestProblems | fancy_test_generator.cpp:110-128 | with this program's constants: the search result, and any chosen test has 20 problems from the bank, difficulty 65..75 and 3..7 problems per bank topic |
| FancyTestGenerator.CppRemainder | fancy_test_generator.cpp:37 | C++ `%` by a positive divisor: agrees with the mathematical remainder for a non-negative dividend and lies in `(-b, 0]` for a negative one |
| FancyTestGenerator.CppDivisionIdentity | fancy_test_generator.cpp:37 | the C++ division identity: the dividend equals divisor times the truncated quotient plus `CppRemainder`; with the range above this fixes the remainder for every dividend (so `-3 % 2 == -1`) |
| FancyTestGenerator.Format | fancy_test_generator.cpp:34-47 | a page break precedes a positive odd-numbered problem and a vertical space precedes every other one (negative odd numbers included, as `%` truncates); the question then appears verbatim between the tabular opener and closer |
| FancyTestGenerator.CommandLinesStep | fancy_test_generator.cpp:25-27 | rendering the commands in key order starts with the line for the smallest key, followed by the rendering of the remaining keys |
| FancyTestGenerator.Header.constructor | fancy_test_generator.cpp:17 | the header keeps both file names and starts with no commands |
| FancyTestGenerator.Header.AddCommand | fancy_test_generator.cpp:19-21 | the key now maps to the new value (overwriting any earlier one); every other key keeps its presence and value; the file names are unchanged |
| FancyTestGenerator.Header.Write | fancy_test_generator.cpp:23-29 | the output is the `\input` of the style file, one `\newcommand` line per command in ascending key order, then the `\input` of the content file |
| StringOrder.LessIrreflexive | fancy_test_generator.cpp:14 | no key precedes itself in the map's order |
| StringOrder.LessTransitive | fancy_test_generator.cpp:14 | the map's key order is transitive |
| StringOrder.LessTotal | fancy_test_generator.cpp:14 | any two distinct keys are ordered one way or the other |
| StringOrder.LeastExists | fancy_test_generator.cpp:25 | every non-empty key set has a smallest key, where the map's iteration starts |
| StringOrder.LeastUnique | fancy_test_generator.cpp:25 | the smallest key of a set is unique |
| StringOrder.SortedKeys | fancy_test_generator.cpp:25-27 | the map's iteration order: each key exactly once, in strictly ascending order |
| StringOrder.SortedKeysHead | fancy_test_generator.cpp:25-27 | iteration over a key set begins with its smallest key and continues with the rest in order |
| SimpleTestGenerator.Valid | simple_test_generator.cpp:39-64 | with this program's constants: true exactly when the difficulty sum is in 65..75 and each given topic occurs 3..7 times |
| SimpleTestGenerator.TestProblems | simple_test_generator.cpp:68-86 | with this program's constants: the search result, and any chosen test has 20 problems from the bank, difficulty 65..75 and 3..7 problems per bank topic |

## Left out

- Selection.TestProblems: the C++ loop runs until a valid test turns up, possibly forever. The model stops after `budget` attempts and returns `Exhausted`. `SearchBudgetStable` relates the bounded search to the unbounded loop, and `InfeasibleQuotasExhaust` gives a case where the loop never ends. The same applies to `FancyTestGenerator.TestProblems` and `SimpleTestGenerator.TestProblems`.
- Selection.TestProblems: requires the bank to hold at least `numProblems` problems. With a smaller bank, `bank.begin() + NUM_PROBLEMS` in the C++ runs past the end, which is undefined behaviour.
- Shuffling.Shuffle: `std::random_device`, the `std::mt19937` engine and the exact sequence of swaps `std::shuffle` performs are implementation details. They are replaced by a Fisher–Yates pass whose draws the caller supplies. Only the permutation property, and the fact that the result is a function of the draws, are modelled. The uniformity of the distribution is not.
- Integer width: difficulty sums and counts are unbounded integers. The C++ `int` difficulty accumulator in `valid` sums the 20 problems of a test. It overflows only when those difficulties are large enough in magnitude (beyond about `INT_MAX / 20`). Nothing in `Problem` bounds a difficulty, so such banks are possible. The model does not capture that wrap-around.
- FancyTestGenerator.Header.Write: the method is modelled as returning the text it writes to the `std::ofstream`. File opening, stream errors and flushing are not modelled. In the source, `class Header` (opened at line 10) is never closed: its `};` is missing after `write`. The model follows the evident intent: a class whose `write` emits the three parts.
- StringOrder.Less: compares `char` values by their code points. `std::string` compares bytes; for UTF-8 text the two orders agree.
- `Problem::problemList` and the `Problem(rawProblem)` parsing constructor (problem.h:30-31) read the bank from a file. They are not part of this model; problems are taken as given values.
- `IProblem`, `Problemv2`, `ProblemLayout`, `AlgorithmSelect` and the other layout classes are not part of this model. Only the `FancyLayout::format` override that the fancy generator uses is modelled.
- `main` of both programs (reading the bank, setting the configuration strings, writing the test file) is file I/O and is not modelled.
