/** Constrained test selection: the validator `valid` and the rejection
    sampler `testProblems` that both generator programs share. The global
    constants of the programs are gathered into a `Constraints` value. */
module Selection {
  import opened Problems
  import opened Shuffling

  /** The constraints on a test: its size, the inclusive range of problems
      per bank topic, and the inclusive range of the total difficulty. */
  datatype Constraints = Constraints(
    numProblems: int,
    minTopic: int,
    maxTopic: int,
    minDifficulty: int,
    maxDifficulty: int)

  /** The result of a bounded run of the sampler: the accepted test, or the
      attempt budget ran out before any shuffle gave a valid test. */
  datatype Outcome = Chosen(test: seq<Problem>) | Exhausted

  // ---------------------------------------------------------------------
  // Metrics of a candidate test

  /** The metrics accumulated per problem: its difficulty, 1 when it is on
      a given topic (the two `valid` keeps), or 1 when it is on any topic of
      a set (used to reason about all topic quotas at once). */
  datatype Metric = Difficulty | OnTopic(topic: string) | OnAnyOf(topics: set<string>)

  function Weight(m: Metric, p: Problem): int
  {
    match m
    case Difficulty => p.difficulty
    case OnTopic(t) => if p.topic == t then 1 else 0
    case OnAnyOf(ts) => if p.topic in ts then 1 else 0
  }

  /** The sum of a metric over the problems of `s`, accumulated front to back. */
  function Total(s: seq<Problem>, m: Metric): int
  {
    if s == [] then 0 else Total(s[..|s| - 1], m) + Weight(m, s[|s| - 1])
  }

  /** The total difficulty of a test. */
  function DifficultySum(test: seq<Problem>): int
  {
    Total(test, Difficulty)
  }

  /** How many problems of the test are on topic `t`. */
  function TopicCount(test: seq<Problem>, t: string): int
  {
    Total(test, OnTopic(t))
  }

  /** The acceptance condition of `valid`: the difficulty sum lies in its
      inclusive range, and so does the count of EVERY topic of `topics`,
      including topics that do not occur in the test at all (count 0). */
  predicate IsValidTest(test: seq<Problem>, topics: set<string>, c: Constraints)
  {
    && c.minDifficulty <= DifficultySum(test) <= c.maxDifficulty
    && forall t :: t in topics ==> c.minTopic <= TopicCount(test, t) <= c.maxTopic
  }

  lemma {:induction false} TotalAppend(a: seq<Problem>, b: seq<Problem>, m: Metric)
    ensures Total(a + b, m) == Total(a, m) + Total(b, m)
    decreases |b|
  {
    if b == [] {
      assert a + b == a;
    } else {
      var b' := b[..|b| - 1];
      assert (a + b)[..|a + b| - 1] == a + b';
      TotalAppend(a, b', m);
    }
  }

  /** Taking one problem out of a sequence takes its weight out of the total. */
  lemma TotalRemove(s: seq<Problem>, k: nat, m: Metric)
    requires k < |s|
    ensures Total(s, m) == Total(s[..k] + s[k + 1..], m) + Weight(m, s[k])
  {
    assert s == s[..k] + [s[k]] + s[k + 1..];
    TotalAppend(s[..k] + [s[k]], s[k + 1..], m);
    TotalAppend(s[..k], [s[k]], m);
    TotalAppend(s[..k], s[k + 1..], m);
    assert [s[k]][..0] == [];
  }

  /** Taking one element out of a sequence takes it out of its multiset. */
  lemma MultisetRemove(s: seq<Problem>, k: nat)
    requires k < |s|
    ensures multiset(s[..k] + s[k + 1..]) == multiset(s) - multiset{s[k]}
  {
    assert s == s[..k] + [s[k]] + s[k + 1..];
  }

  /** A total depends only on the multiset of the problems summed. */
  lemma {:induction false} TotalPermutation(s1: seq<Problem>, s2: seq<Problem>, m: Metric)
    requires multiset(s1) == multiset(s2)
    ensures Total(s1, m) == Total(s2, m)
    decreases |s1|
  {
    if s1 == [] {
      assert |s2| == |multiset(s2)| == 0;
    } else {
      var n := |s1| - 1;
      var x := s1[n];
      assert x in multiset(s1);
      var k :| 0 <= k < |s2| && s2[k] == x;
      MultisetRemove(s1, n);
      MultisetRemove(s2, k);
      assert s1[..n] + s1[n + 1..] == s1[..n];
      TotalPermutation(s1[..n], s2[..k] + s2[k + 1..], m);
      TotalRemove(s1, n, m);
      TotalRemove(s2, k, m);
    }
  }

  /** A topic count is between 0 and the length of the test. */
  lemma {:induction false} TopicCountBounds(test: seq<Problem>, t: string)
    ensures 0 <= TopicCount(test, t) <= |test|
  {
    if test != [] {
      TopicCountBounds(test[..|test| - 1], t);
    }
  }

  /** A topic is counted at least once exactly when it occurs in the test;
      a bank topic absent from the test counts as 0. */
  lemma {:induction false} TopicCountPositive(test: seq<Problem>, t: string)
    ensures TopicCount(test, t) > 0 <==> t in TopicsOf(test)
  {
    if test != [] {
      var init := test[..|test| - 1];
      var last := test[|test| - 1];
      TopicCountPositive(init, t);
      TopicCountBounds(init, t);
      assert test == init + [last];
      assert TopicsOf(test) == TopicsOf(init) + {last.topic};
    }
  }

  /** Two different topics together occupy at most the whole test. */
  lemma TwoTopicCounts(test: seq<Problem>, t1: string, t2: string)
    requires t1 != t2
    ensures TopicCount(test, t1) + TopicCount(test, t2) <= |test|
  {
    CoveredSplit(test, {t1, t2}, t1);
    assert {t1, t2} - {t1} == {t2};
    CoveredSplit(test, {t2}, t2);
    assert {t2} - {t2} == {};
    CoveredZero(test);
    CoveredBound(test, {t1, t2});
  }

  // ---------------------------------------------------------------------
  // Properties of the acceptance condition

  /** The verdict depends only on the multiset of the test: reordering the
      problems changes neither the difficulty sum nor any topic count. */
  lemma ValidPermutationInvariant(s1: seq<Problem>, s2: seq<Problem>, topics: set<string>, c: Constraints)
    requires multiset(s1) == multiset(s2)
    ensures IsValidTest(s1, topics, c) <==> IsValidTest(s2, topics, c)
  {
    TotalPermutation(s1, s2, Difficulty);
    forall t | t in topics
      ensures TopicCount(s1, t) == TopicCount(s2, t)
    {
      TotalPermutation(s1, s2, OnTopic(t));
    }
  }

  /** A bank topic that the test does not cover at all is a rejection as
      soon as at least one problem per topic is demanded. */
  lemma AbsentTopicRejected(test: seq<Problem>, topics: set<string>, c: Constraints, t: string)
    requires t in topics && t !in TopicsOf(test)
    requires c.minTopic > 0
    ensures !IsValidTest(test, topics, c)
  {
    TopicCountPositive(test, t);
    TopicCountBounds(test, t);
  }

  /** How many problems of the test are on some topic of `topics`. */
  function CoveredCount(test: seq<Problem>, topics: set<string>): int
  {
    Total(test, OnAnyOf(topics))
  }

  /** The problems on a set of topics are those on one of its topics plus
      those on the others. */
  lemma {:induction false} CoveredSplit(test: seq<Problem>, topics: set<string>, t: string)
    requires t in topics
    ensures CoveredCount(test, topics) == TopicCount(test, t) + CoveredCount(test, topics - {t})
  {
    if test != [] {
      CoveredSplit(test[..|test| - 1], topics, t);
    }
  }

  /** The problems on a set of topics are at most the whole test. */
  lemma {:induction false} CoveredBound(test: seq<Problem>, topics: set<string>)
    ensures CoveredCount(test, topics) <= |test|
  {
    if test != [] {
      CoveredBound(test[..|test| - 1], topics);
    }
  }

  /** If every topic of a set is covered at least `m` times, the test holds
      at least `|topics| * m` problems on those topics. */
  lemma {:induction false} CoveredAtLeast(test: seq<Problem>, topics: set<string>, m: int)
    requires forall t :: t in topics ==> TopicCount(test, t) >= m
    ensures CoveredCount(test, topics) >= |topics| * m
    decreases |topics|
  {
    if topics == {} {
      assert CoveredCount(test, topics) == 0 by {
        CoveredZero(test);
      }
    } else {
      var t :| t in topics;
      CoveredSplit(test, topics, t);
      CoveredAtLeast(test, topics - {t}, m);
      assert |topics - {t}| == |topics| - 1;
      assert |topics| * m == (|topics| - 1) * m + m;
    }
  }

  /** No problem is on a topic of the empty set. */
  lemma {:induction false} CoveredZero(test: seq<Problem>)
    ensures CoveredCount(test, {}) == 0
  {
    if test != [] {
      CoveredZero(test[..|test| - 1]);
    }
  }

  /** When the per-topic minimums of all bank topics together exceed the
      size of the test, no test of that size is valid: the constraints are
      infeasible. */
  lemma QuotasExceedSize(test: seq<Problem>, topics: set<string>, c: Constraints)
    requires |topics| * c.minTopic > |test|
    ensures !IsValidTest(test, topics, c)
  {
    if IsValidTest(test, topics, c) {
      CoveredAtLeast(test, topics, c.minTopic);
      CoveredBound(test, topics);
    }
  }

  // ---------------------------------------------------------------------
  // The validator

  /** `valid`: seeds a count of 0 for every bank topic, accumulates the
      difficulty and the per-topic counts over the test, then checks the
      difficulty range and every bank topic's count range. */
  method Valid(test: seq<Problem>, topics: set<string>, c: Constraints) returns (ok: bool)
    ensures ok == IsValidTest(test, topics, c)
  {
    var difficulty := 0;
    var topicCounts: map<string, int> := map[];
    var rest := topics;
    while rest != {}
      invariant rest <= topics
      invariant topicCounts.Keys == topics - rest
      invariant forall t :: t in topicCounts ==> topicCounts[t] == 0
      decreases rest
    {
      var t :| t in rest;
      topicCounts := topicCounts[t := 0];
      rest := rest - {t};
    }

    for i := 0 to |test|
      invariant difficulty == DifficultySum(test[..i])
      invariant topics <= topicCounts.Keys
      invariant forall t :: t in topicCounts ==> topicCounts[t] == TopicCount(test[..i], t)
      invariant forall t :: t !in topicCounts ==> TopicCount(test[..i], t) == 0
    {
      assert test[..i + 1][..i] == test[..i];
      var p := test[i];
      difficulty := difficulty + p.difficulty;
      // operator[] inserts a 0 for a topic it has not seen before
      var current := if p.topic in topicCounts then topicCounts[p.topic] else 0;
      topicCounts := topicCounts[p.topic := current + 1];
    }
    assert test[..|test|] == test;

    if difficulty < c.minDifficulty || difficulty > c.maxDifficulty {
      return false;
    }
    rest := topics;
    while rest != {}
      invariant rest <= topics
      invariant forall t :: t in topics - rest ==> c.minTopic <= TopicCount(test, t) <= c.maxTopic
      decreases rest
    {
      var t :| t in rest;
      var count := topicCounts[t];
      if count < c.minTopic || count > c.maxTopic {
        return false;
      }
      rest := rest - {t};
    }
    return true;
  }

  // ---------------------------------------------------------------------
  // The sampler

  /** The topic loop at the head of `testProblems`: the set of topics of
      the bank's problems. */
  method BankTopics(bank: seq<Problem>) returns (topics: set<string>)
    ensures topics == TopicsOf(bank)
    ensures forall i :: 0 <= i < |bank| ==> bank[i].topic in topics
  {
    topics := {};
    for i := 0 to |bank|
      invariant topics == TopicsOf(bank[..i])
    {
      assert bank[..i + 1] == bank[..i] + [bank[i]];
      topics := topics + {bank[i].topic};
    }
    assert bank[..|bank|] == bank;
  }

  /** The rejection loop of `testProblems`, run for at most `budget`
      attempts starting at attempt number `attempt`: shuffle the whole bank,
      take its first `numProblems` problems, accept them if they are valid,
      otherwise retry from the shuffled bank. */
  function Search(bank: seq<Problem>, topics: set<string>, c: Constraints,
                  coins: (nat, nat) -> nat, attempt: nat, budget: nat): Outcome
    requires 0 <= c.numProblems <= |bank|
    decreases budget
  {
    if budget == 0 then Exhausted
    else
      var shuffled := Shuffled(bank, coins, attempt, |bank|);
      var candidate := shuffled[..c.numProblems];
      if IsValidTest(candidate, topics, c) then Chosen(candidate)
      else Search(shuffled, topics, c, coins, attempt + 1, budget - 1)
  }

  /** A prefix of a sequence is drawn from it without replacement. */
  lemma PrefixSubMultiset<T>(s: seq<T>, n: nat)
    requires n <= |s|
    ensures multiset(s[..n]) <= multiset(s)
  {
    assert s == s[..n] + s[n..];
  }

  /** Whatever the draws and the budget, an accepted test has the demanded
      size, is drawn from the bank without replacement (a sub-multiset of
      it), and is valid against the given topics. */
  lemma {:induction false} SearchSound(bank: seq<Problem>, topics: set<string>, c: Constraints,
                                       coins: (nat, nat) -> nat, attempt: nat, budget: nat)
    requires 0 <= c.numProblems <= |bank|
    ensures var r := Search(bank, topics, c, coins, attempt, budget);
      r.Chosen? ==> |r.test| == c.numProblems && multiset(r.test) <= multiset(bank) && IsValidTest(r.test, topics, c)
    decreases budget
  {
    if budget > 0 {
      var shuffled := Shuffled(bank, coins, attempt, |bank|);
      var candidate := shuffled[..c.numProblems];
      ShuffledPermutation(bank, coins, attempt, |bank|);
      if IsValidTest(candidate, topics, c) {
        PrefixSubMultiset(shuffled, c.numProblems);
      } else {
        SearchSound(shuffled, topics, c, coins, attempt + 1, budget - 1);
      }
    }
  }

  /** Once the sampler has accepted a test, more attempts change nothing:
      every budget large enough returns that same test, which is the test the
      unbounded loop of the source returns. */
  lemma {:induction false} SearchBudgetStable(bank: seq<Problem>, topics: set<string>, c: Constraints,
                                              coins: (nat, nat) -> nat, attempt: nat, budget: nat, more: nat)
    requires 0 <= c.numProblems <= |bank|
    requires Search(bank, topics, c, coins, attempt, budget).Chosen?
    requires budget <= more
    ensures Search(bank, topics, c, coins, attempt, more) == Search(bank, topics, c, coins, attempt, budget)
    decreases budget
  {
    assert budget > 0;
    var shuffled := Shuffled(bank, coins, attempt, |bank|);
    var accepted := IsValidTest(shuffled[..c.numProblems], topics, c);
    if !accepted {
      SearchBudgetStable(shuffled, topics, c, coins, attempt + 1, budget - 1, more - 1);
    }
  }

  /** When the per-topic minimums of all bank topics together exceed the
      test size, the sampler never accepts, whatever the budget and the
      random draws. */
  lemma InfeasibleQuotasExhaust(bank: seq<Problem>, c: Constraints, coins: (nat, nat) -> nat, budget: nat)
    requires 0 <= c.numProblems <= |bank|
    requires |TopicsOf(bank)| * c.minTopic > c.numProblems
    ensures Search(bank, TopicsOf(bank), c, coins, 0, budget) == Exhausted
  {
    var r := Search(bank, TopicsOf(bank), c, coins, 0, budget);
    SearchSound(bank, TopicsOf(bank), c, coins, 0, budget);
    if r.Chosen? {
      QuotasExceedSize(r.test, TopicsOf(bank), c);
    }
  }

  /** One attempt of the sampler: `Search` unfolded once. A proof helper
      for the loop of `TestProblems`; stating the step as a separate lemma
      keeps that loop's verification cost down. */
  lemma SearchStep(bank: seq<Problem>, topics: set<string>, c: Constraints,
                   coins: (nat, nat) -> nat, attempt: nat, budget: nat,
                   shuffled: seq<Problem>, ok: bool)
    requires 0 <= c.numProblems <= |bank| && budget > 0
    requires shuffled == Shuffled(bank, coins, attempt, |bank|)
    requires ok == IsValidTest(shuffled[..c.numProblems], topics, c)
    ensures Search(bank, topics, c, coins, attempt, budget)
         == if ok then Chosen(shuffled[..c.numProblems])
            else Search(shuffled, topics, c, coins, attempt + 1, budget - 1)
  {
  }

  /** `testProblems`: collects the bank topics, copies the bank (it is passed
      by value), and then shuffles the copy in place and validates its prefix
      until a valid test is found or the attempt budget is spent. */
  method TestProblems(bank: seq<Problem>, c: Constraints, coins: (nat, nat) -> nat, budget: nat)
    returns (r: Outcome)
    requires 0 <= c.numProblems <= |bank|
    ensures r == Search(bank, TopicsOf(bank), c, coins, 0, budget)
    ensures r.Chosen? ==> |r.test| == c.numProblems && multiset(r.test) <= multiset(bank)
    ensures r.Chosen? ==> IsValidTest(r.test, TopicsOf(bank), c)
  {
    var topics := BankTopics(bank);
    var a := new Problem[|bank|](i requires 0 <= i < |bank| => bank[i]);
    assert a[..] == bank;
    var attempt := 0;
    while attempt < budget
      invariant attempt <= budget
      invariant a.Length == |bank|
      invariant Search(a[..], topics, c, coins, attempt, budget - attempt) == Search(bank, topics, c, coins, 0, budget)
    {
      ghost var before := a[..];
      Shuffle(a, coins, attempt);
      var candidate := a[..c.numProblems];
      var ok := Valid(candidate, topics, c);
      SearchStep(before, topics, c, coins, attempt, budget - attempt, a[..], ok);
      if ok {
        r := Chosen(candidate);
        SearchSound(bank, topics, c, coins, 0, budget);
        return;
      }
      attempt := attempt + 1;
    }
    r := Exhausted;
    SearchSound(bank, topics, c, coins, 0, budget);
  }
}
