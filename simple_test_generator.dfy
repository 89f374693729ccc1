/** The generator that writes the "simple" test. The C++ program carries
    its own copy of the selection code; this module binds that program's
    constants and reuses the shared `Selection` model. */
module SimpleTestGenerator {
  import opened Problems
  import opened Selection

  /** The constants of this program: 20 problems, 3 to 7 per bank topic,
      total difficulty 65 to 75. */
  const Config := Constraints(20, 3, 7, 65, 75)

  /** `valid` of this program, with its own constants. */
  method Valid(test: seq<Problem>, topics: set<string>) returns (ok: bool)
    ensures ok <==> && 65 <= DifficultySum(test) <= 75
                    && forall t :: t in topics ==> 3 <= TopicCount(test, t) <= 7
  {
    ok := Selection.Valid(test, topics, Config);
  }

  /** `testProblems` of this program, run for at most `budget` attempts. */
  method TestProblems(bank: seq<Problem>, coins: (nat, nat) -> nat, budget: nat) returns (r: Outcome)
    requires 20 <= |bank|
    ensures r == Search(bank, TopicsOf(bank), Config, coins, 0, budget)
    ensures r.Chosen? ==> |r.test| == 20 && multiset(r.test) <= multiset(bank)
    ensures r.Chosen? ==> && 65 <= DifficultySum(r.test) <= 75
                          && forall t :: t in TopicsOf(bank) ==> 3 <= TopicCount(r.test, t) <= 7
  {
    r := Selection.TestProblems(bank, Config, coins, budget);
  }
}
