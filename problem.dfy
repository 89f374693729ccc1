/** The problem record that both test generators draw their tests from. */
module Problems {

  /** One problem of the bank: a topic label, an integer difficulty weight,
      and the question and answer text. Records are never changed once read. */
  datatype Problem = Problem(topic: string, difficulty: int, question: string, answer: string)

  /** The set of distinct topics among a sequence of problems. */
  function TopicsOf(problems: seq<Problem>): set<string>
  {
    set p | p in problems :: p.topic
  }
}
