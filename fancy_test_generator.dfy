/** The generator that writes the "fancy" test: its constraint constants,
    its header of LaTeX commands, and its one-problem-per-half-page layout. */
module FancyTestGenerator {
  import opened Problems
  import opened Selection
  import opened StringOrder

  /** The constants of this program: 20 problems, 3 to 7 per bank topic,
      total difficulty 65 to 75. */
  const Config := Constraints(20, 3, 7, 65, 75)

  /** `valid` of this program, with its own constants. */
  method Valid(test: seq<Problem>, topics: set<string>) returns (ok: bool)
    ensures ok <==> && 65 <= DifficultySum(test) <= 75
                    && forall t :: t in topics ==> 3 <= TopicCount(test, t) <= 7
  {
    ok := Selection.Valid(test, topics, Config);
  }

  /** `testProblems` of this program, run for at most `budget` attempts. */
  method TestProblems(bank: seq<Problem>, coins: (nat, nat) -> nat, budget: nat) returns (r: Outcome)
    requires 20 <= |bank|
    ensures r == Search(bank, TopicsOf(bank), Config, coins, 0, budget)
    ensures r.Chosen? ==> |r.test| == 20 && multiset(r.test) <= multiset(bank)
    ensures r.Chosen? ==> && 65 <= DifficultySum(r.test) <= 75
                          && forall t :: t in TopicsOf(bank) ==> 3 <= TopicCount(r.test, t) <= 7
  {
    r := Selection.TestProblems(bank, Config, coins, budget);
  }

  // ---------------------------------------------------------------------
  // Layout of one problem

  const PageBreak := "\\pagebreak\n\n"
  const VerticalSpace := "\\vspace{350pt}\n\n"
  const TabularOpen := "\\item\\begin{tabular}[t]{p{5in} p{.3in} p{.8in}}\n"
  const TabularClose := "& & \\arabic{enumi}.\\hrulefill\n\\end{tabular}\n"

  /** C++'s `%` on `int`: the quotient is truncated toward zero, so the
      remainder takes the sign of the dividend. */
  function CppRemainder(a: int, b: int): (r: int)
    requires b > 0
    ensures a >= 0 ==> r == a % b
    ensures a < 0 ==> -b < r <= 0
  {
    if a >= 0 then a % b else -((-a) % b)
  }

  /** C++'s `/` on `int`: the quotient truncated toward zero. */
  function CppQuotient(a: int, b: int): int
    requires b > 0
  {
    if a >= 0 then a / b else -((-a) / b)
  }

  /** C++ guarantees `(a / b) * b + a % b == a`; with the range of
      `CppRemainder` this fixes the remainder's value for every dividend. */
  lemma CppDivisionIdentity(a: int, b: int)
    requires b > 0
    ensures a == b * CppQuotient(a, b) + CppRemainder(a, b)
  {
    if a < 0 {
      assert -a == b * ((-a) / b) + (-a) % b;
    }
  }

  /** `FancyLayout::format`: a page break before an odd-numbered problem and
      a vertical space before any other, then the tabular opener, the
      question verbatim and the closer. Because `%` truncates, a negative
      odd number gets the vertical space. */
  method Format(p: Problem, number: int) returns (out: string)
    ensures number > 0 && number % 2 == 1 ==> out == PageBreak + TabularOpen + p.question + TabularClose
    ensures !(number > 0 && number % 2 == 1) ==> out == VerticalSpace + TabularOpen + p.question + TabularClose
  {
    if CppRemainder(number, 2) == 1 {
      out := PageBreak;
    } else {
      out := VerticalSpace;
    }
    out := out + TabularOpen;
    out := out + p.question;
    out := out + TabularClose;
  }

  // ---------------------------------------------------------------------
  // The header

  /** One `\input` line. */
  function InputLine(file: string): string
  {
    "\\input{" + file + "}\n"
  }

  /** One `\newcommand` line defining `\name` as `value`. */
  function CommandLine(name: string, value: string): string
  {
    "\\newcommand{\\" + name + "}{" + value + "}\n"
  }

  /** The command lines for `keys`, in the order given. */
  function CommandLines(keys: seq<string>, commands: map<string, string>): string
    requires forall j :: 0 <= j < |keys| ==> keys[j] in commands
  {
    if keys == [] then "" else CommandLine(keys[0], commands[keys[0]]) + CommandLines(keys[1..], commands)
  }

  /** Regrouping a concatenation of three strings; kept as a lemma so that
      the loop in `Header.Write` sees only this one instance. */
  lemma AppendAssociative(a: string, b: string, c: string)
    ensures (a + b) + c == a + (b + c)
  {
  }

  /** Rendering the keys in ascending order starts with the smallest key. */
  lemma CommandLinesStep(keys: set<string>, k: string, commands: map<string, string>)
    requires keys <= commands.Keys && IsLeast(k, keys)
    ensures CommandLines(SortedKeys(keys), commands)
         == CommandLine(k, commands[k]) + CommandLines(SortedKeys(keys - {k}), commands)
  {
    SortedKeysHead(keys, k);
    var later := SortedKeys(keys - {k});
    assert ([k] + later)[1..] == later;
  }

  /** The LaTeX header of the test: an `\input` of the style file, one
      `\newcommand` per configured command, and an `\input` of the content
      file. */
  class Header {
    var texFile: string
    var contentFile: string
    var commands: map<string, string>

    constructor (tex: string, content: string)
      ensures texFile == tex && contentFile == content && commands == map[]
    {
      texFile := tex;
      contentFile := content;
      commands := map[];
    }

    /** `commands[key] = val`: the last value written for a key wins, and
        every other key keeps its value. */
    method AddCommand(key: string, val: string)
      modifies this
      ensures commands == old(commands)[key := val]
      ensures key in commands && commands[key] == val
      ensures forall k :: k != key ==> (k in commands <==> k in old(commands))
      ensures forall k :: k != key && k in commands ==> commands[k] == old(commands)[k]
      ensures texFile == old(texFile) && contentFile == old(contentFile)
    {
      commands := commands[key := val];
    }

    /** `write`, rendered as a string: the `\input` of the style file, the
        commands in ascending key order (the order of `std::map`), then the
        `\input` of the content file. */
    method Write() returns (out: string)
      ensures out == InputLine(texFile) + CommandLines(SortedKeys(commands.Keys), commands) + InputLine(contentFile)
    {
      ghost var body := CommandLines(SortedKeys(commands.Keys), commands);
      out := InputLine(texFile);
      var rest := commands.Keys;
      while rest != {}
        invariant rest <= commands.Keys
        invariant out + CommandLines(SortedKeys(rest), commands) == InputLine(texFile) + body
        decreases |rest|
      {
        LeastExists(rest);
        var k :| k in rest && IsLeast(k, rest);
        CommandLinesStep(rest, k, commands);
        var line := CommandLine(k, commands[k]);
        AppendAssociative(out, line, CommandLines(SortedKeys(rest - {k}), commands));
        out := out + line;
        rest := rest - {k};
      }
      assert out + "" == out;
      out := out + InputLine(contentFile);
    }
  }
}
