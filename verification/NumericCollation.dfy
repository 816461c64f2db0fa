/** A text order in which a run of digits counts by its value: the `numeric` option of a collator,
    ignoring the case of ASCII letters. */
module NumericCollation {
  import opened Common
  import opened Digits

  /** Every character and every run of digits gives two numbers: its class (marks, numbers, letters)
      and its place in the class. `run` is the value of the digits just read, if any. */
  function Weights(s: string, run: Option<nat>): seq<int> {
    if s != [] && Digit(s[0])
    then Weights(s[1..], Some((if run.Some? then 10 * run.value else 0) + Value(s[0])))
    else
      (if run.Some? then [1, run.value] else []) +
      (if s == [] then []
       else [if s[0] < '0' then 0 else 2, Lowered(s[0])] + Weights(s[1..], None))
  }

  function Lowered(c: char): int {
    if 'A' <= c <= 'Z' then c as int + 32 else c as int
  }

  function Lexical(a: seq<int>, b: seq<int>): int {
    if a == [] then (if b == [] then 0 else -1)
    else if b == [] then 1
    else if a[0] != b[0] then a[0] - b[0]
    else Lexical(a[1..], b[1..])
  }

  function Collate(a: string, b: string): int {
    Lexical(Weights(a, None), Weights(b, None))
  }

  lemma {:induction false} LexicalIsOpposite(a: seq<int>, b: seq<int>)
    ensures Lexical(a, b) < 0 <==> Lexical(b, a) > 0
  {
    if a != [] && b != [] {
      LexicalIsOpposite(a[1..], b[1..]);
    }
  }

  lemma {:induction false} LexicalIsTransitive(a: seq<int>, b: seq<int>, c: seq<int>)
    requires Lexical(a, b) <= 0 && Lexical(b, c) <= 0
    ensures Lexical(a, c) <= 0
  {
    if a != [] && b != [] && c != [] && a[0] == b[0] == c[0] {
      LexicalIsTransitive(a[1..], b[1..], c[1..]);
    }
  }

  lemma {:induction false} CollateIsOpposite(a: string, b: string)
    ensures Collate(a, b) < 0 <==> Collate(b, a) > 0
  {
    LexicalIsOpposite(Weights(a, None), Weights(b, None));
  }

  lemma {:induction false} CollateIsTransitive(a: string, b: string, c: string)
    requires Collate(a, b) <= 0 && Collate(b, c) <= 0
    ensures Collate(a, c) <= 0
  {
    LexicalIsTransitive(Weights(a, None), Weights(b, None), Weights(c, None));
  }

  function Signed(n: int): string {
    if n < 0 then "-" + Decimal(-n) else Decimal(n)
  }

  /** The value of a text that is all digits after an optional minus. */
  function ParsedInt(s: string): Option<int> {
    if s != [] && s[0] == '-' then Negated(ParsedNat(s[1..])) else ParsedNat(s)
  }

  function Negated(n: Option<int>): Option<int> {
    if n.None? then None else Some(-n.value)
  }

  function ParsedNat(s: string): Option<int> {
    if s == [] || !Digit(s[|s| - 1]) then None
    else if |s| == 1 then Some(Value(s[0]))
    else
      match ParsedNat(s[..|s| - 1])
      case None => None
      case Some(n) => Some(10 * n + Value(s[|s| - 1]))
  }

  /** "-3" before "-4x" before "-5", though -5 is before -3. */
  lemma {:induction false} MinusCollates()
    ensures Collate("-3", "-4x") < 0 && Collate("-4x", "-5") < 0
  {
    assert Weights("-3", None) == [0, 45, 1, 3];
    assert Weights("-4x", None) == [0, 45, 1, 4, 2, 120];
    assert Weights("-5", None) == [0, 45, 1, 5];
  }

  lemma {:induction false} MinusParses()
    ensures ParsedInt("-5") == Some(-5) && ParsedInt("-3") == Some(-3) && ParsedInt("-4x") == None
    ensures Signed(-5) == "-5" && Signed(-3) == "-3"
  {}

  lemma {:induction false} DigitsCollate()
    ensures Collate("1", "2") < 0 && Collate("2", "3") < 0 && Collate("1", "3") < 0
  {
    assert Weights("1", None) == [1, 1] && Weights("2", None) == [1, 2] && Weights("3", None) == [1, 3];
  }
}
