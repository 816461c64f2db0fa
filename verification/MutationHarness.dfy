/** The mutation harnesses: break one file, run the guard that should notice, restore, count what was
    not noticed. Files, guards and commands go by numbers; a guard's verdict depends on the tree. */
module MutationHarness {
  import opened LineEnds

  type File = nat
  type Tree = map<File, Text>

  /** A command exits with success, or not. */
  type Passes = (nat, Tree) -> bool

  datatype Mutation = Mutation(file: File, guard: nat, command: nat, from: Text, to: Text)

  datatype Outcome = Aborted | Finished(failures: nat)

  // -- One mutation -------------------------------------------------------------------------------

  /** What is written over the file. */
  function Written(original: Text, m: Mutation, replacer: Replacer): Text
    requires Includes(Normalize(original), m.from)
  {
    var mutated := ReplaceBy(Normalize(original), m.from, m.to, replacer);
    if HasCrlf(original) then Denormalize(mutated) else mutated
  }

  /** The anchor is there and, in the harness that expands patterns, the replacement changes something;
      the other one does not check that. */
  predicate Applies(tree: Tree, m: Mutation, replacer: Replacer)
    requires m.file in tree
  {
    var normalized := Normalize(tree[m.file]);
    Includes(normalized, m.from) && (replacer.Expanding? ==> ReplaceBy(normalized, m.from, m.to, replacer) != normalized)
  }

  function Mutant(tree: Tree, m: Mutation, replacer: Replacer): Tree
    requires m.file in tree && Includes(Normalize(tree[m.file]), m.from)
  {
    tree[m.file := Written(tree[m.file], m, replacer)]
  }

  /** Applied, and the guard went red on the tree with that one file changed. */
  predicate Killed(tree: Tree, m: Mutation, passes: Passes, replacer: Replacer)
    requires m.file in tree
  {
    Applies(tree, m, replacer) && !passes(m.command, Mutant(tree, m, replacer))
  }

  predicate Known(tree: Tree, mutations: seq<Mutation>) {
    forall i :: 0 <= i < |mutations| ==> mutations[i].file in tree
  }

  /** Which mutations are killed. */
  function Verdicts(tree: Tree, mutations: seq<Mutation>, passes: Passes, replacer: Replacer): (r: seq<bool>)
    requires Known(tree, mutations)
    ensures |r| == |mutations|
    ensures forall i :: 0 <= i < |r| ==> r[i] == Killed(tree, mutations[i], passes, replacer)
  {
    seq(|mutations|, i requires 0 <= i < |mutations| => Killed(tree, mutations[i], passes, replacer))
  }

  /** How many of the first n are false. */
  function Misses(verdicts: seq<bool>, n: nat): nat
    requires n <= |verdicts|
  {
    if n == 0 then 0 else Misses(verdicts, n - 1) + if verdicts[n - 1] then 0 else 1
  }

  // -- The baseline -----------------------------------------------------------------------------------

  /** The command run for a guard beforehand: that of the last mutation naming the guard. */
  function LastCommand(mutations: seq<Mutation>, n: nat, guard: nat): nat
    requires n <= |mutations| && exists i :: 0 <= i < n && mutations[i].guard == guard
    decreases n
  {
    if mutations[n - 1].guard == guard then mutations[n - 1].command else LastCommand(mutations, n - 1, guard)
  }

  predicate BaselineGreen(tree: Tree, mutations: seq<Mutation>, passes: Passes) {
    forall i :: 0 <= i < |mutations| ==> passes(LastCommand(mutations, |mutations|, mutations[i].guard), tree)
  }

  /** A guard name stands for one command. */
  predicate OneCommandPerGuard(mutations: seq<Mutation>) {
    forall i, j :: 0 <= i < |mutations| && 0 <= j < |mutations| && mutations[i].guard == mutations[j].guard
      ==> mutations[i].command == mutations[j].command
  }

  lemma {:induction false} LastCommandIsSome(mutations: seq<Mutation>, n: nat, guard: nat)
    requires n <= |mutations| && exists i :: 0 <= i < n && mutations[i].guard == guard
    ensures exists i :: 0 <= i < n && mutations[i].guard == guard && mutations[i].command == LastCommand(mutations, n, guard)
    decreases n
  {
    if mutations[n - 1].guard != guard {
      LastCommandIsSome(mutations, n - 1, guard);
    }
  }

  /** Then a green baseline means that every command a mutation runs is green on the original tree. */
  lemma {:induction false} BaselineCoversCommands(tree: Tree, mutations: seq<Mutation>, passes: Passes, k: nat)
    requires OneCommandPerGuard(mutations) && BaselineGreen(tree, mutations, passes) && k < |mutations|
    ensures passes(mutations[k].command, tree)
  {
    LastCommandIsSome(mutations, |mutations|, mutations[k].guard);
  }

  // -- What a run establishes ---------------------------------------------------------------------------

  lemma {:induction false} NoMissIff(verdicts: seq<bool>, n: nat)
    requires n <= |verdicts|
    ensures Misses(verdicts, n) == 0 <==> forall i :: 0 <= i < n ==> verdicts[i]
    decreases n
  {
    if n > 0 {
      NoMissIff(verdicts, n - 1);
    }
  }

  /** The mutations among the first n that were not killed. */
  function Survivors(verdicts: seq<bool>, n: nat): set<nat>
    requires n <= |verdicts|
  {
    set i: nat | i < n && !verdicts[i]
  }

  /** The count is the number of mutations that were not killed, each counted once. */
  lemma {:induction false} MissesAreSurvivors(verdicts: seq<bool>, n: nat)
    requires n <= |verdicts|
    ensures Misses(verdicts, n) == |Survivors(verdicts, n)|
    decreases n
  {
    if n > 0 {
      MissesAreSurvivors(verdicts, n - 1);
      var before, k := Survivors(verdicts, n - 1), n - 1;
      assert Survivors(verdicts, n) == if verdicts[k] then before else before + {k};
    }
  }

  /** A run reports no failure exactly when every anchor applied and every guard went red. */
  lemma {:induction false} NoFailureIff(tree: Tree, mutations: seq<Mutation>, passes: Passes, replacer: Replacer)
    requires Known(tree, mutations)
    ensures Misses(Verdicts(tree, mutations, passes, replacer), |mutations|) == 0
       <==> forall i :: 0 <= i < |mutations| ==> Killed(tree, mutations[i], passes, replacer)
  {
    NoMissIff(Verdicts(tree, mutations, passes, replacer), |mutations|);
  }

  /** A killed mutation really is one: after a green baseline the guard went red because of a file that
      differs from the original, and no other file does. */
  lemma {:induction false} KilledMeansNoticed(
    tree: Tree, mutations: seq<Mutation>, passes: Passes, replacer: Replacer, k: nat)
    requires Known(tree, mutations) && OneCommandPerGuard(mutations) && BaselineGreen(tree, mutations, passes)
    requires k < |mutations| && Killed(tree, mutations[k], passes, replacer)
    ensures var m := mutations[k];
            var mutant := Mutant(tree, m, replacer);
            && passes(m.command, tree) && !passes(m.command, mutant)
            && mutant[m.file] != tree[m.file]
            && forall f :: f in tree && f != m.file ==> mutant[f] == tree[f]
  {
    var m := mutations[k];
    BaselineCoversCommands(tree, mutations, passes, k);
    assert tree[m.file := tree[m.file]] == tree;
  }

  /** A text in the line ends of the file. */
  function InEndsOf(original: Text, s: Text): Text {
    if HasCrlf(original) then Denormalize(s) else s
  }

  lemma {:induction false} EndsAppend(original: Text, a: Text, b: Text, c: Text)
    ensures InEndsOf(original, a + b + c) == InEndsOf(original, a) + InEndsOf(original, b) + InEndsOf(original, c)
  {
    DenormalizeAppends(a + b, c);
    DenormalizeAppends(a, b);
  }

  lemma {:induction false} EndsOfNormalized(original: Text)
    requires HasCrlf(original) ==> EveryLfAfterCr(original)
    ensures InEndsOf(original, Normalize(original)) == original
  {
    RoundTripIff(original);
    if !HasCrlf(original) {
      NormalizeKeepsPlain(original);
    }
  }

  function BeforeAnchor(s: Text, anchor: Text): Text
    requires Includes(s, anchor)
  {
    s[..IndexFrom(s, anchor, 0)]
  }

  function AfterAnchor(s: Text, anchor: Text): Text
    requires Includes(s, anchor)
  {
    s[IndexFrom(s, anchor, 0) + |anchor|..]
  }

  lemma {:induction false} AnchorSplits(s: Text, anchor: Text, other: Text)
    requires Includes(s, anchor)
    ensures s == BeforeAnchor(s, anchor) + anchor + AfterAnchor(s, anchor)
    ensures Replace(s, anchor, other) == BeforeAnchor(s, anchor) + other + AfterAnchor(s, anchor)
  {
    var i := IndexFrom(s, anchor, 0);
    assert s == s[..i] + s[i..i + |anchor|] + s[i + |anchor|..];
  }

  /** In a file with one kind of line end the mutant differs from the original in the anchor alone. */
  lemma {:induction false} MutantDiffersInAnchor(original: Text, m: Mutation, replacer: Replacer)
    requires Includes(Normalize(original), m.from)
    requires HasCrlf(original) ==> EveryLfAfterCr(original)
    ensures var a, b := BeforeAnchor(Normalize(original), m.from), AfterAnchor(Normalize(original), m.from);
            && original == InEndsOf(original, a) + InEndsOf(original, m.from) + InEndsOf(original, b)
            && Written(original, m, replacer)
               == InEndsOf(original, a)
                  + InEndsOf(original, Replacement(Normalize(original), m.from, m.to, replacer)) + InEndsOf(original, b)
    ensures replacer.Literal? || '$' !in m.to ==> Replacement(Normalize(original), m.from, m.to, replacer) == m.to
    ensures replacer.Expanding? ==>
              var a, b := BeforeAnchor(Normalize(original), m.from), AfterAnchor(Normalize(original), m.from);
              Replacement(Normalize(original), m.from, m.to, replacer) == Expand(m.to, a, m.from, b)
  {
    if '$' !in m.to {
      PlainTextIsLiteral(m.to, BeforeAnchor(Normalize(original), m.from), m.from, AfterAnchor(Normalize(original), m.from));
    }
    var s := Normalize(original);
    var to := Replacement(s, m.from, m.to, replacer);
    AnchorSplits(s, m.from, to);
    EndsOfNormalized(original);
    EndsAppend(original, BeforeAnchor(s, m.from), m.from, AfterAnchor(s, m.from));
    EndsAppend(original, BeforeAnchor(s, m.from), to, AfterAnchor(s, m.from));
  }

  /** The text with its anchor, and nothing else, replaced. */
  function WithAnchorReplaced(s: Text, m: Mutation, replacer: Replacer): Text
    requires Includes(s, m.from)
  {
    BeforeAnchor(s, m.from) + Replacement(s, m.from, m.to, replacer) + AfterAnchor(s, m.from)
  }

  lemma {:induction false} WrittenIs(original: Text, m: Mutation, replacer: Replacer)
    requires Includes(Normalize(original), m.from)
    ensures Written(original, m, replacer) == InEndsOf(original, WithAnchorReplaced(Normalize(original), m, replacer))
  {
    var s := Normalize(original);
    AnchorSplits(s, m.from, Replacement(s, m.from, m.to, replacer));
  }

  /** A mutation is killed exactly when its anchor is in the file, what replaces the anchor differs from it
      (where that is checked) and the guard fails on the tree with that one file so changed. */
  lemma {:induction false} KilledIff(tree: Tree, m: Mutation, passes: Passes, replacer: Replacer)
    requires m.file in tree
    ensures Killed(tree, m, passes, replacer)
       <==> && Includes(Normalize(tree[m.file]), m.from)
            && var s := Normalize(tree[m.file]);
               && (replacer.Literal? || Replacement(s, m.from, m.to, replacer) != m.from)
               && var text := InEndsOf(tree[m.file], WithAnchorReplaced(s, m, replacer));
                  !passes(m.command, tree[m.file := text])
  {
    if Includes(Normalize(tree[m.file]), m.from) {
      ReplaceDiffersIff(Normalize(tree[m.file]), m.from, m.to, replacer);
      WrittenIs(tree[m.file], m, replacer);
    }
  }

  /** The file written for a mutation without effect is the original exactly when the file is free of
      CRLF or ends all its lines with it. So with mixed line ends a guard can go red over a mutation
      that changes nothing, in the harness that does not refuse those. */
  lemma {:induction false} NoOpLeavesFileIff(original: Text, m: Mutation, replacer: Replacer)
    requires Includes(Normalize(original), m.from)
    requires Replacement(Normalize(original), m.from, m.to, replacer) == m.from
    ensures Written(original, m, replacer) == original <==> !HasCrlf(original) || EveryLfAfterCr(original)
  {
    ReplaceSame(Normalize(original), m.from);
    RoundTripIff(original);
    if !HasCrlf(original) {
      NormalizeKeepsPlain(original);
    }
  }

  /** The harness that checks for it never counts a mutation without effect as killed. */
  lemma {:induction false} NoOpsAreRefused(tree: Tree, m: Mutation, passes: Passes)
    requires m.file in tree && Includes(Normalize(tree[m.file]), m.from)
    requires Replacement(Normalize(tree[m.file]), m.from, m.to, Expanding) == m.from
    ensures !Killed(tree, m, passes, Expanding)
  {
    ReplaceDiffersIff(Normalize(tree[m.file]), m.from, m.to, Expanding);
  }

  // -- The loop ----------------------------------------------------------------------------------------------

  class Harness {
    var tree: Tree

    constructor (tree: Tree)
      ensures this.tree == tree
    {
      this.tree := tree;
    }

    /** Writes every original back. */
    method Restore(originals: Tree)
      requires originals.Keys <= tree.Keys
      modifies this
      ensures tree.Keys == old(tree).Keys
      ensures forall f :: f in tree ==> tree[f] == if f in originals then originals[f] else old(tree)[f]
    {
      var rest := originals.Keys;
      while rest != {}
        invariant rest <= originals.Keys && tree.Keys == old(tree).Keys
        invariant forall f :: f in tree ==> tree[f] == if f in originals && f !in rest then originals[f] else old(tree)[f]
        decreases |rest|
      {
        var f :| f in rest;
        tree := tree[f := originals[f]];
        rest := rest - {f};
      }
    }

    method ReadOriginals(mutations: seq<Mutation>) returns (originals: Tree)
      requires Known(tree, mutations)
      ensures originals.Keys <= tree.Keys && forall f :: f in originals ==> originals[f] == tree[f]
      ensures forall i :: 0 <= i < |mutations| ==> mutations[i].file in originals
    {
      originals := map[];
      for i := 0 to |mutations|
        invariant originals.Keys <= tree.Keys && forall f :: f in originals ==> originals[f] == tree[f]
        invariant forall j :: 0 <= j < i ==> mutations[j].file in originals
      {
        originals := originals[mutations[i].file := tree[mutations[i].file]];
      }
    }

    method Baseline(mutations: seq<Mutation>, passes: Passes) returns (green: bool)
      ensures green <==> BaselineGreen(tree, mutations, passes)
    {
      green := true;
      for i := 0 to |mutations|
        invariant green <==> forall k :: 0 <= k < i ==> passes(LastCommand(mutations, |mutations|, mutations[k].guard), tree)
      {
        if !passes(LastCommand(mutations, |mutations|, mutations[i].guard), tree) {
          green := false;
        }
      }
    }

    /** One turn of the loop: mutate, judge, restore. */
    method Judge(m: Mutation, originals: Tree, passes: Passes, replacer: Replacer) returns (killed: bool)
      requires m.file in originals && originals.Keys <= tree.Keys
      requires forall f :: f in originals ==> originals[f] == tree[f]
      modifies this
      ensures tree == old(tree)
      ensures killed == Killed(old(tree), m, passes, replacer)
    {
      var original := originals[m.file];
      var normalized := Normalize(original);
      if !Includes(normalized, m.from) {
        return false;
      }
      if replacer.Expanding? && ReplaceBy(normalized, m.from, m.to, replacer) == normalized {
        return false;
      }
      tree := tree[m.file := Written(original, m, replacer)];
      killed := !passes(m.command, tree);
      Restore(originals);
      assert tree == old(tree);
    }

    /** Returns how many mutations were not killed, and leaves every file as it was. Red guards
        beforehand abort the run before anything is written. */
    method Run(mutations: seq<Mutation>, passes: Passes, replacer: Replacer) returns (outcome: Outcome)
      requires Known(tree, mutations)
      modifies this
      ensures tree == old(tree)
      ensures outcome.Aborted? <==> !BaselineGreen(tree, mutations, passes)
      ensures outcome.Finished? ==>
                outcome.failures == Misses(Verdicts(tree, mutations, passes, replacer), |mutations|)
    {
      var green := Baseline(mutations, passes);
      if !green {
        return Aborted;
      }
      var originals := ReadOriginals(mutations);
      var failures: nat := 0;
      for i := 0 to |mutations|
        invariant tree == old(tree)
        invariant failures == Misses(Verdicts(tree, mutations, passes, replacer), i)
      {
        var killed := Judge(mutations[i], originals, passes, replacer);
        if !killed {
          failures := failures + 1;
        }
      }
      Restore(originals);
      assert tree == old(tree);
      return Finished(failures);
    }
  }
}
