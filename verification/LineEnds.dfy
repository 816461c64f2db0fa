/** Line ends and replacement, as the mutation harnesses handle file texts. */
module LineEnds {

  type Text = seq<char>

  predicate HasCrlf(s: Text) {
    exists i :: 0 <= i < |s| - 1 && s[i] == '\r' && s[i + 1] == '\n'
  }

  /** `split('\r\n').join('\n')` */
  function Normalize(s: Text): Text {
    if s == [] then []
    else if |s| > 1 && s[0] == '\r' && s[1] == '\n' then ['\n'] + Normalize(s[2..])
    else [s[0]] + Normalize(s[1..])
  }

  /** `split('\n').join('\r\n')` */
  function Denormalize(s: Text): Text {
    if s == [] then []
    else WithCr(s[0]) + Denormalize(s[1..])
  }

  function WithCr(c: char): Text {
    if c == '\n' then ['\r', '\n'] else [c]
  }

  predicate EveryLfAfterCr(s: Text) {
    forall i :: 0 <= i < |s| && s[i] == '\n' ==> i > 0 && s[i - 1] == '\r'
  }

  lemma {:induction false} LfTail(s: Text, k: nat)
    requires k <= |s| && EveryLfAfterCr(s) && (k < |s| ==> s[k] != '\n')
    ensures EveryLfAfterCr(s[k..])
  {
    var t := s[k..];
    forall i | 0 <= i < |t| && t[i] == '\n' ensures i > 0 && t[i - 1] == '\r' {
      assert s[k + i] == '\n';
    }
  }

  lemma {:induction false} RoundTripHolds(s: Text)
    requires EveryLfAfterCr(s)
    ensures Denormalize(Normalize(s)) == s
    decreases |s|
  {
    if s != [] {
      assert s[0] != '\n';
      if |s| > 1 && s[0] == '\r' && s[1] == '\n' {
        LfTail(s, 2);
        RoundTripHolds(s[2..]);
        assert s == ['\r', '\n'] + s[2..];
      } else {
        LfTail(s, 1);
        RoundTripHolds(s[1..]);
        assert s == [s[0]] + s[1..];
      }
    }
  }

  lemma {:induction false} DenormalizedLf(s: Text)
    ensures EveryLfAfterCr(Denormalize(s))
    decreases |s|
  {
    if s != [] {
      DenormalizedLf(s[1..]);
      var head, tail := if s[0] == '\n' then ['\r', '\n'] else [s[0]], Denormalize(s[1..]);
      forall i | 0 <= i < |head + tail| && (head + tail)[i] == '\n'
        ensures i > 0 && (head + tail)[i - 1] == '\r'
      {
        assert i >= |head| ==> tail[i - |head|] == '\n';
      }
    }
  }

  /** Normalising and denormalising gives the text back exactly when every LF follows a CR. */
  lemma {:induction false} RoundTripIff(s: Text)
    ensures Denormalize(Normalize(s)) == s <==> EveryLfAfterCr(s)
  {
    if EveryLfAfterCr(s) {
      RoundTripHolds(s);
    }
    DenormalizedLf(Normalize(s));
  }

  lemma {:induction false} NormalizeKeepsPlain(s: Text)
    requires !HasCrlf(s)
    ensures Normalize(s) == s
    decreases |s|
  {
    if s != [] {
      forall i | 0 <= i < |s[1..]| - 1 ensures !(s[1..][i] == '\r' && s[1..][i + 1] == '\n') {
        assert s[1..][i] == s[i + 1] && s[1..][i + 1] == s[i + 2];
      }
      NormalizeKeepsPlain(s[1..]);
      assert |s| > 1 ==> !(s[0] == '\r' && s[0 + 1] == '\n');
    }
  }

  lemma {:induction false} NormalizeShortens(s: Text)
    ensures |Normalize(s)| <= |s|
    ensures HasCrlf(s) ==> |Normalize(s)| < |s|
    decreases |s|
  {
    if s != [] {
      if |s| > 1 && s[0] == '\r' && s[1] == '\n' {
        NormalizeShortens(s[2..]);
      } else {
        NormalizeShortens(s[1..]);
        if HasCrlf(s) {
          var i :| 0 <= i < |s| - 1 && s[i] == '\r' && s[i + 1] == '\n';
          assert i > 0 && s[1..][i - 1] == '\r' && s[1..][i - 1 + 1] == '\n';
        }
      }
    }
  }

  /** A text has a CRLF exactly when normalising changes it. */
  lemma {:induction false} HasCrlfIff(s: Text)
    ensures HasCrlf(s) <==> Normalize(s) != s
  {
    NormalizeShortens(s);
    if !HasCrlf(s) {
      NormalizeKeepsPlain(s);
    }
  }

  lemma {:induction false} DenormalizeAppends(a: Text, b: Text)
    ensures Denormalize(a + b) == Denormalize(a) + Denormalize(b)
    decreases |a|
  {
    if a == [] {
      assert a + b == b;
    } else {
      DenormalizeAppends(a[1..], b);
      assert (a + b)[1..] == a[1..] + b && (a + b)[0] == a[0];
      assert Denormalize(a + b) == WithCr(a[0]) + (Denormalize(a[1..]) + Denormalize(b));
    }
  }

  // -- Replacement ------------------------------------------------------------------------------

  predicate At(s: Text, part: Text, i: nat) {
    i + |part| <= |s| && s[i..i + |part|] == part
  }

  predicate Includes(s: Text, part: Text) {
    exists i :: 0 <= i <= |s| && At(s, part, i)
  }

  /** The first place where the part occurs. */
  function IndexFrom(s: Text, part: Text, from: nat): (i: nat)
    requires from <= |s| && exists i :: from <= i <= |s| && At(s, part, i)
    ensures from <= i <= |s| && At(s, part, i)
    ensures forall j :: from <= j < i ==> !At(s, part, j)
    decreases |s| - from
  {
    if At(s, part, from) then from else IndexFrom(s, part, from + 1)
  }

  /** The first occurrence replaced, the replacement taken literally. */
  function Replace(s: Text, part: Text, other: Text): Text
    requires Includes(s, part)
  {
    var i := IndexFrom(s, part, 0);
    s[..i] + other + s[i + |part|..]
  }

  lemma {:induction false} ReplaceSame(s: Text, part: Text)
    requires Includes(s, part)
    ensures Replace(s, part, part) == s
  {
    var i := IndexFrom(s, part, 0);
    assert s == s[..i] + s[i..i + |part|] + s[i + |part|..];
  }

  lemma {:induction false} OccursAt(a: Text, part: Text, b: Text)
    ensures At(a + part + b, part, |a|)
  {
    assert (a + part + b)[|a|..|a| + |part|] == part;
  }

  /** A text includes a part exactly when it can be split around it. */
  lemma {:induction false} IncludesIff(s: Text, part: Text)
    ensures Includes(s, part) <==> exists a, b :: s == a + part + b
  {
    if Includes(s, part) {
      var i := IndexFrom(s, part, 0);
      assert s == s[..i] + part + s[i + |part|..];
    }
    if a, b :| s == a + part + b {
      OccursAt(a, part, b);
    }
  }

  /** What is replaced is the first occurrence: no other split has a shorter front. */
  lemma {:induction false} ReplacesFirst(s: Text, part: Text, other: Text) returns (a: Text, b: Text)
    requires Includes(s, part)
    ensures s == a + part + b && Replace(s, part, other) == a + other + b
    ensures forall c, d :: s == c + part + d ==> |a| <= |c|
  {
    var i := IndexFrom(s, part, 0);
    a, b := s[..i], s[i + |part|..];
    assert s == a + part + b;
    forall c, d | s == c + part + d ensures |a| <= |c| {
      OccursAt(c, part, d);
    }
  }

  /** How a harness hands the replacement to `replace`: as a string, in which `$` patterns are
      expanded, or as a function that returns the text as it is. */
  datatype Replacer = Expanding | Literal

  /** `$$`, `$&`, `` $` `` and `$'`; without capture groups any other `$` stands for itself. */
  function Expand(to: Text, before: Text, matched: Text, after: Text): Text {
    if to == [] then []
    else if |to| > 1 && to[0] == '$' && to[1] == '$' then ['$'] + Expand(to[2..], before, matched, after)
    else if |to| > 1 && to[0] == '$' && to[1] == '&' then matched + Expand(to[2..], before, matched, after)
    else if |to| > 1 && to[0] == '$' && to[1] == '`' then before + Expand(to[2..], before, matched, after)
    else if |to| > 1 && to[0] == '$' && to[1] == '\'' then after + Expand(to[2..], before, matched, after)
    else [to[0]] + Expand(to[1..], before, matched, after)
  }

  /** What comes in the place of the first occurrence of the part. */
  function Replacement(s: Text, part: Text, to: Text, replacer: Replacer): Text
    requires Includes(s, part)
  {
    var i := IndexFrom(s, part, 0);
    if replacer.Literal? then to else Expand(to, s[..i], part, s[i + |part|..])
  }

  function ReplaceBy(s: Text, part: Text, to: Text, replacer: Replacer): Text
    requires Includes(s, part)
  {
    Replace(s, part, Replacement(s, part, to, replacer))
  }

  /** A replacement changes the text exactly when what comes in differs from what goes. */
  lemma {:induction false} ReplaceDiffersIff(s: Text, part: Text, to: Text, replacer: Replacer)
    requires Includes(s, part)
    ensures ReplaceBy(s, part, to, replacer) != s <==> Replacement(s, part, to, replacer) != part
  {
    var i, other := IndexFrom(s, part, 0), Replacement(s, part, to, replacer);
    ReplaceSame(s, part);
    var r := Replace(s, part, other);
    if r == s {
      assert |other| == |part|;
      assert r[i..i + |other|] == other && s[i..i + |part|] == part;
    }
  }

  /** Without a `$` both ways to replace are the same. */
  lemma {:induction false} PlainTextIsLiteral(to: Text, before: Text, matched: Text, after: Text)
    requires forall i :: 0 <= i < |to| ==> to[i] != '$'
    ensures Expand(to, before, matched, after) == to
  {
    if to != [] {
      PlainTextIsLiteral(to[1..], before, matched, after);
    }
  }

  /** What the patterns stand for; a `$` that begins none of them, or ends the text, stands for itself. */
  lemma {:induction false} PatternsExpand(c: char, rest: Text, before: Text, matched: Text, after: Text)
    ensures Expand("$$" + rest, before, matched, after) == "$" + Expand(rest, before, matched, after)
    ensures Expand("$&" + rest, before, matched, after) == matched + Expand(rest, before, matched, after)
    ensures Expand("$`" + rest, before, matched, after) == before + Expand(rest, before, matched, after)
    ensures Expand("$'" + rest, before, matched, after) == after + Expand(rest, before, matched, after)
    ensures Expand("$", before, matched, after) == "$"
    ensures c !in "$&`'" ==> Expand(['$', c] + rest, before, matched, after) == "$" + Expand([c] + rest, before, matched, after)
    ensures c != '$' ==> Expand([c] + rest, before, matched, after) == [c] + Expand(rest, before, matched, after)
  {
    assert ("$$" + rest)[2..] == rest && ("$&" + rest)[2..] == rest;
    assert ("$`" + rest)[2..] == rest && ("$'" + rest)[2..] == rest;
    assert (['$', c] + rest)[1..] == [c] + rest && ([c] + rest)[1..] == rest;
  }
}
