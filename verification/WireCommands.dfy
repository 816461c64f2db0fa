/** What the peer makes of a query text, and what it answers, stated on the bytes of the messages. */
module WireCommands {
  import opened WirePeer

  // -- The command of a text ---------------------------------------------------------------------

  /** The word spells the upper-case name in any mixture of cases. */
  predicate Spells(word: seq<byte>, name: string) {
    && |word| == |name|
    && forall i :: 0 <= i < |word| ==>
         word[i] as int == name[i] as int || (97 <= word[i] <= 122 && word[i] as int - 32 == name[i] as int)
  }

  /** Space, tab, line feed, vertical tab, form feed, carriage return. */
  predicate BlankByte(b: byte) {
    b == 32 || b == 9 || b == 10 || b == 11 || b == 12 || b == 13
  }

  predicate Blank(s: seq<byte>) {
    forall i :: 0 <= i < |s| ==> BlankByte(s[i])
  }

  /** No white space and no NUL. */
  predicate Unbroken(word: seq<byte>) {
    forall i :: 0 <= i < |word| ==> word[i] != 0 && !BlankByte(word[i])
  }

  /** What may follow the first word: nothing, a NUL or, after a word, white space. */
  predicate Follows(word: seq<byte>, rest: seq<byte>) {
    rest != [] ==> rest[0] == 0 || (word != [] && BlankByte(rest[0]))
  }

  /** The text is white space, its first word and whatever follows. */
  predicate IsText(text: seq<byte>, white: seq<byte>, word: seq<byte>, rest: seq<byte>) {
    text == white + word + rest && Blank(white) && Unbroken(word) && Follows(word, rest)
  }

  /** The word in capitals, byte for byte. */
  predicate Capitals(name: string, word: seq<byte>) {
    && |name| == |word|
    && forall i :: 0 <= i < |word| ==>
         name[i] as int == if 97 <= word[i] <= 122 then word[i] as int - 32 else word[i] as int
  }

  lemma {:induction false} PrefixIsWord(word: seq<byte>, rest: seq<byte>)
    requires Unbroken(word) && (rest != [] ==> rest[0] == 0 || BlankByte(rest[0]))
    ensures Capitals(WordPrefix(word + rest), word)
    decreases |word|
  {
    if word == [] {
      assert word + rest == rest;
    } else {
      assert (word + rest)[1..] == word[1..] + rest;
      PrefixIsWord(word[1..], rest);
    }
  }

  lemma {:induction false} FirstWordIsWord(white: seq<byte>, word: seq<byte>, rest: seq<byte>)
    requires Blank(white) && Unbroken(word) && Follows(word, rest)
    ensures Capitals(FirstWord(white + word + rest), word)
    decreases |white|
  {
    if white == [] {
      assert white + word + rest == word + rest;
      assert word != [] ==> (word + rest)[0] == word[0];
      PrefixIsWord(word, rest);
    } else {
      assert (white + word + rest)[1..] == white[1..] + word + rest;
      FirstWordIsWord(white[1..], word, rest);
    }
  }

  /** Every text has a first word, possibly empty. */
  lemma {:induction false} EveryTextIsText(text: seq<byte>) returns (white: seq<byte>, word: seq<byte>, rest: seq<byte>)
    ensures IsText(text, white, word, rest)
  {
    var i := 0;
    while i < |text| && BlankByte(text[i])
      invariant i <= |text| && Blank(text[..i])
    {
      i := i + 1;
    }
    var j := i;
    while j < |text| && text[j] != 0 && !BlankByte(text[j])
      invariant i <= j <= |text| && Unbroken(text[i..j])
    {
      assert text[i..j + 1] == text[i..j] + [text[j]];
      j := j + 1;
    }
    white, word, rest := text[..i], text[i..j], text[j..];
  }

  /** The command is named by the word, its case aside. */
  predicate CommandIs(c: Command, word: seq<byte>) {
    && (c.Select? <==> Spells(word, "SELECT"))
    && (c.Begin? <==> Spells(word, "BEGIN"))
    && (c.Commit? <==> Spells(word, "COMMIT"))
    && (c.Rollback? <==> Spells(word, "ROLLBACK"))
    && (c.Other? ==> Capitals(c.word, word))
  }

  lemma {:induction false} SpellsIff(word: seq<byte>, capitals: string, name: string)
    requires Capitals(capitals, word) && forall i :: 0 <= i < |name| ==> 'A' <= name[i] <= 'Z'
    ensures capitals == name <==> Spells(word, name)
  {
    if Spells(word, name) {
      forall i | 0 <= i < |name| ensures capitals[i] == name[i] {
        assert 65 <= name[i] as int <= 90;
      }
    }
  }

  lemma {:induction false} NamedByWord(word: seq<byte>, capitals: string)
    requires Capitals(capitals, word)
    ensures CommandIs(CommandNamed(capitals), word)
  {
    SpellsIff(word, capitals, "SELECT");
    SpellsIff(word, capitals, "BEGIN");
    SpellsIff(word, capitals, "COMMIT");
    SpellsIff(word, capitals, "ROLLBACK");
    assert |"SELECT"| == 6 && |"BEGIN"| == 5 && |"COMMIT"| == 6 && |"ROLLBACK"| == 8;
    assert "SELECT"[0] == 'S' && "COMMIT"[0] == 'C';
  }

  predicate NoNul(name: seq<byte>) {
    forall i :: 0 <= i < |name| ==> name[i] != 0
  }

  lemma {:induction false} NameEnds(frame: Frame, from: nat, end: nat)
    requires from <= end < |frame| && frame[end] == 0 && forall i :: from <= i < end ==> frame[i] != 0
    ensures AfterName(frame, from) == end + 1
    decreases end - from
  {
    if from < end {
      NameEnds(frame, from + 1, end);
    }
  }

  /** A Parse message: its statement name, NUL, the query text and what comes after. */
  function ParseBody(name: seq<byte>, text: seq<byte>): seq<byte> {
    name + [0] + text
  }

  /** The command of a Parse message is the first word of its text. */
  lemma {:induction false} ParseNamesCommand(
    name: seq<byte>, text: seq<byte>, white: seq<byte>, word: seq<byte>, rest: seq<byte>)
    requires NoNul(name) && IsText(text, white, word, rest) && |ParseBody(name, text)| + 4 < 0x8000_0000
    ensures CommandIs(CommandOf(Packet(80, ParseBody(name, text))), word)
  {
    var frame, end := Packet(80, ParseBody(name, text)), 5 + |name|;
    assert forall i :: 5 <= i < end ==> frame[i] == name[i - 5];
    NameEnds(frame, 5, end);
    assert frame[end + 1..] == text;
    FirstWordIsWord(white, word, rest);
    NamedByWord(word, FirstWord(text));
  }

  lemma {:induction false} NoNameEnd(frame: Frame, from: nat)
    requires from <= |frame| && forall i :: from <= i < |frame| ==> frame[i] != 0
    ensures AfterName(frame, from) == 0
    decreases |frame| - from
  {
    if from < |frame| {
      NoNameEnd(frame, from + 1);
    }
  }

  /** Without the NUL behind the name the whole message is taken for the text, so that its type byte is
      the command. */
  lemma {:induction false} ParseWithoutText(name: seq<byte>)
    requires NoNul(name) && |name| + 4 < 0x100_0000
    ensures CommandOf(Packet(80, name)) == Other("P")
  {
    var frame := Packet(80, name);
    assert forall i :: 5 <= i < |frame| ==> frame[i] == name[i - 5];
    NoNameEnd(frame, 5);
    assert frame[0] == 80 && frame[1] == 0 && frame[0..] == frame;
    assert frame[1..][0] == 0 && WordPrefix(frame[1..]) == "";
    assert WordPrefix(frame) == ['P'] + WordPrefix(frame[1..]);
    assert FirstWord(frame) == "P";
  }

  /** The command of a simple Query message is the first word of its text. */
  lemma {:induction false} QueryNamesCommand(text: seq<byte>, white: seq<byte>, word: seq<byte>, rest: seq<byte>)
    requires IsText(text, white, word, rest) && |text| + 4 < 0x8000_0000
    ensures CommandIs(CommandOf(Packet(81, text)), word)
  {
    assert Packet(81, text)[5..] == text;
    FirstWordIsWord(white, word, rest);
    NamedByWord(word, FirstWord(text));
  }

  // -- The answers ----------------------------------------------------------------------------------

  /** The status after a query, by its first word. */
  predicate InTransactionAfter(before: bool, word: seq<byte>) {
    Spells(word, "BEGIN") || (before && !Spells(word, "COMMIT") && !Spells(word, "ROLLBACK"))
  }

  /** P, D, B, E and S with these bodies. */
  function ExtendedQuery(parse: seq<byte>, d: seq<byte>, b: seq<byte>, e: seq<byte>, s: seq<byte>): seq<Message> {
    [Message(80, parse), Message(68, d), Message(66, b), Message(69, e), Message(83, s)]
  }

  predicate SelectAnswer(replies: seq<Reply>) {
    replies == [ParseComplete, ParameterDescription, RowDescription, BindComplete, DataRow, SelectOne]
  }

  predicate CommandAnswer(replies: seq<Reply>, word: seq<byte>) {
    && |replies| == 5
    && replies[..4] == [ParseComplete, ParameterDescription, NoData, BindComplete]
    && replies[4].CommandComplete? && CommandIs(replies[4].command, word)
  }

  /** Nothing else changed but the query counted and one more answer armed. */
  predicate OneMoreAnswer(p: Peer, q: Peer, word: seq<byte>)
    requires p.Live?
  {
    && q.Live? && q.pending != [] && q.pending[..|q.pending| - 1] == p.pending
    && q.inTransaction == q.pending[|q.pending| - 1].inTransaction == InTransactionAfter(p.inTransaction, word)
    && q.outstanding == p.outstanding + 1 && q.poisoned == (p.poisoned || p.outstanding > 0)
    && q.written == p.written && q.buffer == [] && q.replies == []
    && q.ended == p.ended && q.destroyed == p.destroyed
  }

  /** One message, its type and the command in force aside: what is added to the replies. */
  lemma {:induction false} DeliverFirst(p: Peer, ms: seq<Message>)
    requires p.Live? && !p.startup && Encodable(ms) && ms != []
    ensures Deliver(p, ms) == Deliver(Dispatch(p, Packet(ms[0].kind, ms[0].body)), ms[1..])
    ensures Packet(ms[0].kind, ms[0].body)[0] == ms[0].kind
  {}

  /** Bytes that encode messages are those messages delivered. */
  lemma {:induction false} DataDelivers(p: Peer, ms: seq<Message>)
    requires p.Live? && !p.startup && p.buffer == [] && Encodable(ms)
    ensures OnData(p, Encode(ms)) == Deliver(p, ms)
  {
    assert Encode(ms) + [] == Encode(ms);
    DecoderInvertsEncoder(p, ms, []);
    DeliverKeepsBuffer(p, ms);
  }

  lemma {:induction false} DeliverKeepsBuffer(p: Peer, ms: seq<Message>)
    requires p.Live? && !p.startup && Encodable(ms)
    ensures Deliver(p, ms).Live? ==> Deliver(p, ms).buffer == p.buffer
    decreases |ms|
  {
    if ms != [] {
      var q := Dispatch(p, Packet(ms[0].kind, ms[0].body));
      if q.Live? {
        DeliverKeepsBuffer(q, ms[1..]);
      }
    }
  }

  lemma {:induction false} DescribeThenBind(p: Peer, d: seq<byte>, b: seq<byte>, rest: seq<Message>)
    requires p.Live? && !p.startup && Encodable([Message(68, d), Message(66, b)] + rest)
    requires Encodable(rest)
    ensures var described := [ParameterDescription, if p.command.Select? then RowDescription else NoData];
            Deliver(p, [Message(68, d), Message(66, b)] + rest)
              == Deliver(p.(replies := p.replies + described + [BindComplete]), rest)
  {
    var ms := [Message(68, d), Message(66, b)] + rest;
    assert ms[0] == Message(68, d) && ms[1] == Message(66, b) && ms[1..][1..] == rest;
    DeliverFirst(p, ms);
    var described := p.(replies := p.replies + [ParameterDescription, if p.command.Select? then RowDescription else NoData]);
    assert Dispatch(p, Packet(68, d)) == described;
    DeliverFirst(described, ms[1..]);
  }

  lemma {:induction false} ExecuteThenSync(p: Peer, e: seq<byte>, s: seq<byte>)
    requires p.Live? && !p.startup && Encodable([Message(69, e), Message(83, s)])
    ensures var executed := if p.command.Select? then [DataRow, SelectOne] else [CommandComplete(p.command)];
            Deliver(p, [Message(69, e), Message(83, s)]) == Finished(p.(replies := p.replies + executed))
  {
    var ms := [Message(69, e), Message(83, s)];
    assert ms[1..] == [Message(83, s)] && ms[1..][1..] == [];
    DeliverFirst(p, ms);
    var executed := p.(replies := p.replies + if p.command.Select? then [DataRow, SelectOne] else [CommandComplete(p.command)]);
    assert Dispatch(p, Packet(69, e)) == executed;
    DeliverFirst(executed, ms[1..]);
  }

  /** A query begun with this command, these replies collected. */
  function Asked(p: Peer, c: Command, replies: seq<Reply>): (q: Peer)
    requires p.Live?
    ensures q.Live? && q.startup == p.startup && q.buffer == p.buffer && q.command == c && q.replies == replies
  {
    assert Started(p).Live?;
    Started(p).(command := c, replies := replies)
  }

  /** What a finished query leaves. */
  lemma {:induction false} FinishedOwes(p: Peer, word: seq<byte>, c: Command, replies: seq<Reply>)
    requires p.Live? && p.buffer == [] && CommandIs(c, word)
    ensures var q := Finished(Asked(p, c, replies));
            OneMoreAnswer(p, q, word) && q.pending[|q.pending| - 1].replies == replies
  {}

  lemma {:induction false} ParsedIs(p: Peer, body: seq<byte>)
    requires p.Live? && !p.startup && p.replies == [] && |body| + 4 < 0x8000_0000
    ensures Dispatch(p, Packet(80, body)) == Asked(p, CommandOf(Packet(80, body)), [ParseComplete])
  {
    assert Packet(80, body)[0] == 80;
    assert p.replies + [ParseComplete] == [ParseComplete];
  }

  lemma {:induction false} QueriedIs(p: Peer, body: seq<byte>)
    requires p.Live? && !p.startup && p.replies == [] && |body| + 4 < 0x8000_0000
    ensures var c := CommandOf(Packet(81, body));
            Dispatch(p, Packet(81, body)) == Finished(Asked(p, c, [CommandComplete(c)]))
  {
    var c := CommandOf(Packet(81, body));
    assert Packet(81, body)[0] == 81;
    assert p.replies + [CommandComplete(c)] == [CommandComplete(c)];
  }

  /** The bytes of an extended query and what they make the peer owe: for a SELECT, spelled in any
      case, a row description and one row; for any other command neither. */
  lemma {:induction false} ExtendedQueryIsAnswered(
    p: Peer, name: seq<byte>, text: seq<byte>, white: seq<byte>, word: seq<byte>, rest: seq<byte>,
    d: seq<byte>, b: seq<byte>, e: seq<byte>, s: seq<byte>)
    requires p.Live? && !p.startup && p.buffer == [] && p.replies == []
    requires NoNul(name) && IsText(text, white, word, rest)
    requires Encodable(ExtendedQuery(ParseBody(name, text), d, b, e, s))
    ensures var q := OnData(p, Encode(ExtendedQuery(ParseBody(name, text), d, b, e, s)));
            && OneMoreAnswer(p, q, word)
            && var replies := q.pending[|q.pending| - 1].replies;
               if Spells(word, "SELECT") then SelectAnswer(replies) else CommandAnswer(replies, word)
  {
    var body := ParseBody(name, text);
    var ms := ExtendedQuery(body, d, b, e, s);
    assert |ms[0].body| == |body| && Encodable(ms[1..]) && Encodable(ms[3..]);
    DataDelivers(p, ms);
    ParseNamesCommand(name, text, white, word, rest);
    var c := CommandOf(Packet(80, body));
    DeliverExtended(p, body, d, b, e, s);
    FinishedOwes(p, word, c, AnswerTo(c));
  }

  function AnswerTo(c: Command): seq<Reply> {
    if c.Select? then [ParseComplete, ParameterDescription, RowDescription, BindComplete, DataRow, SelectOne]
    else [ParseComplete, ParameterDescription, NoData, BindComplete, CommandComplete(c)]
  }

  lemma {:induction false} DeliverExtended(
    p: Peer, body: seq<byte>, d: seq<byte>, b: seq<byte>, e: seq<byte>, s: seq<byte>)
    requires p.Live? && !p.startup && p.replies == []
    requires Encodable(ExtendedQuery(body, d, b, e, s)) && |body| + 4 < 0x8000_0000
    ensures var c := CommandOf(Packet(80, body));
            Deliver(p, ExtendedQuery(body, d, b, e, s)) == Finished(Asked(p, c, AnswerTo(c)))
  {
    var ms, c := ExtendedQuery(body, d, b, e, s), CommandOf(Packet(80, body));
    ParsedIs(p, body);
    DeliverFirst(p, ms);
    var parsed := Asked(p, c, [ParseComplete]);
    var last := [Message(69, e), Message(83, s)];
    assert last[0] == ms[3] && last[1] == ms[4];
    assert ms[1..] == [Message(68, d), Message(66, b)] + last;
    DescribeThenBind(parsed, d, b, last);
    var bound := parsed.replies + [ParameterDescription, if c.Select? then RowDescription else NoData] + [BindComplete];
    ExecuteThenSync(parsed.(replies := bound), e, s);
    assert bound + (if c.Select? then [DataRow, SelectOne] else [CommandComplete(c)]) == AnswerTo(c);
  }

  lemma {:induction false} DeliverNothing(p: Peer)
    requires p.Live? ==> !p.startup
    ensures Deliver(p, []) == p
  {}

  /** The same for a simple query: one tag, whatever the command. */
  lemma {:induction false} SimpleQueryIsAnswered(
    p: Peer, text: seq<byte>, white: seq<byte>, word: seq<byte>, rest: seq<byte>)
    requires p.Live? && !p.startup && p.buffer == [] && p.replies == []
    requires IsText(text, white, word, rest) && |text| + 4 < 0x8000_0000
    ensures var q := OnData(p, Encode([Message(81, text)]));
            && OneMoreAnswer(p, q, word)
            && var replies := q.pending[|q.pending| - 1].replies;
               |replies| == 1 && replies[0].CommandComplete? && CommandIs(replies[0].command, word)
  {
    var ms := [Message(81, text)];
    var c := CommandOf(Packet(81, text));
    DataDelivers(p, ms);
    QueryNamesCommand(text, white, word, rest);
    DeliverFirst(p, ms);
    QueriedIs(p, text);
    DeliverNothing(Dispatch(p, Packet(81, text)));
    FinishedOwes(p, word, c, [CommandComplete(c)]);
  }

  /** Terminate ends the socket; a message of any other type is the end of the peer. */
  lemma {:induction false} OtherMessages(p: Peer, m: Message)
    requires p.Live? && !p.startup && p.buffer == [] && |m.body| + 4 < 0x8000_0000
    requires m.kind !in {80, 68, 66, 69, 83, 81}
    ensures OnData(p, Encode([m])) == if m.kind == 88 then p.(ended := true) else Dead
  {
    DataDelivers(p, [m]);
    DeliverFirst(p, [m]);
  }
}
