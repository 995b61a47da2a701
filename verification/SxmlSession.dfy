/** Any sequence of parser calls: the caller may show more of the document, change the size of the table and
    empty the table between two calls, in any order. */
module SxmlSession {
  import opened SxmlGrammar
  import opened SxmlRuns
  import opened SxmlTable

  /** The parser between two calls: the committed position and level, the tokens in the table, how much of the
      document has been shown so far, and every token committed since the start. */
  datatype Session = Session(pos: nat, level: int, table: seq<Token>, seen: nat, history: seq<Token>)

  datatype Move = Call(e: nat, cap: nat) | Clear

  const START := Session(0, 0, [], 0, [])

  /** What the parser asks of its caller: the buffer only grows, and the table is not larger than announced. */
  predicate Permits(d: string, s: Session, m: Move) {
    m.Call? ==> s.pos <= s.seen <= m.e <= |d| && |s.table| <= m.cap
  }

  function Next(d: string, s: Session, m: Move): Session
    requires Permits(d, s, m)
  {
    match m
    case Clear => s.(table := [])
    case Call(e, cap) =>
      var o := Parse(d, s.pos, e, s.level, |s.table|, AtMost(cap));
      Session(o.pos, o.level, s.table + o.toks, e, s.history + o.toks)
  }

  predicate Legal(d: string, s: Session, moves: seq<Move>)
    decreases |moves|
  {
    moves == [] || (Permits(d, s, moves[0]) && Legal(d, Next(d, s, moves[0]), moves[1..]))
  }

  function After(d: string, s: Session, moves: seq<Move>): Session
    requires Legal(d, s, moves)
    decreases |moves|
  {
    if moves == [] then s else After(d, Next(d, s, moves[0]), moves[1..])
  }

  /** The level is the number of start tags minus the number of end tags committed since the start, no prefix of
      them closes more than it opened, and the table is the well-formed rest of what has been committed. */
  ghost predicate Consistent(s: Session) {
    && s.pos <= s.seen && s.level == Balance(s.history)
    && NeverNegative(0, s.history) && WellFormed(s.history, s.seen)
    && WellFormed(s.table, s.seen)
    && |s.table| <= |s.history| && s.table == s.history[|s.history| - |s.table|..]
  }

  lemma WellFormedWider(x: seq<Token>, e: nat, e': nat)
    requires WellFormed(x, e) && e <= e'
    ensures WellFormed(x, e')
  {
    forall i | 0 <= i < |x| ensures WellPlaced(x, i, e') {
      assert WellPlaced(x, i, e);
    }
  }

  lemma NeverNegativeEnd(level: int, x: seq<Token>)
    requires NeverNegative(level, x)
    ensures level + Balance(x) >= 0
  {
    assert x[..|x|] == x;
  }

  /** Whatever a call does, and whatever the table held before it, the state stays consistent. */
  lemma NextKeeps(d: string, s: Session, m: Move)
    requires Permits(d, s, m) && Consistent(s)
    ensures Consistent(Next(d, s, m))
  {
    hide Balance, WellFormed, NeverNegative, Parse;
    match m
    case Clear => EmptySound(s.seen, 0);
    case Call(e, cap) => {
      var o := Parse(d, s.pos, e, s.level, |s.table|, AtMost(cap));
      NeverNegativeEnd(0, s.history);
      TableInvariant(d, s.pos, e, s.level, |s.table|, AtMost(cap));
      BalanceConcat(s.history, o.toks);
      NeverNegativeConcat(0, s.history, o.toks);
      WellFormedWider(s.history, s.seen, e);
      WellFormedWider(s.table, s.seen, e);
      WellFormedConcat(s.history, o.toks, e);
      WellFormedConcat(s.table, o.toks, e);
    }
  }

  /** Over any sequence of calls. */
  lemma {:induction false} AnyCalls(d: string, s: Session, moves: seq<Move>)
    requires Legal(d, s, moves) && Consistent(s)
    ensures Consistent(After(d, s, moves))
    decreases |moves|
  {
    hide Consistent, Next;
    if moves != [] {
      NextKeeps(d, s, moves[0]);
      AnyCalls(d, Next(d, s, moves[0]), moves[1..]);
    }
  }

  /** Every state that can be reached from the initial one. */
  lemma ReachableConsistent(d: string, moves: seq<Move>)
    requires Legal(d, START, moves)
    ensures var s := After(d, START, moves);
            Consistent(s) && s.level == Balance(s.history) && s.level >= 0
  {
    assert Consistent(START);
    AnyCalls(d, START, moves);
    NeverNegativeEnd(0, After(d, START, moves).history);
  }
}
