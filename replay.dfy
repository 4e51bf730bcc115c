/** Replaying the tokens of a game on the board, as the game controller does
    before it touches the position graph. The board itself (its initial setup
    per handicap, the legality check of one move, and its two renderings) is
    not part of this model: it enters as a board value of an abstract type `B`
    and three functions over it. */
module Replay {

  /** What the board's one-move handler answers. Only a normal move and the
      resignation marker let the replay go on; any other answer stops it. */
  datatype MoveResult = Normal | Resigned | Other(name: string)

  predicate Accepted(rt: MoveResult) {
    rt.Normal? || rt.Resigned?
  }

  /** Outcome of a replay: the sfen and the CSA rendering of the board before
      the first token and after each token, or the index of the token that
      was refused. */
  datatype Replayed = Replayed(sfens: seq<string>, csaPositions: seq<string>) | IllegalMove(at: nat)

  /** The board after the first `n` tokens have been handed to it, whatever
      it answered. */
  function BoardAfter<B>(init: B, tokens: seq<string>, step: (B, string) -> (B, MoveResult), n: nat): B
    requires n <= |tokens|
  {
    if n == 0 then init else step(BoardAfter(init, tokens, step, n - 1), tokens[n - 1]).0
  }

  /** The board's answer to token `n`. */
  function ResultAt<B>(init: B, tokens: seq<string>, step: (B, string) -> (B, MoveResult), n: nat): MoveResult
    requires n < |tokens|
  {
    step(BoardAfter(init, tokens, step, n), tokens[n]).1
  }

  /** One rendering of the board before the first token and after each of
      the first `n` tokens. */
  function Renderings<B>(init: B, tokens: seq<string>, step: (B, string) -> (B, MoveResult),
                         render: B -> string, n: nat): (rs: seq<string>)
    requires n <= |tokens|
    ensures |rs| == n + 1
    ensures forall i :: 0 <= i <= n ==> rs[i] == render(BoardAfter(init, tokens, step, i))
  {
    if n == 0 then [render(init)]
    else Renderings(init, tokens, step, render, n - 1) + [render(BoardAfter(init, tokens, step, n))]
  }

  /** Replays `tokens` from `init`. On success one sfen and one CSA rendering
      are recorded before the first token and one more of each after every
      token, the resignation marker included; the first token the board does
      not accept stops the replay. */
  method ReplayMoves<B>(init: B, tokens: seq<string>, step: (B, string) -> (B, MoveResult),
                        toSfen: B -> string, toCsa: B -> string)
    returns (r: Replayed)
    ensures r.Replayed? <==> forall k :: 0 <= k < |tokens| ==> Accepted(ResultAt(init, tokens, step, k))
    ensures r.Replayed? ==> r.sfens == Renderings(init, tokens, step, toSfen, |tokens|)
    ensures r.Replayed? ==> r.csaPositions == Renderings(init, tokens, step, toCsa, |tokens|)
    ensures r.IllegalMove? ==> r.at < |tokens| && !Accepted(ResultAt(init, tokens, step, r.at))
    ensures r.IllegalMove? ==> forall k :: 0 <= k < r.at ==> Accepted(ResultAt(init, tokens, step, k))
  {
    var board := init;
    var sfens := [toSfen(board)];
    var csaPositions := [toCsa(board)];
    var i := 0;
    while i < |tokens|
      invariant 0 <= i <= |tokens|
      invariant board == BoardAfter(init, tokens, step, i)
      invariant forall k :: 0 <= k < i ==> Accepted(ResultAt(init, tokens, step, k))
      invariant sfens == Renderings(init, tokens, step, toSfen, i)
      invariant csaPositions == Renderings(init, tokens, step, toCsa, i)
    {
      var next := step(board, tokens[i]);
      if !Accepted(next.1) {
        assert !Accepted(ResultAt(init, tokens, step, i));
        return IllegalMove(i);
      }
      board := next.0;
      sfens := sfens + [toSfen(board)];
      csaPositions := csaPositions + [toCsa(board)];
      i := i + 1;
    }
    r := Replayed(sfens, csaPositions);
  }

  /** The board after `n` tokens depends on those tokens only: replaying a
      longer record passes through the same boards. */
  lemma {:induction false} BoardAfterPrefix<B>(init: B, tokens: seq<string>, step: (B, string) -> (B, MoveResult), m: nat, n: nat)
    requires n <= m <= |tokens|
    ensures BoardAfter(init, tokens[..m], step, n) == BoardAfter(init, tokens, step, n)
  {
    if n > 0 {
      BoardAfterPrefix(init, tokens, step, m, n - 1);
      assert tokens[..m][n - 1] == tokens[n - 1];
    }
  }

  /** Whether token `k` is accepted does not depend on any later token, so
      where a replay stops is decided by the tokens up to that point. */
  lemma StopIndependentOfLaterTokens<B>(init: B, tokens: seq<string>, step: (B, string) -> (B, MoveResult), m: nat, k: nat)
    requires k < m <= |tokens|
    ensures ResultAt(init, tokens[..m], step, k) == ResultAt(init, tokens, step, k)
  {
    BoardAfterPrefix(init, tokens, step, m, k);
    assert tokens[..m][k] == tokens[k];
  }
}
