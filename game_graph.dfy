/** The create action of the games controller: tokenize the submitted CSA
    moves, replay them on the board, then add the game's path to the stored
    position/move graph with per-game deduplicated statistics. The stored
    graph is an object whose maps the action updates in place. */
module GameGraph {
  import opened GraphSpec
  import CsaTokenizer
  import Replay

  datatype Option<T> = None | Some(value: T)

  /** What a submission comes to: rejected notation, a move the board
      refused (with its index among the tokens), or a recorded game with its
      tokens, the sfen and CSA rendering of every position, and the ids of
      the stored positions along its path. */
  datatype Outcome =
    | MalformedNotation
    | IllegalMoveAt(index: nat)
    | Recorded(tokens: seq<string>, sfens: seq<string>, csaPositions: seq<string>, path: seq<int>)

  class Graph {
    /** The sfen index: the id of the stored position for each sfen. */
    var positionIds: map<string, int>
    /** The stored positions by id. */
    var positions: map<int, PositionRec>
    /** The id the next created position gets. */
    var nextId: int
    /** The stored moves, keyed by the ids of their two positions. */
    var moves: map<Edge, MoveRec>
    /** The rows linking games to positions. */
    var links: set<Appearance>

    ghost predicate Valid()
      reads this
    {
      Indexed(positionIds, positions) && IdsBelow(positions, nextId)
      && (forall e :: e in moves ==> e.0 in positions && e.1 in positions)
      && (forall a :: a in links ==> a.position in positions)
    }

    constructor ()
      ensures Valid()
      ensures positionIds == map[] && positions == map[] && moves == map[] && links == {}
    {
      positionIds := map[];
      positions := map[];
      nextId := 1;
      moves := map[];
      links := {};
    }

    /** Finds the position stored under sfen `s`, or creates one with the
        next id, the CSA rendering `csa` and the game's handicap. `r` is the
        resolution so far. */
    method FindOrCreate(s: string, csa: string, handicap: int, ghost r: Resolution) returns (id: int)
      requires r.positionIds == positionIds && r.positions == positions && r.nextId == nextId
      modifies this`positionIds, this`positions, this`nextId
      ensures Resolution(r.ids + [id], positionIds, positions, nextId) == ResolveStep(r, s, csa, handicap)
    {
      if s in positionIds {
        id := positionIds[s];
      } else {
        id := nextId;
        positionIds := positionIds[s := id];
        positions := positions[id := PositionRec(s, csa, handicap, NoStats)];
        nextId := nextId + 1;
      }
    }

    /** Finds or creates the position of every sfen of a game, in order,
        and returns their ids. */
    method ResolvePositions(sfens: seq<string>, csas: seq<string>, handicap: int) returns (ids: seq<int>)
      requires Valid()
      requires |sfens| <= |csas|
      modifies this
      ensures Valid()
      ensures var r := Resolve(old(positionIds), old(positions), old(nextId), sfens, csas, handicap, |sfens|);
        ids == r.ids && positionIds == r.positionIds && positions == r.positions && nextId == r.nextId
      ensures forall i :: 0 <= i < |sfens| ==> ids[i] in positions && sfens[i] in positionIds && ids[i] == positionIds[sfens[i]]
      ensures moves == old(moves) && links == old(links)
    {
      ids := [];
      var i := 0;
      while i < |sfens|
        invariant 0 <= i <= |sfens|
        invariant Resolution(ids, positionIds, positions, nextId)
                  == Resolve(old(positionIds), old(positions), old(nextId), sfens, csas, handicap, i)
        invariant moves == old(moves) && links == old(links)
      {
        var id := FindOrCreate(sfens[i], csas[i], handicap, Resolution(ids, positionIds, positions, nextId));
        ids := ids + [id];
        i := i + 1;
      }
      ResolveKeepsStore(old(positionIds), old(positions), old(nextId), moves, links, sfens, csas, handicap);
      ResolveFinds(old(positionIds), old(positions), old(nextId), sfens, csas, handicap, |sfens|);
    }

    /** The move half of one step of recording a game: finds the move from
        position `i` to position `i + 1` of the path, or creates it with the
        CSA token of that step, and counts it unless this game has already
        touched it. `r` is the move half of the recording so far. */
    method TouchMove(ids: seq<int>, notations: seq<string>, category: int, i: nat,
                     moveAlready: set<Edge>, ghost r: MovePass)
      returns (move: Edge)
      requires i + 1 < |ids| && |ids| - 1 <= |notations|
      requires r == MovePass(moves, moveAlready)
      modifies this`moves
      ensures move == (ids[i], ids[i + 1])
      ensures MovePass(moves, moveAlready + {move}) == EdgeStep(r, ids, notations, category, i)
    {
      move := (ids[i], ids[i + 1]);
      var rec := if move in moves then moves[move] else MoveRec(notations[i], 0, 0);
      if move !in moveAlready {
        moves := moves[move := CountMove(rec, category)];
      }
    }

    /** The position half of one step of recording a game: unless this game
        has already touched position `i` of the path, tallies it and links it
        to the game with its index and the move held at that point. `rp` and
        `rl` are the position and link halves of the recording so far. */
    method TouchPosition(ids: seq<int>, category: int, result: int, game: int, i: nat, move: Edge,
                         positionAlready: set<int>, ghost rp: PositionPass, ghost rl: LinkPass)
      requires 2 <= |ids| && i < |ids| && ids[i] in positions && move == NextMove(ids, i)
      requires rp == PositionPass(positions, positionAlready) && rl == LinkPass(links, positionAlready)
      modifies this`positions, this`links
      ensures PositionPass(positions, positionAlready + {ids[i]}) == PositionStep(rp, ids, category, result, i)
      ensures LinkPass(links, positionAlready + {ids[i]}) == LinkStep(rl, game, ids, i)
    {
      if ids[i] !in positionAlready {
        var p := positions[ids[i]];
        positions := positions[ids[i] := p.(stats := Tally(p.stats, category, result))];
        links := links + {Appearance(game, ids[i], i, move)};
      }
    }

    /** Adds one game's path of position ids to the statistics: each
        distinct move on the path is found or created and counted once, each
        distinct position is tallied once and linked to the game once. */
    method RecordGame(ids: seq<int>, notations: seq<string>, category: int, result: int, game: int)
      requires 2 <= |ids| && |ids| - 1 <= |notations|
      requires forall i :: 0 <= i < |ids| ==> ids[i] in positions
      modifies this
      ensures moves == MovesAfter(old(moves), ids, notations, category, |ids|).moves
      ensures positions == PositionsAfter(old(positions), ids, category, result, |ids|).positions
      ensures links == LinksAfter(old(links), game, ids, |ids|).links
      ensures positionIds == old(positionIds) && nextId == old(nextId)
    {
      ghost var m0, p0, l0 := moves, positions, links;
      var positionAlready: set<int> := {};
      var moveAlready: set<Edge> := {};
      var move: Option<Edge> := None;
      var i := 0;
      while i < |ids|
        invariant 0 <= i <= |ids|
        invariant MovePass(moves, moveAlready) == MovesAfter(m0, ids, notations, category, i)
        invariant PositionPass(positions, positionAlready) == PositionsAfter(p0, ids, category, result, i)
        invariant LinkPass(links, positionAlready) == LinksAfter(l0, game, ids, i)
        invariant i > 0 ==> move == Some(NextMove(ids, i - 1))
        invariant positionIds == old(positionIds) && nextId == old(nextId)
      {
        if i < |ids| - 1 {
          var e := TouchMove(ids, notations, category, i, moveAlready, MovePass(moves, moveAlready));
          move := Some(e);
        }
        moveAlready := moveAlready + {move.value};
        TouchPosition(ids, category, result, game, i, move.value, positionAlready,
                      PositionPass(positions, positionAlready), LinkPass(links, positionAlready));
        positionAlready := positionAlready + {ids[i]};
        i := i + 1;
      }
    }

    /** The whole create action on a CSA move string, given the board set up
        for the game's handicap, the board's one-move handler and its two
        renderings. A rejected notation or a refused move leaves the graph
        untouched; otherwise the game's positions are resolved and its
        statistics recorded. */
    method Create<B>(csa: string, init: B, step: (B, string) -> (B, Replay.MoveResult),
                     toSfen: B -> string, toCsa: B -> string,
                     handicap: int, category: int, result: int, game: int)
      returns (outcome: Outcome)
      requires Valid()
      modifies this
      ensures Valid()
      ensures outcome.MalformedNotation? <==> CsaTokenizer.Tokenize(csa).Malformed?
      ensures !outcome.Recorded? ==> unchanged(this)
      ensures outcome.IllegalMoveAt? ==>
        var tokens := CsaTokenizer.Tokenize(csa).tokens;
        outcome.index < |tokens|
        && !Replay.Accepted(Replay.ResultAt(init, tokens, step, outcome.index))
        && forall k :: 0 <= k < outcome.index ==> Replay.Accepted(Replay.ResultAt(init, tokens, step, k))
      ensures outcome.Recorded? ==>
        var tokens := CsaTokenizer.Tokenize(csa).tokens;
        CsaTokenizer.Tokenize(csa).Tokens? && outcome.tokens == tokens
        && (forall k :: 0 <= k < |tokens| ==> Replay.Accepted(Replay.ResultAt(init, tokens, step, k)))
        && |outcome.sfens| == |outcome.csaPositions| == |tokens| + 1
        && (forall i :: 0 <= i <= |tokens| ==> outcome.sfens[i] == toSfen(Replay.BoardAfter(init, tokens, step, i)))
        && (forall i :: 0 <= i <= |tokens| ==> outcome.csaPositions[i] == toCsa(Replay.BoardAfter(init, tokens, step, i)))
        && var r := Resolve(old(positionIds), old(positions), old(nextId), outcome.sfens, outcome.csaPositions, handicap, |outcome.sfens|);
        outcome.path == r.ids && positionIds == r.positionIds && nextId == r.nextId
        && (forall i :: 0 <= i < |r.ids| ==> r.ids[i] in r.positions)
        && moves == MovesAfter(old(moves), r.ids, tokens, category, |r.ids|).moves
        && positions == PositionsAfter(r.positions, r.ids, category, result, |r.ids|).positions
        && links == LinksAfter(old(links), game, r.ids, |r.ids|).links
    {
      var tokenized := CsaTokenizer.TokenizeMoves(csa);
      if tokenized.Malformed? {
        return MalformedNotation;
      }
      var tokens := tokenized.tokens;
      var replayed := Replay.ReplayMoves(init, tokens, step, toSfen, toCsa);
      if replayed.IllegalMove? {
        return IllegalMoveAt(replayed.at);
      }
      var sfens, csaPositions := replayed.sfens, replayed.csaPositions;
      var path := ResolvePositions(sfens, csaPositions, handicap);
      ghost var positionIds0, positions0, nextId0, moves0, links0 := positionIds, positions, nextId, moves, links;
      RecordGame(path, tokens, category, result, game);
      RecordKeepsStore(positionIds0, positions0, nextId0, moves0, links0, path, tokens, category, result, game);
      outcome := Recorded(tokens, sfens, csaPositions, path);
    }
  }
}
