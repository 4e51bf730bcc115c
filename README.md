# Game submission and the position/move graph

This project models what happens when a trusted game source submits a shogi
game record to the games controller (`GamesController#create`).

1. The continuous CSA move string is split into move tokens. A token is a
   sign, four digits and two word characters, and the resignation marker
   `%TORYO` may end the record.
2. The tokens are replayed on a board. The sfen and the CSA rendering of
   every position are recorded, and the first move the board refuses stops
   the replay.
3. The game's path is added to the stored graph:
   - every sfen is found or created as a position;
   - every step between two positions is found or created as a move;
   - each distinct move of the game is counted once for the game's source
     category;
   - each distinct position of the game is tallied once for the game's
     source category and result;
   - each distinct position is linked to the game once.

The project has four modules:

- `CsaTokenizer` models the leftmost, non-overlapping `gsub` scan and the
  residue check.
- `Replay` models the replay loop. The board is abstract: a value of a type
  parameter `B` with its one-move handler and two renderings passed in as
  functions.
- `GraphSpec` holds the stored records as values. It describes the effect
  of recording a game as three folds over the path (moves, positions, game
  links), with lemmas about them.
- `GameGraph` holds the `Graph` class, whose map fields (sfen index,
  positions, moves, game links) the controller's loops update in place.
  Each method is proved against the functions of `GraphSpec`.

The store keys a move by its pair of position ids, so there is at most one
move per pair by construction. Likewise each sfen maps to one position id,
and `Indexed` states that the index and the positions agree.

## Model

| member | source | states |
|---|---|---|
| CsaTokenizer.TokenizeMoves | app/controllers/games_controller.rb:21-34 | The one-pass scan returns exactly the tokenizer function's verdict. An accepted result is non-empty, every token but the last is a move token, and the last token is a move token or `%TORYO`. |
| CsaTokenizer.ScanConcat | app/controllers/games_controller.rb:23-26 | Scanning well-formed move tokens followed by any tail yields those tokens in order, then the tail's matches and residue. |
| CsaTokenizer.TokenizeMoves_RoundTrip | app/controllers/games_controller.rb:22-34 | The concatenation of a non-empty sequence of move tokens is accepted as exactly that sequence. |
| CsaTokenizer.TokenizeResigned_RoundTrip | app/controllers/games_controller.rb:27-29 | Move tokens followed by `%TORYO` are accepted as those tokens with `%TORYO` appended, including when there are no moves. |
| CsaTokenizer.SplitResignationAccepted | app/controllers/games_controller.rb:23-29 | Moves inserted at any point inside `%TORYO` (as in `%TO+7776FURYO`) are still accepted as the moves followed by `%TORYO`, because the residue is joined. |
| CsaTokenizer.ScanUnsignedPrefix | app/controllers/games_controller.rb:23-26 | Leading characters that are not `+` or `-` all go to the residue, ahead of whatever the rest of the string leaves. |
| CsaTokenizer.RejectsBadResidue | app/controllers/games_controller.rb:27-32 | Any tail whose scan leaves a residue that is neither empty nor `%TORYO` rejects the record, whatever well-formed moves precede it. |
| CsaTokenizer.RejectsShortTail | app/controllers/games_controller.rb:23-32 | A tail shorter than a move token, other than nothing or `%TORYO`, is all residue and rejects the record. |
| CsaTokenizer.RejectsEmpty | app/controllers/games_controller.rb:34 | An empty string yields no tokens and is rejected. |
| CsaTokenizer.RejectsTrailingGarbage | app/controllers/games_controller.rb:23-32 | `+7776FU-3334FUxyz` is rejected. |
| CsaTokenizer.MatchesInOrder | app/controllers/games_controller.rb:23-26 | Each match is the text at its start index, where the pattern matches. The matches are taken left to right and do not overlap. |
| CsaTokenizer.ResidueIsUnmatched | app/controllers/games_controller.rb:23-26 | Each residue character comes from an index where no match starts, in increasing order of index. |
| Replay.Renderings | app/controllers/games_controller.rb:43-52 | One rendering per board: the board before the first token and the board after each token, so `n + 1` renderings for `n` tokens. |
| Replay.ReplayMoves | app/controllers/games_controller.rb:35-53 | The replay succeeds if and only if the board accepts every token (a normal move or resignation). On success the sfens and CSA renderings are the renderings of every board, so there are `\|tokens\| + 1` of each. Otherwise the replay reports the first refused token, and every earlier token was accepted. |
| Replay.BoardAfterPrefix | app/controllers/games_controller.rb:45-46 | The board after `n` tokens depends only on the first `n` tokens. |
| Replay.StopIndependentOfLaterTokens | app/controllers/games_controller.rb:45-50 | Whether token `k` is accepted does not depend on later tokens. |
| GraphSpec.Tally | app/controllers/games_controller.rb:83-99 | A category-1 or category-2 game with result 0, 1 or 2 adds one to the matching counter. Every other counter, category or result leaves the counters unchanged. |
| GraphSpec.CountMove | app/controllers/games_controller.rb:72-76 | A category-1 or category-2 game adds one to that category's total. The CSA token is kept. |
| GraphSpec.MovesTouchedAfter | app/controllers/games_controller.rb:71-80 | After `n` steps, the set of moves the game has touched is exactly the path's edges looked at so far. |
| GraphSpec.MovesAfterAt | app/controllers/games_controller.rb:65-80 | Afterwards, every edge of the path is stored and counted once for the game. It starts from its stored record, or, if new, from the CSA token of its first step. No other move changes. |
| GraphSpec.PositionsTouchedAfter | app/controllers/games_controller.rb:82-108 | After `n` steps, the set of positions the game has touched is exactly the first `n` positions of the path. |
| GraphSpec.LinksTouchedAfter | app/controllers/games_controller.rb:82-108 | The link half touches the same positions as the position half: after `n` steps, exactly the first `n` positions of the path. |
| GraphSpec.PositionsAfterAt | app/controllers/games_controller.rb:82-108 | A position of the path is tallied exactly once for the game, however often the path repeats it. Any other position is unchanged. |
| GraphSpec.LinksAfterAt | app/controllers/games_controller.rb:100-106 | The added links are exactly one per distinct position of the path. Each carries the index of the position's first occurrence and the move held at that step. |
| GraphSpec.LinkedOnce | app/controllers/games_controller.rb:82-108 | A game that was not linked before is linked to each position at most once. |
| GraphSpec.RecordNeverDecreases | app/controllers/games_controller.rb:65-109 | No counter goes down, and no stored position or move disappears. An existing move keeps its CSA token. |
| GraphSpec.RecordKeepsStore | app/controllers/games_controller.rb:65-109 | Recording keeps the sfen index consistent, and every move and link refers to a stored position. |
| GraphSpec.OnePositionPerSfen | app/controllers/games_controller.rb:57-58 | With a consistent index, no two stored positions share an sfen. |
| GraphSpec.ResolveKeeps | app/controllers/games_controller.rb:56-61 | Find-or-create keeps the index consistent and every id below the next one, and does not move or change existing positions. |
| GraphSpec.ResolveKeepsStore | app/controllers/games_controller.rb:56-61 | Find-or-create keeps the whole store consistent. Moves and links that referred to stored positions still do. |
| GraphSpec.ResolveFinds | app/controllers/games_controller.rb:56-61 | Each sfen of the game resolves to the position the index holds for it afterwards. |
| GraphSpec.ResolveIndexes | app/controllers/games_controller.rb:56-59 | The indexed sfens afterwards are the ones indexed before plus the game's own sfens. |
| GraphSpec.ResolveCreates | app/controllers/games_controller.rb:57-58 | A new sfen gets a position holding the sfen, the CSA rendering of its first occurrence, the game's handicap and zero counters. |
| GraphSpec.SameSfenSamePosition | app/controllers/games_controller.rb:56-61 | Equal sfens in a game resolve to the same position, which has that sfen. An sfen already stored resolves to its existing position. |
| GameGraph.Graph.FindOrCreate | app/controllers/games_controller.rb:57-60 | Finding or creating the position of one sfen is exactly one step of `Resolve`. A known sfen returns its stored id and changes nothing. A new sfen gets the next id and a fresh position. |
| GameGraph.Graph.ResolvePositions | app/controllers/games_controller.rb:56-61 | The find-or-create loop leaves the store as `Resolve` describes, keeps the store valid, and returns the id of each sfen. It does not change moves or links. |
| GameGraph.Graph.TouchMove | app/controllers/games_controller.rb:66-80 | One step of the move loop: finds or creates the edge to the next position and counts it if not yet touched. This is exactly one step of the move fold. |
| GameGraph.Graph.TouchPosition | app/controllers/games_controller.rb:82-108 | One step of the position loop: tallies and links the position if not yet touched. This is exactly one step of the position fold and one step of the link fold. |
| GameGraph.Graph.RecordGame | app/controllers/games_controller.rb:62-109 | The recording loop leaves moves, positions and links as the move, position and link folds describe after the whole path. It leaves the sfen index unchanged. |
| GameGraph.Graph.Create | app/controllers/games_controller.rb:21-109 | A malformed string or a refused move leaves the graph unchanged, and in the refused-move case every earlier token was accepted. Otherwise the tokens are the tokenizer's, and there are `\|tokens\| + 1` sfens and CSA renderings, one of each per board (the CSA renderings become the stored `csa` of new positions), and the store is resolved, then recorded, as the folds describe. The store stays valid. |

## Left out

- Checking the game-source password and the handicap id, and building the game record (lines 8-19): this is a lookup in storage. The handicap id and the source category are parameters of `Create`.
- The board (`Board#initial`, `handle_one_move`, `to_sfen`, `to_s`): it is a separate component. It enters as a type parameter with functions, and only the `:normal`/`:toryo` acceptance test is modelled.
- Rendering and the `@error` plumbing. The `render :action => 'error'` at lines 31 and 34 has no `return` after it, and the model treats it as plain rejection of the record.
- The `rescue` that destroys the game on a storage error (lines 110-114): storage never fails in the model.
- Concurrency between submissions: each call of `Create` runs alone on the graph.
- `Appearance.last` (line 103) is taken to be the link row that `positions[i].games << @game` just created.
- `params[:csa]` being absent: the model always receives a string.
- The two "already" hashes key moves by their position-id pair and positions by id. The source keys moves by `move.id`, which is the same thing, because the store holds one move per pair.
- GameGraph.Graph.RecordGame: requires a path of at least two positions. Every accepted record has at least one token, so `Create` always meets this.
- New position ids come from a counter in the graph (`nextId`), not from the database.
