# Rock-paper-scissors match registry

A model of the match registry of a Cartesi rollup application in which two
players play rock-paper-scissors by commit and reveal. The registry is three
pieces of module state in `dapp.py`:

- `challenges`, a dictionary from challenge id to challenge object;
- `player_challenges`, an index from player address to the id of their challenge;
- `next_id`, the id counter.

Three advance handlers change this state. `create_challenge` opens a challenge
and allocates its id. `accept_challenge` puts an opponent into an existing
challenge. `reveal` passes a player's move and nonce on to the challenge. When
both players have revealed, `_delete_challenge` frees both players from the
index. The inspect handler `get_challenges` lists every stored challenge.

## Layout

- `values.dfy` (module `Values`): payload values as a small JSON datatype.
  It gives Python truthiness (`Falsy`) and how a value behaves as a key of an
  int-keyed dictionary (`AsIntKey`). A bool compares equal to 0 or 1, and a
  list or dict raises TypeError.
- `challenge.dfy` (module `Challenges`): the challenge object as far as the
  registry reads it. It has a creator, an id, an opponent slot, one
  `PlayerMove` per player (commitment and, once revealed, the move) and a
  winner. `challenge.py` is not part of this model. So `Challenge(...)` is
  modelled as recording only the creator. `add_opponent`, `reveal`,
  `evaluate_winner` and `Move.move_to_str(int(move))` are abstract: they are
  the fields of a `Behaviour` value, and each returns `None` where the real
  call would raise. `Conforms` states what the registry relies on. A
  successful `add_opponent` puts the sender in the opponent slot. `reveal`
  and `evaluate_winner` do not change who plays. None of the three drops the
  creator. `RefusesTakenSlot` is the further promise that `add_opponent`
  raises when the opponent slot is already filled.
- `registry_spec.dfy` (module `RegistrySpec`): the registry state as a value
  and one step function per handler. Each step gives the new state and the
  handler's verdict. `Accepted` means `True`, `Rejected` means `"reject"`,
  and `Failed` means an exception, caught in `reveal` or escaping
  `accept_challenge`. It also holds the invariant `Consistent`: ids
  0 .. next_id-1 are stored, in that key order, and every index entry names
  a stored challenge. `PlayersIndexed`, `FullyIndexed` and
  `CreatorsCommitted` are the invariants that need assumptions about the
  challenge class. A challenge is `Live` while some index entry names it.
  `FullyIndexed` says that every player of a live challenge is indexed to
  it, and that a challenge with an empty opponent slot has its creator
  indexed to it. It is stated over the two maps as `Covers`.
- `dapp.dfy` (module `Dapp`): class `Registry` with the three globals as
  fields, plus the dictionary's key order as a sequence. Each handler is a
  method that updates the fields in place, as the source does, and is proved
  to end in exactly the state its step function gives. `GetChallenges`
  builds its list in a loop.
- `properties.dfy` (module `RegistryProperties`): lemmas over single requests
  and over sequences of requests (`Run`, `Allocated`).

## Behaviour of the code worth noting

- A resolved challenge is never removed from `challenges`. It is still listed
  by `get_challenges`. A player it freed, its creator included, passes every
  registry check when accepting it again. Only the challenge's `add_opponent`
  decides, and one that refuses a filled opponent slot makes the accept fail.
- `create_challenge` checks the commitment before it checks the index.
- `accept_challenge` has neither a self-challenge check nor a filled-slot
  check. The creator is refused only because creation already put them in
  the index.
- `_delete_challenge` removes the players' index entries whatever ids those
  entries hold.
- If a challenge class let a third player into a filled opponent slot, the
  displaced opponent's stale entry would keep the challenge live after it
  resolves. The properties about live challenges therefore assume
  `RefusesTakenSlot`.

## Model

| member | source | states |
|---|---|---|
| `Dapp.Registry.constructor` | dapp.py:19-21 | The registry starts with no challenges, an empty index and `next_id` 0, and is consistent. |
| `Dapp.Registry.CreateChallenge` | dapp.py:36-56 | Updates the fields to exactly the state `CreateStep` gives and returns its verdict; consistency is kept. |
| `Dapp.Registry.AcceptChallenge` | dapp.py:59-82 | Updates the fields to exactly the state `AcceptStep` gives and returns its verdict; consistency is kept. |
| `Dapp.Registry.Reveal` | dapp.py:85-113 | Updates the fields to exactly the state `RevealStep` gives and returns its verdict; consistency is kept. |
| `Dapp.Registry.DeleteChallenge` | dapp.py:115-120 | Changes only the index, which becomes `WithoutPlayers` of the old index. |
| `Dapp.Registry.GetChallenges` | dapp.py:123-144 | The listing succeeds iff every key in order is stored with its creator's entry. It then has one summary per key, in the dictionary's key order, with the challenge's id, players, winner, opponent-committed flag and both players' moves. |
| `RegistrySpec.WithoutPlayers` | dapp.py:115-120 | Exactly the creator's and the opponent's entries are removed, whatever ids they hold. Every other entry keeps its value. |
| `RegistrySpec.CreateStep` | dapp.py:36-56 | Never raises. Succeeds iff the commitment is truthy and the sender is not indexed. Rejects with no-commitment iff the commitment is falsy. Otherwise rejects with already-in-challenge iff the sender is indexed. A rejection changes nothing. A success stores the new challenge under the old `next_id`, which in a consistent registry was free. It maps the sender to that id and adds one to `next_id`. In a consistent registry every earlier challenge is untouched and the id is appended to the key order. Consistency is kept. |
| `RegistrySpec.AcceptStep` | dapp.py:59-82 | Checks in this order: the id is stored, the commitment is truthy, the sender is not indexed. Each check has its own rejection, and an unhashable id raises before any check. Once all checks pass, it succeeds iff the challenge's `add_opponent` returns, and raises otherwise. Anything but success changes nothing. A success stores what `add_opponent` returned under the id and maps the sender to the id. It leaves every other entry, `next_id`, the key order and every other challenge untouched. Consistency is kept. |
| `RegistrySpec.RevealStep` | dapp.py:85-113 | Rejected iff the sender is not indexed, with no change. It never allocates an id or removes a challenge, and only the sender's challenge can change. The index only loses entries, and only on success. When it changes, it is the old index without the players of the sender's challenge as now stored. Consistency is kept. |
| `RegistrySpec.Summarize` | dapp.py:128-140 | An entry exists iff the challenge holds the creator's commitment entry. It then has the id, creator, opponent, winner and opponent-committed flag. The creator's move is known iff the creator revealed. The opponent's move is known iff there is an opponent who revealed, and it is that player's move. A known opponent move implies the opponent-committed flag. |
| `Challenges.NewChallenge` | dapp.py:50 | A new challenge has its creator as its only player and only commitment entry, holds the commitment unrevealed, has no winner, and is neither opponent-committed nor fully revealed. |
| `Challenges.BothRevealed` | dapp.py:101 | Holds iff the opponent slot is filled and every player has revealed. |
| `Challenges.HasOpponentCommitted` | dapp.py:137 | A challenge in which both players have revealed has its opponent committed. |
| `Values.Falsy` | dapp.py:42 | Python's `not v`, also used at lines 67 and 71. The falsy payload values are exactly null, false, 0, the empty string, the empty list and the empty dict. |
| `Values.AsIntKey` | dapp.py:63-65 | A value finds an int key iff it is an int or a bool. An int finds itself, false finds 0 and true finds 1. The lookup raises iff the value is a list or a dict. |
| `RegistryProperties.StepAdvancesIdOnlyOnCreate` | dapp.py:55 | `next_id` grows by one on a successful creation and on no other request. |
| `RegistryProperties.AllocatedIdsAreFreshAndConsecutive` | dapp.py:50-55 | Over any sequence of requests from a consistent state, the allocated ids are next_id, next_id+1, ... with no gap. None was stored before. Stored ids are never lost, and the end state is consistent. |
| `RegistryProperties.AllocatedIdsStrictlyIncrease` | dapp.py:50-55 | Allocated ids strictly increase, so no id is handed out twice. |
| `RegistryProperties.FromInitialIdsCountFromZero` | dapp.py:19-21 | From the initial state, the k-th successful creation gets id k, and every id below `next_id` is stored. |
| `RegistryProperties.CreatePreservesPlayersIndexed` | dapp.py:50-52 | Creation keeps every index entry pointing at a challenge that player plays in. |
| `RegistryProperties.AcceptPreservesPlayersIndexed` | dapp.py:79-80 | Accepting keeps that property, given a conforming challenge class that refuses a filled opponent slot. |
| `RegistryProperties.RevealPreservesPlayersIndexed` | dapp.py:96-120 | Revealing and resolving keep that property, given a conforming challenge class. |
| `RegistryProperties.RunPreservesPlayersIndexed` | dapp.py:36-120 | The property holds after any sequence of requests, under the same assumptions. |
| `RegistryProperties.RunPreservesCreatorsCommitted` | dapp.py:127-139 | Under a conforming challenge class, every stored challenge keeps its creator's entry. |
| `RegistryProperties.ListingSucceeds` | dapp.py:127-139 | In a consistent registry whose challenges all keep their creator's entry, every key in order is stored and yields a summary. |
| `RegistryProperties.ListingNeverRaises` | dapp.py:123-140 | In every state reached from the initial one under a conforming challenge class, every key in order yields a summary, so the listing never raises. |
| `RegistryProperties.IndexedPlayerCannotAccept` | dapp.py:75-77 | A player in the index can never accept a challenge, and the attempt changes nothing. |
| `RegistryProperties.CreatorCannotAcceptOwnChallenge` | dapp.py:52-77 | Right after creating a challenge, its creator's accept of it is rejected, for a missing commitment or as already in a challenge. |
| `RegistryProperties.CreatePreservesFullyIndexed` | dapp.py:42-52 | Creation keeps every player of a live challenge indexed to it, and every open challenge's creator indexed to it. |
| `RegistryProperties.AcceptPreservesFullyIndexed` | dapp.py:75-80 | Accepting keeps that property, given a conforming challenge class that refuses a filled opponent slot. |
| `RegistryProperties.RevealPreservesFullyIndexed` | dapp.py:96-120 | Revealing and resolving keep that property, given a conforming challenge class. |
| `RegistryProperties.RunPreservesFullyIndexed` | dapp.py:36-120 | Under the same assumptions, consistency and both indexing invariants hold after any sequence of requests. |
| `RegistryProperties.AtMostOneLiveChallenge` | dapp.py:46-52 | In a `FullyIndexed` registry, which every state reached under a conforming class that refuses a filled slot is, a player plays in at most one live challenge. |
| `RegistryProperties.OpenChallengeIsLive` | dapp.py:50-52 | In a `FullyIndexed` registry, which every state reached under a conforming class that refuses a filled slot is, a challenge still waiting for an opponent is live. |
| `RegistryProperties.LiveCreatorCannotAccept` | dapp.py:75-77 | In a `FullyIndexed` registry, which every state reached under a conforming class that refuses a filled slot is, the creator of a live challenge is refused by every accept, whatever id it names, and the attempt changes nothing. |
| `RegistryProperties.CreatorRefusedWhileLive` | dapp.py:52-80 | In every state reached from the initial one, the creator of a live challenge cannot accept it, given a conforming challenge class that refuses a filled slot. |
| `RegistryProperties.ReachedPlayerInAtMostOneLiveChallenge` | dapp.py:46-80 | In every state reached from the initial one, given a conforming challenge class that refuses a filled slot, a player plays in at most one live challenge. |
| `RegistryProperties.CreatorNeverAccepted` | dapp.py:52-80 | In every state reached from the initial one, given a conforming challenge class that refuses a filled slot, the creator of any stored challenge, live or resolved, never gets to accept it. |
| `RegistryProperties.FailedRevealChangesNothing` | dapp.py:96-98 | If the challenge's `reveal` raises, the handler fails and the registry is unchanged. |
| `RegistryProperties.ResolutionFreesBothPlayers` | dapp.py:101-120 | After the last reveal, the creator's and the opponent's entries are gone. Every other entry is as before, and the finished challenge is still stored under its id. |
| `RegistryProperties.UnfinishedRevealIsRecorded` | dapp.py:98-110 | A reveal that the challenge accepts, whose move prints and which leaves a move unrevealed, succeeds. It stores the updated challenge and changes nothing else. |
| `RegistryProperties.UnprintableMoveIsStillRecorded` | dapp.py:97-113 | If the move cannot be printed after a successful reveal, the handler fails. The reveal stays recorded and the index is unchanged. |
| `RegistryProperties.FailedEvaluationKeepsPlayersIndexed` | dapp.py:101-113 | If `evaluate_winner` raises, the handler fails and both players stay in the index. |
| `RegistryProperties.ResolvedChallengeCanBeAcceptedAgain` | dapp.py:65-80 | After resolution, either freed player who accepts the same id passes every registry check. Only the challenge's `add_opponent` decides. |
| `RegistryProperties.ThirdPlayerDisplacesOpponent` | dapp.py:75-80 | If `add_opponent` lets a third player into a filled slot, the accept succeeds. The displaced opponent is then left with an entry for a challenge they no longer play in. |

## Left out

- The internals of the challenge class (`challenge.py`): commitment hashing, the winner rule, `Move.move_to_str` and what `add_opponent`, `reveal` and `evaluate_winner` check. They are the abstract `Behaviour`. The challenge constructor is modelled as recording the creator's commitment only.
- A challenge call that raises is assumed to leave the challenge object as it was. Updates it makes before raising are not modelled.
- The challenge class's `both_revealed()` and `has_opponent_committed()` are modelled as total predicates over the challenge's fields. `has_opponent_committed()` is taken to mean that the opponent slot is filled and the commitments hold an entry for that address. If `both_revealed()` raised on a challenge without an opponent, the handler would return False (dapp.py:111-113) where the model accepts.
- A `Move` entry's `move` is assumed to be None until its player reveals.
- `Challenge(sender, next_id, commitment)` is assumed never to raise. `CreateStep`'s "never raises" rests on this.
- A stored challenge object is assumed truthy (`if not challenge`, dapp.py:67), and so is a present `Move` entry (`opponent_move.move if opponent_move else None`, dapp.py:138), since a class without `__bool__` or `__len__` is.
- Notices, reports, logging and the environment lookup (`add_notice`, `add_report`, `rollup.notice`, `rollup.report`). These are rollup I/O. The message texts and the exception text are presentation only.
- JSON routing, handler registration, `json_payload()` decoding, `json.dumps` output and `dapp.run()`. These are framework plumbing. What the framework does with a rejected or failed request is not modelled. The `GetChallenges` result is the list before it is encoded.
- JSON floats. A float equal to an int would also find that challenge by id.
- `player_challenges[sender] = challenge_id` stores the payload value as given, for example `true` for id 1. The model stores the int it compares equal to, which every later lookup treats the same.
- Addresses are compared as exact strings. Sender authentication belongs to the rollup.
