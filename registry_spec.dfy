/**
 * The match registry of the rock-paper-scissors rollup application as a value:
 * its three pieces of module state and one function per request handler,
 * giving the new state and the handler's verdict. The `Registry` class in
 * module Dapp is proved to follow these functions step by step.
 */
module RegistrySpec {
  import opened Values
  import opened Challenges

  /** Why a handler answered "reject". */
  datatype Reason = NoCommitment | AlreadyInChallenge | NoSuchChallenge

  /**
   * A handler's verdict: Accepted is `return True`, Rejected is
   * `return "reject"`, Failed is an exception (caught by `reveal`, which then
   * returns False, or escaping from `accept_challenge`).
   */
  datatype Outcome = Accepted | Rejected(reason: Reason) | Failed

  /**
   * `challenges`, the insertion order of its keys, `player_challenges` and
   * `next_id`.
   */
  datatype RegistryState = RegistryState(
    challenges: map<int, Challenge>,
    order: seq<int>,
    playerChallenges: map<Address, int>,
    nextId: nat)

  /** The state at module load: two empty dictionaries and `next_id = 0`. */
  function Initial(): RegistryState {
    RegistryState(map[], [], map[], 0)
  }

  /**
   * The registry invariant that holds whatever the challenge class does:
   * the stored ids are exactly 0 .. nextId-1, inserted in that order, and
   * every index entry names a stored challenge.
   */
  ghost predicate Consistent(s: RegistryState) {
    && |s.order| == s.nextId
    && (forall i | 0 <= i < |s.order| :: s.order[i] == i)
    && (forall id :: id in s.challenges <==> 0 <= id < s.nextId)
    && (forall p | p in s.playerChallenges :: s.playerChallenges[p] in s.challenges)
  }

  /** Every index entry names a challenge in which that address is the creator or the opponent. */
  ghost predicate PlayersIndexed(s: RegistryState) {
    forall p | p in s.playerChallenges ::
      s.playerChallenges[p] in s.challenges && p in Players(s.challenges[s.playerChallenges[p]])
  }

  /** Some index entry names challenge `id`: the challenge is still being played. */
  ghost predicate Live(s: RegistryState, id: int) {
    exists p | p in s.playerChallenges :: s.playerChallenges[p] == id
  }

  /**
   * Every player of a challenge that some entry `q` of `index` names is
   * indexed to it, and a challenge whose opponent slot is empty has its
   * creator indexed to it.
   */
  ghost predicate Covers(challenges: map<int, Challenge>, index: map<Address, int>) {
    && (forall q, p | q in index && index[q] in challenges && p in Players(challenges[index[q]]) ::
          p in index && index[p] == index[q])
    && (forall id | id in challenges && challenges[id].opponent.None? ::
          challenges[id].creator in index && index[challenges[id].creator] == id)
  }

  /**
   * The converse of PlayersIndexed: every player of a live challenge is
   * indexed to it, and a challenge whose opponent slot is empty has its
   * creator indexed to it.
   */
  ghost predicate FullyIndexed(s: RegistryState) {
    Covers(s.challenges, s.playerChallenges)
  }

  /** Every stored challenge still holds its creator's commitment entry. */
  ghost predicate CreatorsCommitted(s: RegistryState) {
    forall id | id in s.challenges :: CreatorCommitted(s.challenges[id])
  }

  /** `_delete_challenge`: drop the opponent's and then the creator's index entry, where present. */
  function WithoutPlayers(index: map<Address, int>, c: Challenge): (r: map<Address, int>)
    ensures r.Keys == index.Keys - Players(c)
    ensures forall p | p in r :: r[p] == index[p]
  {
    var afterOpponent :=
      if c.opponent.Some? && c.opponent.value in index then index - {c.opponent.value} else index;
    if c.creator in afterOpponent then afterOpponent - {c.creator} else afterOpponent
  }

  /** `create_challenge(sender, commitment)`. */
  function CreateStep(s: RegistryState, sender: Address, commitment: Json): (r: (RegistryState, Outcome))
    ensures r.1 != Failed
    ensures r.1 == Accepted <==> !Falsy(commitment) && sender !in s.playerChallenges
    ensures r.1 == Rejected(NoCommitment) <==> Falsy(commitment)
    ensures r.1 == Rejected(AlreadyInChallenge) <==> !Falsy(commitment) && sender in s.playerChallenges
    ensures r.1.Rejected? ==> r.0 == s
    ensures r.1.Accepted? ==>
      && r.0.nextId == s.nextId + 1
      && r.0.playerChallenges == s.playerChallenges[sender := s.nextId]
      && r.0.challenges.Keys == s.challenges.Keys + {s.nextId}
      && r.0.challenges[s.nextId] == NewChallenge(sender, s.nextId, commitment)
    ensures Consistent(s) ==> Consistent(r.0)
    ensures Consistent(s) && r.1.Accepted? ==>
      && s.nextId !in s.challenges
      && (forall id | id in s.challenges :: r.0.challenges[id] == s.challenges[id])
      && r.0.order == s.order + [s.nextId]
  {
    if Falsy(commitment) then (s, Rejected(NoCommitment))
    else if sender in s.playerChallenges then (s, Rejected(AlreadyInChallenge))
    else
      var id := s.nextId;
      var order := if id in s.challenges then s.order else s.order + [id];
      (RegistryState(s.challenges[id := NewChallenge(sender, id, commitment)],
                     order,
                     s.playerChallenges[sender := id],
                     s.nextId + 1),
       Accepted)
  }

  /** The payload's challenge id names a stored challenge. */
  predicate Stored(s: RegistryState, challengeId: Json) {
    AsIntKey(challengeId).IntKey? && AsIntKey(challengeId).id in s.challenges
  }

  /** `accept_challenge(sender, challenge_id, commitment)`. */
  function AcceptStep(s: RegistryState, b: Behaviour, sender: Address, challengeId: Json, commitment: Json)
    : (r: (RegistryState, Outcome))
    ensures !r.1.Accepted? ==> r.0 == s
    ensures r.1 == Failed <==>
      || AsIntKey(challengeId).Unhashable?
      || (&& Stored(s, challengeId) && !Falsy(commitment) && sender !in s.playerChallenges
          && b.addOpponent(s.challenges[AsIntKey(challengeId).id], sender, commitment).None?)
    ensures r.1 == Accepted <==>
      && Stored(s, challengeId) && !Falsy(commitment) && sender !in s.playerChallenges
      && b.addOpponent(s.challenges[AsIntKey(challengeId).id], sender, commitment).Some?
    ensures r.1 == Rejected(NoSuchChallenge) <==> !AsIntKey(challengeId).Unhashable? && !Stored(s, challengeId)
    ensures r.1 == Rejected(NoCommitment) <==> Stored(s, challengeId) && Falsy(commitment)
    ensures r.1 == Rejected(AlreadyInChallenge) <==>
      Stored(s, challengeId) && !Falsy(commitment) && sender in s.playerChallenges
    ensures r.1.Accepted? ==>
      && Stored(s, challengeId)
      && sender !in s.playerChallenges
      && r.0.playerChallenges == s.playerChallenges[sender := AsIntKey(challengeId).id]
      && r.0.nextId == s.nextId
      && r.0.order == s.order
      && r.0.challenges.Keys == s.challenges.Keys
      && (forall id | id in s.challenges && id != AsIntKey(challengeId).id :: r.0.challenges[id] == s.challenges[id])
      && r.0.challenges[AsIntKey(challengeId).id] ==
         b.addOpponent(s.challenges[AsIntKey(challengeId).id], sender, commitment).value
    ensures Consistent(s) ==> Consistent(r.0)
  {
    var key := AsIntKey(challengeId);
    if key.Unhashable? then (s, Failed)
    else if key.OtherKey? || key.id !in s.challenges then (s, Rejected(NoSuchChallenge))
    else if Falsy(commitment) then (s, Rejected(NoCommitment))
    else if sender in s.playerChallenges then (s, Rejected(AlreadyInChallenge))
    else
      match b.addOpponent(s.challenges[key.id], sender, commitment)
      case None => (s, Failed)
      case Some(c) =>
        (s.(challenges := s.challenges[key.id := c],
            playerChallenges := s.playerChallenges[sender := key.id]),
         Accepted)
  }

  /** `reveal(sender, move, nonce)`. */
  function RevealStep(s: RegistryState, b: Behaviour, sender: Address, move: Json, nonce: Json)
    : (r: (RegistryState, Outcome))
    ensures r.1.Rejected? <==> sender !in s.playerChallenges
    ensures r.1.Rejected? ==> r.0 == s && r.1 == Rejected(NoSuchChallenge)
    ensures r.0.nextId == s.nextId && r.0.order == s.order && r.0.challenges.Keys == s.challenges.Keys
    ensures forall id | id in s.challenges && (sender !in s.playerChallenges || id != s.playerChallenges[sender]) ::
      r.0.challenges[id] == s.challenges[id]
    ensures r.0.playerChallenges.Keys <= s.playerChallenges.Keys
    ensures forall p | p in r.0.playerChallenges :: r.0.playerChallenges[p] == s.playerChallenges[p]
    ensures r.0.playerChallenges != s.playerChallenges ==>
      && r.1.Accepted?
      && sender in s.playerChallenges
      && s.playerChallenges[sender] in r.0.challenges
      && r.0.playerChallenges == WithoutPlayers(s.playerChallenges, r.0.challenges[s.playerChallenges[sender]])
    ensures Consistent(s) ==> Consistent(r.0)
  {
    if sender !in s.playerChallenges then (s, Rejected(NoSuchChallenge))
    else
      var id := s.playerChallenges[sender];
      if id !in s.challenges then (s, Failed)
      else
        match b.revealMove(s.challenges[id], sender, move, nonce)
        case None => (s, Failed)
        case Some(revealed) =>
          var afterReveal := s.(challenges := s.challenges[id := revealed]);
          if !b.movePrintable(move) then (afterReveal, Failed)
          else if !BothRevealed(revealed) then (afterReveal, Accepted)
          else
            match b.evaluateWinner(revealed)
            case None => (afterReveal, Failed)
            case Some(finished) =>
              (s.(challenges := s.challenges[id := finished],
                  playerChallenges := WithoutPlayers(s.playerChallenges, finished)),
               Accepted)
  }

  /** One element of the `get_challenges` report. */
  datatype Summary = Summary(
    challengeId: int,
    creator: Address,
    opponent: Option<Address>,
    winner: Option<Address>,
    opponentCommitted: bool,
    opponentMove: Option<Json>,
    creatorMove: Option<Json>)

  /**
   * The report entry for challenge `id`; None when the creator's entry is
   * missing, where `creator_move.move` would raise.
   */
  function Summarize(id: int, c: Challenge): (r: Option<Summary>)
    ensures r.Some? <==> CreatorCommitted(c)
    ensures r.Some? ==>
      && r.value.challengeId == id
      && r.value.creator == c.creator
      && r.value.opponent == c.opponent
      && r.value.winner == c.winner
      && r.value.opponentCommitted == HasOpponentCommitted(c)
      && (r.value.opponentMove.Some? ==> r.value.opponentCommitted)
      && r.value.creatorMove == c.commitments[c.creator].move
      && (r.value.creatorMove.Some? <==> Revealed(c, c.creator))
      && (r.value.opponentMove.Some? <==> c.opponent.Some? && Revealed(c, c.opponent.value))
      && (r.value.opponentMove.Some? ==> r.value.opponentMove == c.commitments[c.opponent.value].move)
  {
    if !CreatorCommitted(c) then None
    else
      var opponentMove :=
        if c.opponent.Some? && c.opponent.value in c.commitments then c.commitments[c.opponent.value].move
        else None;
      Some(Summary(id, c.creator, c.opponent, c.winner, HasOpponentCommitted(c),
                   opponentMove, c.commitments[c.creator].move))
  }
}
