/**
 * The `Challenge` object the registry stores, seen from the registry.
 *
 * Its class is not part of this model, so only what the registry reads is
 * represented: the creator, the id, the opponent slot, one entry per player
 * holding their commitment and (once revealed) their move, and the winner.
 * The constructor is modelled as recording the creator alone; the three
 * methods the registry calls and the move-rendering helper are left abstract
 * as a `Behaviour`, each returning None when the call would raise.
 */
module Challenges {
  import opened Values

  /** A message sender's address. */
  type Address = string

  /** One player's `Move` entry in `commitments`: what they committed and, once revealed, their move. */
  datatype PlayerMove = PlayerMove(commitment: Json, move: Option<Json>)

  datatype Challenge = Challenge(
    creator: Address,
    id: int,
    opponent: Option<Address>,
    commitments: map<Address, PlayerMove>,
    winner: Option<Address>)

  /** `Challenge(sender, next_id, commitment)`: an open challenge holding only the creator's commitment. */
  function NewChallenge(creator: Address, id: int, commitment: Json): (c: Challenge)
    ensures c.creator == creator && c.id == id && c.winner.None?
    ensures Players(c) == {creator} && c.commitments.Keys == {creator}
    ensures c.commitments[creator].commitment == commitment && !Revealed(c, creator)
    ensures CreatorCommitted(c) && !HasOpponentCommitted(c) && !BothRevealed(c)
  {
    Challenge(creator, id, None, map[creator := PlayerMove(commitment, None)], None)
  }

  /** The addresses `_delete_challenge` frees: the creator and, if set, the opponent. */
  function Players(c: Challenge): set<Address> {
    {c.creator} + (if c.opponent.Some? then {c.opponent.value} else {})
  }

  predicate Revealed(c: Challenge, p: Address) {
    p in c.commitments && c.commitments[p].move.Some?
  }

  /** `both_revealed()`: the opponent slot is filled and both players' moves are known. */
  predicate BothRevealed(c: Challenge)
    ensures BothRevealed(c) <==> c.opponent.Some? && forall p | p in Players(c) :: Revealed(c, p)
  {
    c.opponent.Some? && Revealed(c, c.creator) && Revealed(c, c.opponent.value)
  }

  /** `has_opponent_committed()`. */
  predicate HasOpponentCommitted(c: Challenge)
    ensures BothRevealed(c) ==> HasOpponentCommitted(c)
  {
    c.opponent.Some? && c.opponent.value in c.commitments
  }

  /** The challenge carries what `get_challenges` dereferences without a check: the creator's entry. */
  predicate CreatorCommitted(c: Challenge) {
    c.creator in c.commitments
  }

  /**
   * The calls the registry makes into the challenge class, as functions of
   * the object before the call; None stands for a raised exception.
   *   addOpponent    — `challenge.add_opponent(sender, commitment)`
   *   revealMove     — `challenge.reveal(sender, move, nonce)`
   *   evaluateWinner — `challenge.evaluate_winner()`
   *   movePrintable  — whether `Move.move_to_str(int(move))` evaluates without raising
   */
  datatype Behaviour = Behaviour(
    addOpponent: (Challenge, Address, Json) -> Option<Challenge>,
    revealMove: (Challenge, Address, Json, Json) -> Option<Challenge>,
    evaluateWinner: Challenge -> Option<Challenge>,
    movePrintable: Json -> bool)

  /** d keeps c's creator and, if c had it, the creator's commitment entry. */
  predicate KeepsCreator(c: Challenge, d: Challenge) {
    d.creator == c.creator && (CreatorCommitted(c) ==> CreatorCommitted(d))
  }

  /**
   * The contract the registry relies on: adding an opponent fills the
   * opponent slot with the sender; revealing and evaluating never change who
   * plays; none of them drops the creator.
   */
  ghost predicate Conforms(b: Behaviour) {
    && (forall c, p, cm :: b.addOpponent(c, p, cm).Some? ==>
          KeepsCreator(c, b.addOpponent(c, p, cm).value) && b.addOpponent(c, p, cm).value.opponent == Some(p))
    && (forall c, p, m, n :: b.revealMove(c, p, m, n).Some? ==>
          KeepsCreator(c, b.revealMove(c, p, m, n).value) && b.revealMove(c, p, m, n).value.opponent == c.opponent)
    && (forall c :: b.evaluateWinner(c).Some? ==>
          KeepsCreator(c, b.evaluateWinner(c).value) && b.evaluateWinner(c).value.opponent == c.opponent)
  }

  /** The further promise that `add_opponent` raises when the opponent slot is already filled. */
  ghost predicate RefusesTakenSlot(b: Behaviour) {
    forall c, p, cm :: b.addOpponent(c, p, cm).Some? ==> c.opponent.None?
  }
}
