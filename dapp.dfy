/**
 * The registry as the application keeps it: three module globals updated in
 * place by the request handlers, here the fields of one `Registry` object.
 * Each handler is proved to produce exactly the state and verdict of its
 * step function in RegistrySpec, and to keep the registry consistent.
 */
module Dapp {
  import opened Values
  import opened Challenges
  import opened RegistrySpec

  class Registry {
    var challenges: map<int, Challenge>
    var order: seq<int>                       // the key order of the `challenges` dictionary
    var playerChallenges: map<Address, int>
    var nextId: nat

    function State(): RegistryState
      reads this
    {
      RegistryState(challenges, order, playerChallenges, nextId)
    }

    ghost predicate Valid()
      reads this
    {
      Consistent(State())
    }

    constructor ()
      ensures Valid() && State() == Initial()
    {
      challenges, order, playerChallenges, nextId := map[], [], map[], 0;
    }

    method CreateChallenge(sender: Address, commitment: Json) returns (r: Outcome)
      requires Valid()
      modifies this
      ensures Valid()
      ensures (State(), r) == CreateStep(old(State()), sender, commitment)
    {
      if Falsy(commitment) {
        return Rejected(NoCommitment);
      }
      if sender in playerChallenges {
        return Rejected(AlreadyInChallenge);
      }
      var challenge := NewChallenge(sender, nextId, commitment);
      if nextId !in challenges {
        order := order + [nextId];
      }
      challenges := challenges[nextId := challenge];
      playerChallenges := playerChallenges[sender := nextId];
      nextId := nextId + 1;
      r := Accepted;
    }

    method AcceptChallenge(b: Behaviour, sender: Address, challengeId: Json, commitment: Json)
      returns (r: Outcome)
      requires Valid()
      modifies this
      ensures Valid()
      ensures (State(), r) == AcceptStep(old(State()), b, sender, challengeId, commitment)
    {
      var key := AsIntKey(challengeId);
      if key.Unhashable? {
        return Failed;  // dict.get raises TypeError
      }
      if key.OtherKey? || key.id !in challenges {
        return Rejected(NoSuchChallenge);
      }
      var id := key.id;
      if Falsy(commitment) {
        return Rejected(NoCommitment);
      }
      if sender in playerChallenges {
        return Rejected(AlreadyInChallenge);
      }
      var updated := b.addOpponent(challenges[id], sender, commitment);
      if updated.None? {
        return Failed;
      }
      challenges := challenges[id := updated.value];
      playerChallenges := playerChallenges[sender := id];
      r := Accepted;
    }

    method Reveal(b: Behaviour, sender: Address, move: Json, nonce: Json) returns (r: Outcome)
      requires Valid()
      modifies this
      ensures Valid()
      ensures (State(), r) == RevealStep(old(State()), b, sender, move, nonce)
    {
      if sender !in playerChallenges {
        return Rejected(NoSuchChallenge);
      }
      var id := playerChallenges[sender];
      if id !in challenges {
        return Failed;  // the lookup gives None and the delegated call raises
      }
      var revealed := b.revealMove(challenges[id], sender, move, nonce);
      if revealed.None? {
        return Failed;
      }
      var challenge := revealed.value;
      challenges := challenges[id := challenge];
      if !b.movePrintable(move) {
        return Failed;
      }
      if BothRevealed(challenge) {
        var evaluated := b.evaluateWinner(challenge);
        if evaluated.None? {
          return Failed;
        }
        challenge := evaluated.value;
        challenges := challenges[id := challenge];
        DeleteChallenge(challenge);
        assert State() == old(State()).(challenges := old(challenges)[id := challenge],
                                        playerChallenges := WithoutPlayers(old(playerChallenges), challenge));
      }
      r := Accepted;
    }

    /** Frees the challenge's players from the index; the challenge itself stays stored. */
    method DeleteChallenge(c: Challenge)
      modifies this`playerChallenges
      ensures playerChallenges == WithoutPlayers(old(playerChallenges), c)
    {
      if c.opponent.Some? && c.opponent.value in playerChallenges {
        playerChallenges := playerChallenges - {c.opponent.value};
      }
      if c.creator in playerChallenges {
        playerChallenges := playerChallenges - {c.creator};
      }
    }

    /**
     * The read-only listing: one summary per stored challenge, in the
     * dictionary's key order; None when building an entry would raise.
     */
    method GetChallenges() returns (r: Option<seq<Summary>>)
      ensures r.Some? <==>
        forall i | 0 <= i < |order| :: order[i] in challenges && Summarize(order[i], challenges[order[i]]).Some?
      ensures r.Some? ==>
        && |r.value| == |order|
        && forall i | 0 <= i < |order| ::
             order[i] in challenges && Summarize(order[i], challenges[order[i]]) == Some(r.value[i])
    {
      var list: seq<Summary> := [];
      for i := 0 to |order|
        invariant |list| == i
        invariant forall j | 0 <= j < i ::
          order[j] in challenges && Summarize(order[j], challenges[order[j]]) == Some(list[j])
      {
        var id := order[i];
        if id !in challenges {
          return None;
        }
        var summary := Summarize(id, challenges[id]);
        if summary.None? {
          return None;
        }
        list := list + [summary.value];
      }
      r := Some(list);
    }
  }
}
