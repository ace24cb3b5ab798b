/**
 * Properties of the registry over single requests and over whole sequences
 * of requests: id allocation, the invariants it keeps, what a resolution
 * does, and the behaviours the handlers allow that callers may not expect.
 */
module RegistryProperties {
  import opened Values
  import opened Challenges
  import opened RegistrySpec

  /** One advance request, as routed to its handler. */
  datatype Request =
    | Create(sender: Address, commitment: Json)
    | Accept(sender: Address, challengeId: Json, commitment: Json)
    | Reveal(sender: Address, move: Json, nonce: Json)

  function Step(s: RegistryState, b: Behaviour, q: Request): (RegistryState, Outcome) {
    match q
    case Create(sender, commitment) => CreateStep(s, sender, commitment)
    case Accept(sender, challengeId, commitment) => AcceptStep(s, b, sender, challengeId, commitment)
    case Reveal(sender, move, nonce) => RevealStep(s, b, sender, move, nonce)
  }

  /** The state after handling the requests in order. */
  function Run(s: RegistryState, b: Behaviour, qs: seq<Request>): RegistryState
    decreases |qs|
  {
    if qs == [] then s else Run(Step(s, b, qs[0]).0, b, qs[1..])
  }

  /** The ids handed out by the successful `create_challenge` requests among qs, in order. */
  function Allocated(s: RegistryState, b: Behaviour, qs: seq<Request>): seq<int>
    decreases |qs|
  {
    if qs == [] then []
    else
      var (t, outcome) := Step(s, b, qs[0]);
      (if qs[0].Create? && outcome.Accepted? then [s.nextId] else []) + Allocated(t, b, qs[1..])
  }

  /** Only a successful creation moves `next_id`, and by exactly one. */
  lemma StepAdvancesIdOnlyOnCreate(s: RegistryState, b: Behaviour, q: Request)
    ensures Step(s, b, q).0.nextId ==
            if q.Create? && Step(s, b, q).1.Accepted? then s.nextId + 1 else s.nextId
  {
  }

  /**
   * From a consistent state, the ids allocated by any sequence of requests
   * are next_id, next_id+1, ... with no gap and no repetition, none of them
   * was stored before, stored challenges are never removed, and the final
   * state is consistent.
   */
  lemma {:induction false} AllocatedIdsAreFreshAndConsecutive(s: RegistryState, b: Behaviour, qs: seq<Request>)
    requires Consistent(s)
    ensures Consistent(Run(s, b, qs))
    ensures |Allocated(s, b, qs)| == Run(s, b, qs).nextId - s.nextId
    ensures forall i | 0 <= i < |Allocated(s, b, qs)| :: Allocated(s, b, qs)[i] == s.nextId + i
    ensures forall i | 0 <= i < |Allocated(s, b, qs)| :: Allocated(s, b, qs)[i] !in s.challenges
    ensures s.challenges.Keys <= Run(s, b, qs).challenges.Keys
    decreases |qs|
  {
    if qs != [] {
      var (t, outcome) := Step(s, b, qs[0]);
      StepAdvancesIdOnlyOnCreate(s, b, qs[0]);
      AllocatedIdsAreFreshAndConsecutive(t, b, qs[1..]);
    }
  }

  /** Ids are strictly increasing, so none is handed out twice. */
  lemma AllocatedIdsStrictlyIncrease(s: RegistryState, b: Behaviour, qs: seq<Request>)
    requires Consistent(s)
    ensures forall i, j | 0 <= i < j < |Allocated(s, b, qs)| :: Allocated(s, b, qs)[i] < Allocated(s, b, qs)[j]
  {
    AllocatedIdsAreFreshAndConsecutive(s, b, qs);
  }

  /** From the initial state, the k-th successful creation gets id k, and ids 0 .. next_id-1 are all stored. */
  lemma FromInitialIdsCountFromZero(b: Behaviour, qs: seq<Request>)
    ensures var t := Run(Initial(), b, qs);
      && Consistent(t)
      && |Allocated(Initial(), b, qs)| == t.nextId
      && (forall i | 0 <= i < t.nextId :: Allocated(Initial(), b, qs)[i] == i && i in t.challenges)
  {
    AllocatedIdsAreFreshAndConsecutive(Initial(), b, qs);
  }

  // ---------------------------------------------------------------------
  // The index names only challenges its entries play in

  lemma CreatePreservesPlayersIndexed(s: RegistryState, sender: Address, commitment: Json)
    requires Consistent(s) && PlayersIndexed(s)
    ensures PlayersIndexed(CreateStep(s, sender, commitment).0)
  {
  }

  /** Holds only if `add_opponent` refuses a filled slot; see ThirdPlayerDisplacesOpponent. */
  lemma AcceptPreservesPlayersIndexed(s: RegistryState, b: Behaviour, sender: Address, challengeId: Json, commitment: Json)
    requires Consistent(s) && PlayersIndexed(s) && Conforms(b) && RefusesTakenSlot(b)
    ensures PlayersIndexed(AcceptStep(s, b, sender, challengeId, commitment).0)
  {
  }

  lemma RevealPreservesPlayersIndexed(s: RegistryState, b: Behaviour, sender: Address, move: Json, nonce: Json)
    requires Consistent(s) && PlayersIndexed(s) && Conforms(b)
    ensures PlayersIndexed(RevealStep(s, b, sender, move, nonce).0)
  {
  }

  lemma {:induction false} RunPreservesPlayersIndexed(s: RegistryState, b: Behaviour, qs: seq<Request>)
    requires Consistent(s) && PlayersIndexed(s) && Conforms(b) && RefusesTakenSlot(b)
    ensures PlayersIndexed(Run(s, b, qs))
    decreases |qs|
  {
    if qs != [] {
      var t := Step(s, b, qs[0]).0;
      match qs[0] {
        case Create(sender, commitment) => CreatePreservesPlayersIndexed(s, sender, commitment);
        case Accept(sender, challengeId, commitment) => AcceptPreservesPlayersIndexed(s, b, sender, challengeId, commitment);
        case Reveal(sender, move, nonce) => RevealPreservesPlayersIndexed(s, b, sender, move, nonce);
      }
      RunPreservesPlayersIndexed(t, b, qs[1..]);
    }
  }

  /** Under a conforming challenge class, every stored challenge keeps its creator's entry (see ListingNeverRaises). */
  lemma {:induction false} RunPreservesCreatorsCommitted(s: RegistryState, b: Behaviour, qs: seq<Request>)
    requires Consistent(s) && CreatorsCommitted(s) && Conforms(b)
    ensures CreatorsCommitted(Run(s, b, qs))
    decreases |qs|
  {
    if qs != [] {
      var t := Step(s, b, qs[0]).0;
      assert CreatorsCommitted(t);
      RunPreservesCreatorsCommitted(t, b, qs[1..]);
    }
  }

  /** A consistent registry whose challenges all hold their creator's entry can always be listed. */
  lemma ListingSucceeds(s: RegistryState)
    requires Consistent(s) && CreatorsCommitted(s)
    ensures forall i | 0 <= i < |s.order| :: s.order[i] in s.challenges && Summarize(s.order[i], s.challenges[s.order[i]]).Some?
  {
  }

  /** In every state reached from the initial one under a conforming challenge class, the listing never raises. */
  lemma ListingNeverRaises(b: Behaviour, qs: seq<Request>)
    requires Conforms(b)
    ensures var t := Run(Initial(), b, qs);
      forall i | 0 <= i < |t.order| :: t.order[i] in t.challenges && Summarize(t.order[i], t.challenges[t.order[i]]).Some?
  {
    AllocatedIdsAreFreshAndConsecutive(Initial(), b, qs);
    RunPreservesCreatorsCommitted(Initial(), b, qs);
    ListingSucceeds(Run(Initial(), b, qs));
  }

  // ---------------------------------------------------------------------
  // The players of a live challenge are indexed to it

  lemma CreatePreservesFullyIndexed(s: RegistryState, sender: Address, commitment: Json)
    requires Consistent(s) && PlayersIndexed(s) && FullyIndexed(s)
    ensures FullyIndexed(CreateStep(s, sender, commitment).0)
  {
  }

  lemma AcceptPreservesFullyIndexed(s: RegistryState, b: Behaviour, sender: Address, challengeId: Json, commitment: Json)
    requires Consistent(s) && PlayersIndexed(s) && FullyIndexed(s) && Conforms(b) && RefusesTakenSlot(b)
    ensures FullyIndexed(AcceptStep(s, b, sender, challengeId, commitment).0)
  {
  }

  /** Replacing one stored challenge by one with the same players and opponent slot, index untouched. */
  lemma ReplacingKeepsFullyIndexed(s: RegistryState, key: int, d: Challenge)
    requires PlayersIndexed(s) && FullyIndexed(s) && key in s.challenges
    requires Players(d) == Players(s.challenges[key]) && d.creator == s.challenges[key].creator
    requires d.opponent == s.challenges[key].opponent
    ensures PlayersIndexed(s.(challenges := s.challenges[key := d]))
    ensures FullyIndexed(s.(challenges := s.challenges[key := d]))
  {
  }

  /** Dropping the players of a live challenge whose opponent slot is filled from the index. */
  lemma FreeingKeepsFullyIndexed(s: RegistryState, key: int)
    requires PlayersIndexed(s) && FullyIndexed(s) && key in s.challenges && Live(s, key)
    requires s.challenges[key].opponent.Some?
    ensures FullyIndexed(s.(playerChallenges := WithoutPlayers(s.playerChallenges, s.challenges[key])))
  {
    var index := WithoutPlayers(s.playerChallenges, s.challenges[key]);
    EntriesOfLiveChallenge(s, key);
    assert forall p :: p in index <==> p in s.playerChallenges && s.playerChallenges[p] != key;
    DroppingEntriesKeepsCovers(s.challenges, s.playerChallenges, key, index);
  }

  /** Dropping every entry that names one challenge, with its opponent slot filled, keeps the index covering. */
  lemma DroppingEntriesKeepsCovers(cs: map<int, Challenge>, before: map<Address, int>, key: int,
                                   index: map<Address, int>)
    requires Covers(cs, before) && key in cs && cs[key].opponent.Some?
    requires forall p :: p in index <==> p in before && before[p] != key
    requires forall p | p in index :: index[p] == before[p]
    ensures Covers(cs, index)
  {
  }

  /** The entries that name a live challenge are exactly its players'. */
  lemma EntriesOfLiveChallenge(s: RegistryState, key: int)
    requires PlayersIndexed(s) && FullyIndexed(s) && key in s.challenges && Live(s, key)
    ensures forall p | p in s.playerChallenges :: s.playerChallenges[p] == key <==> p in Players(s.challenges[key])
  {
    var w :| w in s.playerChallenges && s.playerChallenges[w] == key;
  }

  lemma RevealPreservesFullyIndexed(s: RegistryState, b: Behaviour, sender: Address, move: Json, nonce: Json)
    requires Consistent(s) && PlayersIndexed(s) && FullyIndexed(s) && Conforms(b)
    ensures FullyIndexed(RevealStep(s, b, sender, move, nonce).0)
  {
    if sender in s.playerChallenges {
      var key := s.playerChallenges[sender];
      var c := s.challenges[key];
      var revealed := b.revealMove(c, sender, move, nonce);
      if revealed.Some? {
        assert Players(revealed.value) == Players(c);
        ReplacingKeepsFullyIndexed(s, key, revealed.value);
        if b.movePrintable(move) && BothRevealed(revealed.value) && b.evaluateWinner(revealed.value).Some? {
          var finished := b.evaluateWinner(revealed.value).value;
          var replaced := s.(challenges := s.challenges[key := finished]);
          assert Players(finished) == Players(c);
          ReplacingKeepsFullyIndexed(s, key, finished);
          assert Live(replaced, key) by { assert replaced.playerChallenges[sender] == key; }
          FreeingKeepsFullyIndexed(replaced, key);
          assert RevealStep(s, b, sender, move, nonce).0 ==
                 replaced.(playerChallenges := WithoutPlayers(replaced.playerChallenges, finished));
        }
      }
    }
  }

  lemma {:induction false} RunPreservesFullyIndexed(s: RegistryState, b: Behaviour, qs: seq<Request>)
    requires Consistent(s) && PlayersIndexed(s) && FullyIndexed(s) && Conforms(b) && RefusesTakenSlot(b)
    ensures Consistent(Run(s, b, qs)) && PlayersIndexed(Run(s, b, qs)) && FullyIndexed(Run(s, b, qs))
    decreases |qs|
  {
    if qs != [] {
      var t := Step(s, b, qs[0]).0;
      match qs[0] {
        case Create(sender, commitment) =>
          CreatePreservesPlayersIndexed(s, sender, commitment);
          CreatePreservesFullyIndexed(s, sender, commitment);
        case Accept(sender, challengeId, commitment) =>
          AcceptPreservesPlayersIndexed(s, b, sender, challengeId, commitment);
          AcceptPreservesFullyIndexed(s, b, sender, challengeId, commitment);
        case Reveal(sender, move, nonce) =>
          RevealPreservesPlayersIndexed(s, b, sender, move, nonce);
          RevealPreservesFullyIndexed(s, b, sender, move, nonce);
      }
      RunPreservesFullyIndexed(t, b, qs[1..]);
    }
  }

  /** A player plays in at most one live challenge. */
  lemma AtMostOneLiveChallenge(s: RegistryState, p: Address, id1: int, id2: int)
    requires FullyIndexed(s)
    requires id1 in s.challenges && Live(s, id1) && p in Players(s.challenges[id1])
    requires id2 in s.challenges && Live(s, id2) && p in Players(s.challenges[id2])
    ensures id1 == id2
  {
    assert s.playerChallenges[p] == id1;
    assert s.playerChallenges[p] == id2;
  }

  /** The creator of a live challenge is refused by every accept, whatever challenge it names. */
  lemma LiveCreatorCannotAccept(s: RegistryState, b: Behaviour, id: int, challengeId: Json, commitment: Json)
    requires FullyIndexed(s)
    requires id in s.challenges && Live(s, id)
    ensures AcceptStep(s, b, s.challenges[id].creator, challengeId, commitment).0 == s
    ensures AcceptStep(s, b, s.challenges[id].creator, challengeId, commitment).1 != Accepted
  {
  }

  /**
   * In every state reached from the initial one, the creator of a challenge
   * that is still live (in particular one still open for an opponent) cannot
   * accept it, given a conforming challenge class that refuses a filled slot.
   */
  lemma CreatorRefusedWhileLive(b: Behaviour, qs: seq<Request>, id: int, commitment: Json)
    requires Conforms(b) && RefusesTakenSlot(b)
    requires var t := Run(Initial(), b, qs); id in t.challenges && Live(t, id)
    ensures var t := Run(Initial(), b, qs);
      AcceptStep(t, b, t.challenges[id].creator, JInt(id), commitment).1 != Accepted
  {
    RunPreservesFullyIndexed(Initial(), b, qs);
    LiveCreatorCannotAccept(Run(Initial(), b, qs), b, id, JInt(id), commitment);
  }

  /**
   * In every state reached from the initial one, given a conforming challenge
   * class that refuses a filled slot, a player plays in at most one live challenge.
   */
  lemma ReachedPlayerInAtMostOneLiveChallenge(b: Behaviour, qs: seq<Request>, p: Address, id1: int, id2: int)
    requires Conforms(b) && RefusesTakenSlot(b)
    requires var t := Run(Initial(), b, qs);
      && id1 in t.challenges && Live(t, id1) && p in Players(t.challenges[id1])
      && id2 in t.challenges && Live(t, id2) && p in Players(t.challenges[id2])
    ensures id1 == id2
  {
    RunPreservesFullyIndexed(Initial(), b, qs);
    AtMostOneLiveChallenge(Run(Initial(), b, qs), p, id1, id2);
  }

  /**
   * In every state reached from the initial one, given a conforming challenge
   * class that refuses a filled slot, the creator of a stored challenge never
   * gets to accept it: while it is live the index refuses them, and once it is
   * resolved its opponent slot is filled, so `add_opponent` raises.
   */
  lemma CreatorNeverAccepted(b: Behaviour, qs: seq<Request>, id: int, commitment: Json)
    requires Conforms(b) && RefusesTakenSlot(b)
    requires id in Run(Initial(), b, qs).challenges
    ensures var t := Run(Initial(), b, qs);
      AcceptStep(t, b, t.challenges[id].creator, JInt(id), commitment).1 != Accepted
  {
    RunPreservesFullyIndexed(Initial(), b, qs);
  }

  /** A challenge whose opponent slot is empty is live. */
  lemma OpenChallengeIsLive(s: RegistryState, id: int)
    requires FullyIndexed(s) && id in s.challenges && s.challenges[id].opponent.None?
    ensures Live(s, id)
  {
  }

  // ---------------------------------------------------------------------
  // One request at a time

  /** While a player is in the index, `accept_challenge` never succeeds for them. */
  lemma IndexedPlayerCannotAccept(s: RegistryState, b: Behaviour, sender: Address, challengeId: Json, commitment: Json)
    requires sender in s.playerChallenges
    ensures AcceptStep(s, b, sender, challengeId, commitment).0 == s
    ensures AcceptStep(s, b, sender, challengeId, commitment).1 != Accepted
  {
  }

  /**
   * Right after creating a challenge, its creator is refused when accepting it.
   * CreatorRefusedWhileLive extends this to every later state in which the
   * challenge is still live.
   */
  lemma CreatorCannotAcceptOwnChallenge(s: RegistryState, b: Behaviour, creator: Address, commitment: Json, commitment': Json)
    requires Consistent(s)
    requires CreateStep(s, creator, commitment).1.Accepted?
    ensures var t := CreateStep(s, creator, commitment).0;
      AcceptStep(t, b, creator, JInt(s.nextId), commitment') ==
        (t, if Falsy(commitment') then Rejected(NoCommitment) else Rejected(AlreadyInChallenge))
  {
  }

  /** A raising `Challenge.reveal` leaves the whole registry as it was. */
  lemma FailedRevealChangesNothing(s: RegistryState, b: Behaviour, sender: Address, move: Json, nonce: Json)
    requires Consistent(s) && sender in s.playerChallenges
    requires b.revealMove(s.challenges[s.playerChallenges[sender]], sender, move, nonce).None?
    ensures RevealStep(s, b, sender, move, nonce) == (s, Failed)
  {
  }

  /**
   * A reveal that the challenge accepts and that does not complete it is
   * recorded in the stored challenge, succeeds, and leaves the index as it was.
   */
  lemma UnfinishedRevealIsRecorded(s: RegistryState, b: Behaviour, sender: Address, move: Json, nonce: Json,
                                   revealed: Challenge)
    requires Consistent(s) && sender in s.playerChallenges
    requires b.revealMove(s.challenges[s.playerChallenges[sender]], sender, move, nonce) == Some(revealed)
    requires b.movePrintable(move) && !BothRevealed(revealed)
    ensures RevealStep(s, b, sender, move, nonce) ==
      (s.(challenges := s.challenges[s.playerChallenges[sender] := revealed]), Accepted)
  {
  }

  /**
   * The second reveal resolves the challenge: its creator's and opponent's
   * index entries go, every other entry stays, and the finished challenge is
   * still stored under its id.
   */
  lemma ResolutionFreesBothPlayers(s: RegistryState, b: Behaviour, sender: Address, move: Json, nonce: Json,
                                   revealed: Challenge, finished: Challenge)
    requires Consistent(s) && sender in s.playerChallenges
    requires b.revealMove(s.challenges[s.playerChallenges[sender]], sender, move, nonce) == Some(revealed)
    requires b.movePrintable(move) && BothRevealed(revealed)
    requires b.evaluateWinner(revealed) == Some(finished)
    ensures var (t, outcome) := RevealStep(s, b, sender, move, nonce);
      && outcome == Accepted
      && t.playerChallenges.Keys == s.playerChallenges.Keys - Players(finished)
      && (forall p | p in t.playerChallenges :: t.playerChallenges[p] == s.playerChallenges[p])
      && s.playerChallenges[sender] in t.challenges
      && t.challenges[s.playerChallenges[sender]] == finished
  {
  }

  /**
   * A reveal that the challenge accepts but whose move cannot be printed is
   * recorded in the challenge, yet the handler fails and nothing is deleted.
   */
  lemma UnprintableMoveIsStillRecorded(s: RegistryState, b: Behaviour, sender: Address, move: Json, nonce: Json,
                                       revealed: Challenge)
    requires Consistent(s) && sender in s.playerChallenges
    requires b.revealMove(s.challenges[s.playerChallenges[sender]], sender, move, nonce) == Some(revealed)
    requires !b.movePrintable(move)
    ensures var (t, outcome) := RevealStep(s, b, sender, move, nonce);
      && outcome == Failed
      && t.challenges == s.challenges[s.playerChallenges[sender] := revealed]
      && t.playerChallenges == s.playerChallenges
  {
  }

  /** If `evaluate_winner` raises after the last reveal, both players stay in the index. */
  lemma FailedEvaluationKeepsPlayersIndexed(s: RegistryState, b: Behaviour, sender: Address, move: Json, nonce: Json,
                                            revealed: Challenge)
    requires Consistent(s) && sender in s.playerChallenges
    requires b.revealMove(s.challenges[s.playerChallenges[sender]], sender, move, nonce) == Some(revealed)
    requires b.movePrintable(move) && BothRevealed(revealed) && b.evaluateWinner(revealed).None?
    ensures var (t, outcome) := RevealStep(s, b, sender, move, nonce);
      outcome == Failed && t.playerChallenges == s.playerChallenges
  {
  }

  /**
   * A resolved challenge is never removed, so any player it freed (its
   * creator included) passes every registry check when accepting it again:
   * only the challenge class can refuse.
   */
  lemma ResolvedChallengeCanBeAcceptedAgain(s: RegistryState, b: Behaviour, sender: Address, move: Json, nonce: Json,
                                            revealed: Challenge, finished: Challenge, p: Address, commitment: Json)
    requires Consistent(s) && sender in s.playerChallenges
    requires b.revealMove(s.challenges[s.playerChallenges[sender]], sender, move, nonce) == Some(revealed)
    requires b.movePrintable(move) && BothRevealed(revealed)
    requires b.evaluateWinner(revealed) == Some(finished)
    requires p in Players(finished) && !Falsy(commitment)
    ensures var t := RevealStep(s, b, sender, move, nonce).0;
      var id := s.playerChallenges[sender];
      AcceptStep(t, b, p, JInt(id), commitment).1 ==
        if b.addOpponent(finished, p, commitment).Some? then Accepted else Failed
  {
    ResolutionFreesBothPlayers(s, b, sender, move, nonce, revealed, finished);
  }

  /**
   * `accept_challenge` does not look at the opponent slot. If the challenge
   * class lets a third player in, the displaced opponent keeps an index
   * entry for a challenge they no longer play in.
   */
  lemma ThirdPlayerDisplacesOpponent(s: RegistryState, b: Behaviour, id: int, sender: Address, commitment: Json)
    requires Consistent(s) && Conforms(b)
    requires id in s.challenges && s.challenges[id].opponent.Some?
    requires var opponent := s.challenges[id].opponent.value;
      opponent != s.challenges[id].creator && opponent in s.playerChallenges && s.playerChallenges[opponent] == id
    requires sender !in s.playerChallenges && !Falsy(commitment)
    requires b.addOpponent(s.challenges[id], sender, commitment).Some?
    ensures var (t, outcome) := AcceptStep(s, b, sender, JInt(id), commitment);
      outcome == Accepted && !PlayersIndexed(t)
  {
    var (t, outcome) := AcceptStep(s, b, sender, JInt(id), commitment);
    var opponent := s.challenges[id].opponent.value;
    assert t.challenges[id] == b.addOpponent(s.challenges[id], sender, commitment).value;
    assert opponent in t.playerChallenges && t.playerChallenges[opponent] == id;
    assert opponent !in Players(t.challenges[id]);
  }
}
