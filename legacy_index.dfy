/** The earlier voting page: the same proposals and the same vote handling, with a
    simulated wallet connection and no way to create proposals. */
module LegacyIndex {
  import opened Proposals

  /** The address the simulated connection reports. */
  const MockAddress := "CvK8...mN9p"

  /** The proposals the page starts with (end dates in 2024). */
  function LegacySeed(): seq<Proposal> {
    SeedProposals("2024-07-01", "2024-06-25", "2024-06-20")
  }

  lemma LegacySeedInvariant()
    ensures StoreInvariant(LegacySeed()) && ActiveCount(LegacySeed()) == 2
  {
    SeedInvariant("2024-07-01", "2024-06-25", "2024-06-20");
  }

  class LegacyVotingPage {
    var isWalletConnected: bool
    var walletAddress: string
    var hasVoted: seq<string>
    var proposals: seq<Proposal>
    /** Each proposal's total when the vote record was last empty (see SessionInvariant). */
    ghost var sessionBase: map<string, nat>

    ghost predicate Valid()
      reads this
    {
      StoreInvariant(proposals) && SessionInvariant(proposals, hasVoted, sessionBase)
    }

    /** The page as first rendered: disconnected, nothing voted, the seed proposals. */
    constructor ()
      ensures Valid()
      ensures !isWalletConnected && walletAddress == "" && hasVoted == []
      ensures proposals == LegacySeed()
      ensures sessionBase == Totals(proposals)
    {
      var seed := LegacySeed();
      LegacySeedInvariant();
      SessionStart(seed);
      isWalletConnected := false;
      walletAddress := "";
      hasVoted := [];
      proposals := seed;
      sessionBase := Totals(seed);
    }

    /** `connectWallet`: after the simulated delay the page is connected to the fixed
        mock address; the vote record is kept. */
    method ConnectWallet()
      requires Valid()
      modifies this
      ensures Valid()
      ensures isWalletConnected && walletAddress == MockAddress
      ensures hasVoted == old(hasVoted) && proposals == old(proposals) && sessionBase == old(sessionBase)
    {
      walletAddress := MockAddress;
      isWalletConnected := true;
    }

    /** `disconnectWallet`: disconnected, no address, and an empty vote record. */
    method DisconnectWallet()
      requires Valid()
      modifies this
      ensures Valid()
      ensures !isWalletConnected && walletAddress == "" && hasVoted == []
      ensures proposals == old(proposals)
      ensures sessionBase == Totals(proposals)
    {
      isWalletConnected := false;
      walletAddress := "";
      hasVoted := [];
      sessionBase := Totals(proposals);
      SessionStart(proposals);
    }

    /** `castVote(proposalId, optionIndex)`: the same checks, in the same order, and the
        same update as on the client page. */
    method CastVote(proposalId: string, optionIndex: int) returns (outcome: VoteOutcome)
      requires Valid()
      requires isWalletConnected && proposalId !in hasVoted ==> CanRecord(proposals, proposalId, optionIndex)
      modifies this
      ensures Valid()
      ensures outcome == WalletNotConnected <==> !old(isWalletConnected)
      ensures outcome == AlreadyVoted <==> old(isWalletConnected) && proposalId in old(hasVoted)
      ensures outcome != VoteRecorded ==> proposals == old(proposals) && hasVoted == old(hasVoted)
      ensures outcome == VoteRecorded ==>
        && 0 <= optionIndex
        && VoteInRange(old(proposals), proposalId, optionIndex)
        && proposals == RecordVote(old(proposals), proposalId, optionIndex)
        && hasVoted == old(hasVoted) + [proposalId]
      ensures isWalletConnected == old(isWalletConnected) && walletAddress == old(walletAddress)
      ensures sessionBase == old(sessionBase)
    {
      if !isWalletConnected {
        outcome := WalletNotConnected;
      } else if proposalId in hasVoted {
        outcome := AlreadyVoted;
      } else {
        Record(proposalId, optionIndex);
        outcome := VoteRecorded;
      }
    }

    /** The update `castVote` makes once both checks pass. */
    method Record(proposalId: string, optionIndex: int)
      requires Valid() && proposalId !in hasVoted && CanRecord(proposals, proposalId, optionIndex)
      modifies this
      ensures Valid()
      ensures 0 <= optionIndex && VoteInRange(old(proposals), proposalId, optionIndex)
      ensures proposals == RecordVote(old(proposals), proposalId, optionIndex)
      ensures hasVoted == old(hasVoted) + [proposalId]
      ensures isWalletConnected == old(isWalletConnected) && walletAddress == old(walletAddress)
      ensures sessionBase == old(sessionBase)
    {
      AcceptedVote(proposals, hasVoted, sessionBase, proposalId, optionIndex);
      proposals, hasVoted := RecordVote(proposals, proposalId, optionIndex), hasVoted + [proposalId];
    }
  }

  /** Disconnecting empties the vote record, so after reconnecting the same session can
      vote again on a proposal it has already voted on. */
  method DisconnectAllowsRevote(page: LegacyVotingPage, id: string, i: int) returns (outcome: VoteOutcome)
    requires page.Valid() && CanRecord(page.proposals, id, i)
    modifies page
    ensures outcome == VoteRecorded && page.hasVoted == [id]
    ensures page.proposals == RecordVote(old(page.proposals), id, i)
  {
    page.DisconnectWallet();
    page.ConnectWallet();
    outcome := page.CastVote(id, i);
  }

  /** Voting never changes how many proposals are shown as active, on any list
      satisfying the invariant. */
  lemma VoteKeepsActiveCount(ps: seq<Proposal>, id: string, i: int)
    requires StoreInvariant(ps) && CanRecord(ps, id, i)
    ensures i >= 0 && ActiveCount(RecordVote(ps, id, i)) == ActiveCount(ps)
  {
    CanRecordInRange(ps, id, i);
    ActiveCountRecordVote(ps, id, i);
  }
}
