/** The voting page of the client application: its state (the proposal list, the
    session's vote record, the wallet flag and address, and the create-proposal form)
    and the handlers that replace that state. */
module ClientIndex {
  import opened Text
  import opened Proposals

  /** The create-proposal form (`newProposal`). */
  datatype ProposalForm = ProposalForm(title: string, description: string, options: seq<string>, endDate: string)

  /** The form as it starts and as `createProposal` resets it: two empty options. */
  const EmptyForm := ProposalForm("", "", ["", ""], "")

  /** Which notification `createProposal` raises. */
  datatype CreateOutcome = MissingInformation | InvalidOptions | Created

  /** The two checks of `createProposal`, in order: a required field left empty, then an
      option that `trim` leaves empty. */
  function Validate(f: ProposalForm): (r: CreateOutcome)
    ensures r == MissingInformation <==> f.title == "" || f.description == "" || f.endDate == ""
    ensures r == Created <==>
      && f.title != "" && f.description != "" && f.endDate != ""
      && forall i :: 0 <= i < |f.options| ==> !IsBlank(f.options[i])
  {
    if f.title == "" || f.description == "" || f.endDate == "" then MissingInformation
    else if exists i :: 0 <= i < |f.options| && Trim(f.options[i]) == "" then
      InvalidOptions
    else
      Created
  }

  /** The proposal `createProposal` builds from the form when the list holds `count`
      proposals: id `(count + 1).toString()`, no votes yet, active. */
  function NewProposal(f: ProposalForm, count: nat): (p: Proposal)
    ensures p.id == NatToString(count + 1) && p.status == Active
    ensures p.title == f.title && p.description == f.description && p.endDate == f.endDate
    ensures p.options == f.options && |p.votes| == |f.options| && p.totalVotes == 0
    ensures forall i :: 0 <= i < |p.votes| ==> p.votes[i] == 0
    ensures Validate(f) == Created && |f.options| >= 2 ==> WellFormed(p)
  {
    SumZeros(Zeros(|f.options|));
    Proposal(NatToString(count + 1), f.title, f.description, f.options,
             Zeros(|f.options|), f.endDate, Active, 0)
  }

  /** `options.filter((_, i) => i !== index)`: the option at `index` goes, if there is one. */
  function RemoveAt(s: seq<string>, index: int): (r: seq<string>)
    ensures 0 <= index < |s| ==>
      && |r| == |s| - 1
      && (forall j :: 0 <= j < index ==> r[j] == s[j])
      && (forall j :: index <= j < |r| ==> r[j] == s[j + 1])
    ensures !(0 <= index < |s|) ==> r == s
  {
    if 0 <= index < |s| then s[..index] + s[index + 1..] else s
  }

  /** `options.map((option, i) => i === index ? value : option)` */
  function ReplaceAt(s: seq<string>, index: int, value: string): (r: seq<string>)
    ensures |r| == |s|
    ensures forall j :: 0 <= j < |s| ==> r[j] == if j == index then value else s[j]
  {
    if 0 <= index < |s| then s[index := value] else s
  }

  /** The proposals the page starts with (end dates in 2025). */
  function ClientSeed(): seq<Proposal> {
    SeedProposals("2025-07-01", "2025-06-25", "2025-06-20")
  }

  lemma ClientSeedInvariant()
    ensures StoreInvariant(ClientSeed()) && ActiveCount(ClientSeed()) == 2
  {
    SeedInvariant("2025-07-01", "2025-06-25", "2025-06-20");
  }

  class VotingPage {
    var isWalletConnected: bool
    var walletAddress: string
    var hasVoted: seq<string>
    var showCreateProposal: bool
    var newProposal: ProposalForm
    var proposals: seq<Proposal>
    /** Each proposal's total when the vote record was last empty (see SessionInvariant). */
    ghost var sessionBase: map<string, nat>

    ghost predicate Valid()
      reads this
    {
      && StoreInvariant(proposals)
      && SessionInvariant(proposals, hasVoted, sessionBase)
      && |newProposal.options| >= 2
    }

    /** The page as it is first rendered: disconnected, no votes recorded, an empty
        form, and the three seed proposals. */
    constructor ()
      ensures Valid()
      ensures !isWalletConnected && walletAddress == "" && hasVoted == []
      ensures !showCreateProposal && newProposal == EmptyForm
      ensures proposals == ClientSeed()
      ensures sessionBase == Totals(proposals)
    {
      var seed := ClientSeed();
      ClientSeedInvariant();
      SessionStart(seed);
      isWalletConnected := false;
      walletAddress := "";
      hasVoted := [];
      showCreateProposal := false;
      newProposal := EmptyForm;
      proposals := seed;
      sessionBase := Totals(seed);
    }

    /** The outcome of `connectMetaMask`, with the wallet's answer as a parameter: when it
        returns at least one account, the first one's short form is shown and the page
        counts as connected; otherwise nothing changes. The vote record is kept. */
    method ConnectWallet(accounts: seq<string>)
      requires Valid()
      modifies this
      ensures Valid()
      ensures |accounts| > 0 ==> isWalletConnected && walletAddress == ShortAddress(accounts[0])
      ensures |accounts| == 0 ==> isWalletConnected == old(isWalletConnected) && walletAddress == old(walletAddress)
      ensures hasVoted == old(hasVoted) && proposals == old(proposals) && sessionBase == old(sessionBase)
      ensures newProposal == old(newProposal) && showCreateProposal == old(showCreateProposal)
    {
      if |accounts| > 0 {
        walletAddress := ShortAddress(accounts[0]);
        isWalletConnected := true;
      }
    }

    /** `disconnectWallet`: disconnected, no address, and an empty vote record, so every
        proposal is open to this session's vote again. */
    method DisconnectWallet()
      requires Valid()
      modifies this
      ensures Valid()
      ensures !isWalletConnected && walletAddress == "" && hasVoted == []
      ensures proposals == old(proposals) && newProposal == old(newProposal)
      ensures sessionBase == Totals(proposals)
      ensures showCreateProposal == old(showCreateProposal)
    {
      isWalletConnected := false;
      walletAddress := "";
      hasVoted := [];
      sessionBase := Totals(proposals);
      SessionStart(proposals);
    }

    /** The "Create Proposal" and "Cancel" buttons. */
    method SetFormVisible(visible: bool)
      requires Valid()
      modifies this
      ensures Valid()
      ensures showCreateProposal == visible && newProposal == old(newProposal)
      ensures proposals == old(proposals) && hasVoted == old(hasVoted)
      ensures isWalletConnected == old(isWalletConnected) && walletAddress == old(walletAddress)
      ensures sessionBase == old(sessionBase)
    {
      showCreateProposal := visible;
    }

    /** Typing into the title field. */
    method SetTitle(value: string)
      requires Valid()
      modifies this
      ensures Valid()
      ensures newProposal == old(newProposal).(title := value)
      ensures proposals == old(proposals) && hasVoted == old(hasVoted)
      ensures showCreateProposal == old(showCreateProposal)
      ensures isWalletConnected == old(isWalletConnected) && walletAddress == old(walletAddress)
      ensures sessionBase == old(sessionBase)
    {
      newProposal := newProposal.(title := value);
    }

    /** Typing into the description field. */
    method SetDescription(value: string)
      requires Valid()
      modifies this
      ensures Valid()
      ensures newProposal == old(newProposal).(description := value)
      ensures proposals == old(proposals) && hasVoted == old(hasVoted)
      ensures showCreateProposal == old(showCreateProposal)
      ensures isWalletConnected == old(isWalletConnected) && walletAddress == old(walletAddress)
      ensures sessionBase == old(sessionBase)
    {
      newProposal := newProposal.(description := value);
    }

    /** Picking the end date. */
    method SetEndDate(value: string)
      requires Valid()
      modifies this
      ensures Valid()
      ensures newProposal == old(newProposal).(endDate := value)
      ensures proposals == old(proposals) && hasVoted == old(hasVoted)
      ensures showCreateProposal == old(showCreateProposal)
      ensures isWalletConnected == old(isWalletConnected) && walletAddress == old(walletAddress)
      ensures sessionBase == old(sessionBase)
    {
      newProposal := newProposal.(endDate := value);
    }

    /** `addOption`: one more, empty, option at the end. */
    method AddOption()
      requires Valid()
      modifies this
      ensures Valid()
      ensures newProposal == old(newProposal).(options := old(newProposal.options) + [""])
      ensures proposals == old(proposals) && hasVoted == old(hasVoted)
      ensures showCreateProposal == old(showCreateProposal)
      ensures isWalletConnected == old(isWalletConnected) && walletAddress == old(walletAddress)
      ensures sessionBase == old(sessionBase)
    {
      newProposal := newProposal.(options := newProposal.options + [""]);
    }

    /** `removeOption(index)`: only while more than two options remain, so the form never
        offers fewer than two. */
    method RemoveOption(index: int)
      requires Valid()
      modifies this
      ensures Valid()
      ensures |old(newProposal.options)| > 2 ==>
        newProposal == old(newProposal).(options := RemoveAt(old(newProposal.options), index))
      ensures |old(newProposal.options)| <= 2 ==> newProposal == old(newProposal)
      ensures proposals == old(proposals) && hasVoted == old(hasVoted)
      ensures showCreateProposal == old(showCreateProposal)
      ensures isWalletConnected == old(isWalletConnected) && walletAddress == old(walletAddress)
      ensures sessionBase == old(sessionBase)
    {
      if |newProposal.options| > 2 {
        newProposal := newProposal.(options := RemoveAt(newProposal.options, index));
      }
    }

    /** `updateOption(index, value)`: the option at `index` becomes `value`. */
    method UpdateOption(index: int, value: string)
      requires Valid()
      modifies this
      ensures Valid()
      ensures newProposal == old(newProposal).(options := ReplaceAt(old(newProposal.options), index, value))
      ensures proposals == old(proposals) && hasVoted == old(hasVoted)
      ensures showCreateProposal == old(showCreateProposal)
      ensures isWalletConnected == old(isWalletConnected) && walletAddress == old(walletAddress)
      ensures sessionBase == old(sessionBase)
    {
      newProposal := newProposal.(options := ReplaceAt(newProposal.options, index, value));
    }

    /** `createProposal`: a form that fails validation changes nothing; a valid one is
        prepended to the list as a fresh, active, zero-vote proposal, and the form is
        reset and closed. */
    method CreateProposal() returns (outcome: CreateOutcome)
      requires Valid()
      modifies this
      ensures Valid()
      ensures outcome == Validate(old(newProposal))
      ensures outcome != Created ==>
        proposals == old(proposals) && newProposal == old(newProposal)
        && showCreateProposal == old(showCreateProposal)
      ensures outcome == Created ==>
        && proposals == [NewProposal(old(newProposal), |old(proposals)|)] + old(proposals)
        && !HasId(old(proposals), NewProposal(old(newProposal), |old(proposals)|).id)
        && newProposal == EmptyForm && !showCreateProposal
        && sessionBase == old(sessionBase)[NewProposal(old(newProposal), |old(proposals)|).id := 0]
      ensures outcome != Created ==> sessionBase == old(sessionBase)
      ensures hasVoted == old(hasVoted)
      ensures isWalletConnected == old(isWalletConnected) && walletAddress == old(walletAddress)
    {
      outcome := Validate(newProposal);
      if outcome != Created {
        return;
      }
      var proposal := NewProposal(newProposal, |proposals|);
      FreshId(proposals);
      PrependKeepsStore(proposals, proposal);
      SessionAfterCreate(proposals, hasVoted, sessionBase, proposal);
      sessionBase := sessionBase[proposal.id := 0];
      proposals := [proposal] + proposals;
      newProposal := EmptyForm;
      showCreateProposal := false;
    }

    /** `castVote(proposalId, optionIndex)`: refused without a connected wallet, refused
        for a proposal this session already voted on, and otherwise one vote for
        `optionIndex` on the proposal `proposalId` and the id added to the vote record.
        The proposal and option must exist once the vote is to be recorded. */
    method CastVote(proposalId: string, optionIndex: int) returns (outcome: VoteOutcome)
      requires Valid()
      requires isWalletConnected && proposalId !in hasVoted ==> CanRecord(proposals, proposalId, optionIndex)
      modifies this
      ensures Valid()
      ensures outcome == WalletNotConnected <==> !old(isWalletConnected)
      ensures outcome == AlreadyVoted <==> old(isWalletConnected) && proposalId in old(hasVoted)
      ensures outcome != VoteRecorded ==> proposals == old(proposals) && hasVoted == old(hasVoted)
      ensures outcome == VoteRecorded ==>
        && 0 <= optionIndex
        && VoteInRange(old(proposals), proposalId, optionIndex)
        && proposals == RecordVote(old(proposals), proposalId, optionIndex)
        && hasVoted == old(hasVoted) + [proposalId]
      ensures isWalletConnected == old(isWalletConnected) && walletAddress == old(walletAddress)
      ensures sessionBase == old(sessionBase)
      ensures newProposal == old(newProposal) && showCreateProposal == old(showCreateProposal)
    {
      if !isWalletConnected {
        outcome := WalletNotConnected;
      } else if proposalId in hasVoted {
        outcome := AlreadyVoted;
      } else {
        Record(proposalId, optionIndex);
        outcome := VoteRecorded;
      }
    }

    /** The update `castVote` makes once both checks pass: one more vote for
        `optionIndex` on the proposal `proposalId`, and the id joins the vote record. */
    method Record(proposalId: string, optionIndex: int)
      requires Valid() && proposalId !in hasVoted && CanRecord(proposals, proposalId, optionIndex)
      modifies this
      ensures Valid()
      ensures 0 <= optionIndex && VoteInRange(old(proposals), proposalId, optionIndex)
      ensures proposals == RecordVote(old(proposals), proposalId, optionIndex)
      ensures hasVoted == old(hasVoted) + [proposalId]
      ensures isWalletConnected == old(isWalletConnected) && walletAddress == old(walletAddress)
      ensures sessionBase == old(sessionBase)
      ensures newProposal == old(newProposal) && showCreateProposal == old(showCreateProposal)
    {
      AcceptedVote(proposals, hasVoted, sessionBase, proposalId, optionIndex);
      proposals, hasVoted := RecordVote(proposals, proposalId, optionIndex), hasVoted + [proposalId];
    }
  }

  /** Two votes by one session on the newest proposal, for option 1 and then option 0:
      the first is recorded, the second is refused and changes nothing. */
  method VoteTwice(page: VotingPage) returns (first: VoteOutcome, second: VoteOutcome)
    requires page.Valid() && page.isWalletConnected && |page.proposals| > 0
    requires page.proposals[0].id !in page.hasVoted && |page.proposals[0].options| == 2
    modifies page
    ensures page.Valid()
    ensures first == VoteRecorded && second == AlreadyVoted
    ensures |page.proposals| == |old(page.proposals)|
    ensures page.proposals[0] == AddVote(old(page.proposals[0]), 1)
    ensures page.proposals == RecordVote(old(page.proposals), old(page.proposals[0].id), 1)
    ensures page.hasVoted == old(page.hasVoted) + [old(page.proposals[0].id)]
  {
    var id := page.proposals[0].id;
    var before := page.proposals;
    assert CanRecord(before, id, 1) by {
      assert before[0].id == id && 1 < |before[0].options|;
    }
    first := page.CastVote(id, 1);
    RecordVoteOnly(before, id, 1, 0);
    var after := page.proposals;
    assert id in page.hasVoted by {
      assert page.hasVoted[|page.hasVoted| - 1] == id;
    }
    second := page.CastVote(id, 0);
    assert page.proposals == after;
  }

  /** Opens the form and fills it in field by field with a two-option ballot. */
  method FillBallot(page: VotingPage)
    requires page.Valid() && |page.newProposal.options| == 2
    modifies page
    ensures page.Valid()
    ensures page.newProposal == ProposalForm("Ballot", "Pick one", ["A", "B"], "2026-10-15")
    ensures page.showCreateProposal
    ensures page.proposals == old(page.proposals) && page.hasVoted == old(page.hasVoted)
    ensures page.isWalletConnected == old(page.isWalletConnected)
  {
    page.SetFormVisible(true);
    page.SetTitle("Ballot");
    page.SetDescription("Pick one");
    page.SetEndDate("2026-10-15");
    page.UpdateOption(0, "A");
    page.UpdateOption(1, "B");
    assert page.newProposal.options == ["A", "B"];
  }

  /** A freshly rendered page, connected to a wallet with one account. */
  method OpenConnected(account: string) returns (page: VotingPage)
    ensures fresh(page) && page.Valid()
    ensures page.isWalletConnected && page.walletAddress == ShortAddress(account)
    ensures page.hasVoted == [] && page.newProposal == EmptyForm
  {
    page := new VotingPage();
    page.ConnectWallet([account]);
  }

  /** Submitting the filled-in ballot: it passes validation and becomes the newest
      proposal, with two options and no votes. */
  method SubmitBallot(page: VotingPage) returns (created: CreateOutcome)
    requires page.Valid()
    requires page.newProposal == ProposalForm("Ballot", "Pick one", ["A", "B"], "2026-10-15")
    modifies page
    ensures page.Valid() && created == Created
    ensures |page.proposals| > 0 && page.proposals[0].votes == [0, 0]
    ensures page.proposals[0].status == Active && page.proposals[0].totalVotes == 0
    ensures |page.proposals[0].options| == 2
    ensures page.hasVoted == old(page.hasVoted) && page.isWalletConnected == old(page.isWalletConnected)
    ensures !HasId(old(page.proposals), page.proposals[0].id)
  {
    assert !IsBlank("A") && !IsBlank("B") by {
      NotBlankByFirst("A");
      NotBlankByFirst("B");
    }
    created := page.CreateProposal();
    assert page.proposals[0].votes == Zeros(2);
  }

  /** A walk through the page: connect, fill in a two-option proposal, vote for its
      second option, then try to vote on it again. The second attempt is refused and
      leaves the counts at [0, 1] with one vote in total. */
  method Scenario() returns (votes: seq<nat>, total: nat, second: VoteOutcome)
    ensures votes == [0, 1] && total == 1 && second == AlreadyVoted
  {
    var page := OpenConnected("0x71C7656EC7ab88b098defB751B7401B5f6d8976F");
    FillBallot(page);
    var created := SubmitBallot(page);
    ghost var ballot := page.proposals[0];
    var first;
    first, second := VoteTwice(page);
    votes, total := page.proposals[0].votes, page.proposals[0].totalVotes;
    assert page.proposals[0] == AddVote(ballot, 1);
    assert votes == [0, 0][1 := 1];
  }
}
