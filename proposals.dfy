/** The proposal record shared by both voting pages, the tally it carries, the
    per-element vote update both `castVote`s apply with `proposals.map`, and the
    invariants the page state keeps between user actions. */
module Proposals {
  import opened Text

  datatype Status = Active | Ended

  /** `interface Proposal`. Vote counts start at zero and only ever grow, so they are
      naturals. */
  datatype Proposal = Proposal(
    id: string,
    title: string,
    description: string,
    options: seq<string>,
    votes: seq<nat>,
    endDate: string,
    status: Status,
    totalVotes: nat)

  function Sum(s: seq<nat>): nat {
    if s == [] then 0 else s[0] + Sum(s[1..])
  }

  /** `new Array(n).fill(0)` */
  function Zeros(n: nat): (z: seq<nat>)
    ensures |z| == n && forall i :: 0 <= i < n ==> z[i] == 0
  {
    seq(n, _ => 0)
  }

  lemma {:induction false} SumZeros(s: seq<nat>)
    requires forall i :: 0 <= i < |s| ==> s[i] == 0
    ensures Sum(s) == 0
  {
    if s != [] {
      SumZeros(s[1..]);
    }
  }

  lemma {:induction false} SumIncrement(s: seq<nat>, i: nat)
    requires i < |s|
    ensures Sum(s[i := s[i] + 1]) == Sum(s) + 1
  {
    if i > 0 {
      assert s[i := s[i] + 1][1..] == s[1..][i - 1 := s[i] + 1];
      SumIncrement(s[1..], i - 1);
    } else {
      assert s[i := s[i] + 1][1..] == s[1..];
    }
  }

  lemma {:induction false} EntryAtMostSum(s: seq<nat>, i: nat)
    requires i < |s|
    ensures s[i] <= Sum(s)
  {
    if i > 0 {
      EntryAtMostSum(s[1..], i - 1);
    }
  }

  /** The tally invariant: one count per option, and `totalVotes` is their sum. */
  predicate TallyConsistent(p: Proposal) {
    |p.votes| == |p.options| && p.totalVotes == Sum(p.votes)
  }

  /** What `createProposal` guarantees of every proposal it builds, and what the seed
      proposals satisfy: a consistent tally, at least two options, none of them blank,
      and non-empty title, description and end date. */
  predicate WellFormed(p: Proposal) {
    && TallyConsistent(p)
    && |p.options| >= 2
    && (forall i :: 0 <= i < |p.options| ==> !IsBlank(p.options[i]))
    && p.title != "" && p.description != "" && p.endDate != ""
  }

  /** Some proposal in the list carries `id`. */
  predicate HasId(ps: seq<Proposal>, id: string) {
    exists k :: 0 <= k < |ps| && ps[k].id == id
  }

  predicate UniqueIds(ps: seq<Proposal>) {
    forall i, j :: 0 <= i < j < |ps| ==> ps[i].id != ps[j].id
  }

  /** Every id reads as a number in 1..|ps|, as the seed ids do and as the
      `(proposals.length + 1).toString()` that `createProposal` assigns does. */
  predicate CounterIds(ps: seq<Proposal>) {
    forall k :: 0 <= k < |ps| ==> 1 <= ParseNat(ps[k].id) <= |ps|
  }

  /** The invariant of the `proposals` list. */
  predicate StoreInvariant(ps: seq<Proposal>) {
    && (forall k :: 0 <= k < |ps| ==> WellFormed(ps[k]))
    && UniqueIds(ps)
    && CounterIds(ps)
  }

  /** The id `createProposal` assigns is not the id of any proposal in the list. */
  lemma FreshId(ps: seq<Proposal>)
    requires CounterIds(ps)
    ensures !HasId(ps, NatToString(|ps| + 1))
  {
    var id := NatToString(|ps| + 1);
    ParseNatToString(|ps| + 1);
    forall k | 0 <= k < |ps| ensures ps[k].id != id {
      assert ParseNat(ps[k].id) <= |ps|;
    }
  }

  /** Prepending a proposal with the next counter id keeps the list invariant. */
  lemma PrependKeepsStore(ps: seq<Proposal>, p: Proposal)
    requires StoreInvariant(ps) && WellFormed(p) && p.id == NatToString(|ps| + 1)
    ensures StoreInvariant([p] + ps)
  {
    var qs := [p] + ps;
    FreshId(ps);
    ParseNatToString(|ps| + 1);
    assert forall k :: 1 <= k < |qs| ==> qs[k] == ps[k - 1];
    forall k | 0 <= k < |qs| ensures WellFormed(qs[k]) && 1 <= ParseNat(qs[k].id) <= |qs| {
      if k > 0 {
        assert WellFormed(ps[k - 1]) && ParseNat(ps[k - 1].id) <= |ps|;
      }
    }
    forall i, j | 0 <= i < j < |qs| ensures qs[i].id != qs[j].id {
      if i == 0 {
        assert qs[j] == ps[j - 1];
      } else {
        assert ps[i - 1].id != ps[j - 1].id;
      }
    }
  }

  /** One vote for option `i`: `votes[i] += 1` and `totalVotes + 1`, nothing else moves. */
  function AddVote(p: Proposal, i: nat): (q: Proposal)
    requires i < |p.votes|
    ensures |q.votes| == |p.votes| && q.votes[i] == p.votes[i] + 1
    ensures forall j :: 0 <= j < |p.votes| && j != i ==> q.votes[j] == p.votes[j]
    ensures q.totalVotes == p.totalVotes + 1
    ensures q.(votes := p.votes, totalVotes := p.totalVotes) == p
    ensures TallyConsistent(p) ==> TallyConsistent(q)
  {
    SumIncrement(p.votes, i);
    p.(votes := p.votes[i := p.votes[i] + 1], totalVotes := p.totalVotes + 1)
  }

  /** Which notification `castVote` raises, on either page. */
  datatype VoteOutcome = WalletNotConnected | AlreadyVoted | VoteRecorded

  /** The proposal with id `id` exists and `i` is one of its options: what `castVote`
      needs of its arguments once it has decided to record the vote. */
  predicate CanRecord(ps: seq<Proposal>, id: string, i: int) {
    exists k :: 0 <= k < |ps| && ps[k].id == id && 0 <= i < |ps[k].options|
  }

  /** Every proposal carrying `id` has an option `i`. */
  predicate VoteInRange(ps: seq<Proposal>, id: string, i: int) {
    forall k :: 0 <= k < |ps| && ps[k].id == id ==> 0 <= i < |ps[k].votes|
  }

  lemma CanRecordInRange(ps: seq<Proposal>, id: string, i: int)
    requires StoreInvariant(ps) && CanRecord(ps, id, i)
    ensures VoteInRange(ps, id, i) && i >= 0
  {
    var k :| 0 <= k < |ps| && ps[k].id == id && 0 <= i < |ps[k].options|;
    forall m | 0 <= m < |ps| && ps[m].id == id ensures 0 <= i < |ps[m].votes| {
      assert m == k;
    }
  }

  /** `prev.map(proposal => proposal.id === proposalId ? <one more vote> : proposal)` */
  function RecordVote(ps: seq<Proposal>, id: string, i: nat): (qs: seq<Proposal>)
    requires VoteInRange(ps, id, i)
    ensures |qs| == |ps|
    ensures forall k :: 0 <= k < |ps| ==>
      qs[k] == if ps[k].id == id then AddVote(ps[k], i) else ps[k]
  {
    if ps == [] then []
    else
      assert VoteInRange(ps[1..], id, i) by {
        forall k | 0 <= k < |ps[1..]| && ps[1..][k].id == id
          ensures i < |ps[1..][k].votes|
        {
          assert ps[1..][k] == ps[k + 1];
        }
      }
      [if ps[0].id == id then AddVote(ps[0], i) else ps[0]] + RecordVote(ps[1..], id, i)
  }

  /** With unique ids exactly one proposal, the one at `k`, receives the vote, and the
      ids do not move. */
  lemma RecordVoteOnly(ps: seq<Proposal>, id: string, i: nat, k: nat)
    requires UniqueIds(ps) && VoteInRange(ps, id, i) && k < |ps| && ps[k].id == id
    ensures RecordVote(ps, id, i)[k] == AddVote(ps[k], i)
    ensures forall j :: 0 <= j < |ps| && j != k ==> RecordVote(ps, id, i)[j] == ps[j]
  {
    var qs := RecordVote(ps, id, i);
    forall j | 0 <= j < |ps| && j != k ensures qs[j] == ps[j] {
      assert ps[j].id != ps[k].id;
    }
  }

  /** A vote for an existing proposal and option keeps the list invariant. */
  lemma RecordVoteKeepsStore(ps: seq<Proposal>, id: string, i: nat, k: nat)
    requires StoreInvariant(ps) && k < |ps| && ps[k].id == id && i < |ps[k].options|
    ensures VoteInRange(ps, id, i)
    ensures StoreInvariant(RecordVote(ps, id, i))
  {
    CanRecordInRange(ps, id, i);
    RecordVoteOnly(ps, id, i, k);
    var p, q := ps[k], RecordVote(ps, id, i)[k];
    assert WellFormed(q) by {
      assert q.options == p.options && q.title == p.title;
      assert q.description == p.description && q.endDate == p.endDate;
    }
  }

  /** `proposals.filter(p => p.status === 'active').length` */
  function ActiveCount(ps: seq<Proposal>): (n: nat)
    ensures n <= |ps|
  {
    if ps == [] then 0 else (if ps[0].status == Active then 1 else 0) + ActiveCount(ps[1..])
  }

  /** The count is the whole list exactly when every proposal is active, and zero
      exactly when none is. */
  lemma {:induction false} ActiveCountBounds(ps: seq<Proposal>)
    ensures ActiveCount(ps) == |ps| <==> forall k :: 0 <= k < |ps| ==> ps[k].status == Active
    ensures ActiveCount(ps) == 0 <==> forall k :: 0 <= k < |ps| ==> ps[k].status != Active
  {
    if ps != [] {
      ActiveCountBounds(ps[1..]);
      assert forall k :: 1 <= k < |ps| ==> ps[k] == ps[1..][k - 1];
    }
  }

  /** Recording a vote never changes a status, so the active count stays. */
  lemma {:induction false} ActiveCountRecordVote(ps: seq<Proposal>, id: string, i: nat)
    requires VoteInRange(ps, id, i)
    ensures ActiveCount(RecordVote(ps, id, i)) == ActiveCount(ps)
  {
    if ps != [] {
      var qs := RecordVote(ps, id, i);
      assert qs[1..] == RecordVote(ps[1..], id, i);
      ActiveCountRecordVote(ps[1..], id, i);
    }
  }

  /** The session's vote record (`hasVoted`) against the ghost `base`, the total of each
      proposal when the record was last empty (page load, last disconnect, or creation
      of the proposal): every id is recorded at most once and belongs to a proposal, and
      each proposal has gained exactly one vote if its id is recorded and none
      otherwise. So a session adds at most one vote to any proposal. */
  ghost predicate SessionInvariant(ps: seq<Proposal>, hasVoted: seq<string>, base: map<string, nat>) {
    && (forall a, b :: 0 <= a < b < |hasVoted| ==> hasVoted[a] != hasVoted[b])
    && (forall a :: 0 <= a < |hasVoted| ==> HasId(ps, hasVoted[a]))
    && (forall k :: 0 <= k < |ps| ==>
          ps[k].id in base &&
          ps[k].totalVotes == base[ps[k].id] + (if ps[k].id in hasVoted then 1 else 0))
  }

  /** Each proposal's current total, by id. */
  ghost function Totals(ps: seq<Proposal>): (m: map<string, nat>)
    requires UniqueIds(ps)
    ensures forall k :: 0 <= k < |ps| ==> ps[k].id in m && m[ps[k].id] == ps[k].totalVotes
  {
    if ps == [] then map[]
    else
      var rest := Totals(ps[1..]);
      assert forall k :: 1 <= k < |ps| ==> ps[k] == ps[1..][k - 1] && ps[k].id != ps[0].id;
      rest[ps[0].id := ps[0].totalVotes]
  }

  /** An empty vote record, as at page load and after a disconnect, starts a session. */
  lemma SessionStart(ps: seq<Proposal>)
    requires UniqueIds(ps)
    ensures SessionInvariant(ps, [], Totals(ps))
  {
  }

  /** Appending an id that is not yet recorded keeps the record free of repeats. */
  lemma AppendKeepsDistinct(hasVoted: seq<string>, id: string)
    requires forall a, b :: 0 <= a < b < |hasVoted| ==> hasVoted[a] != hasVoted[b]
    requires id !in hasVoted
    ensures forall a, b :: 0 <= a < b < |hasVoted + [id]| ==> (hasVoted + [id])[a] != (hasVoted + [id])[b]
  {
    var hv := hasVoted + [id];
    forall a, b | 0 <= a < b < |hv| ensures hv[a] != hv[b] {
      if b == |hasVoted| {
        assert hv[a] == hasVoted[a];
      } else {
        assert hv[a] == hasVoted[a] && hv[b] == hasVoted[b];
      }
    }
  }

  /** After a vote on the proposal at `k`, every id in the extended record still
      belongs to a proposal. */
  lemma RecordedIdsExist(ps: seq<Proposal>, hasVoted: seq<string>, id: string, i: nat, k: nat)
    requires VoteInRange(ps, id, i) && k < |ps| && ps[k].id == id
    requires forall a :: 0 <= a < |hasVoted| ==> HasId(ps, hasVoted[a])
    ensures forall a :: 0 <= a < |hasVoted + [id]| ==> HasId(RecordVote(ps, id, i), (hasVoted + [id])[a])
  {
    var qs := RecordVote(ps, id, i);
    var hv := hasVoted + [id];
    forall a | 0 <= a < |hv| ensures HasId(qs, hv[a]) {
      if a < |hasVoted| {
        assert HasId(ps, hasVoted[a]);
        var m :| 0 <= m < |ps| && ps[m].id == hasVoted[a];
        assert qs[m].id == hv[a];
      } else {
        assert qs[k].id == hv[a];
      }
    }
  }

  /** A recorded vote keeps the session invariant with the same base. */
  lemma SessionAfterVote(ps: seq<Proposal>, hasVoted: seq<string>, base: map<string, nat>,
                         id: string, i: nat, k: nat)
    requires UniqueIds(ps) && VoteInRange(ps, id, i) && k < |ps| && ps[k].id == id
    requires SessionInvariant(ps, hasVoted, base) && id !in hasVoted
    ensures SessionInvariant(RecordVote(ps, id, i), hasVoted + [id], base)
  {
    RecordVoteOnly(ps, id, i, k);
    var qs := RecordVote(ps, id, i);
    var hv := hasVoted + [id];
    AppendKeepsDistinct(hasVoted, id);
    RecordedIdsExist(ps, hasVoted, id, i, k);
    assert forall v :: v in hv ==> v in hasVoted || v == id;
    forall j | 0 <= j < |qs|
      ensures qs[j].id in base
      ensures qs[j].totalVotes == base[qs[j].id] + (if qs[j].id in hv then 1 else 0)
    {
      if j != k {
        assert ps[j].id != id;
        assert (ps[j].id in hv) == (ps[j].id in hasVoted);
      } else {
        assert id in hv;
      }
    }
  }

  /** A vote the page accepts (a proposal and option that exist, an id not yet in the
      record) keeps both the list invariant and the session invariant. */
  lemma AcceptedVote(ps: seq<Proposal>, hasVoted: seq<string>, base: map<string, nat>, id: string, i: int)
    requires StoreInvariant(ps) && SessionInvariant(ps, hasVoted, base)
    requires CanRecord(ps, id, i) && id !in hasVoted
    ensures i >= 0 && VoteInRange(ps, id, i)
    ensures StoreInvariant(RecordVote(ps, id, i))
    ensures SessionInvariant(RecordVote(ps, id, i), hasVoted + [id], base)
  {
    var k :| 0 <= k < |ps| && ps[k].id == id && 0 <= i < |ps[k].options|;
    RecordVoteKeepsStore(ps, id, i, k);
    SessionAfterVote(ps, hasVoted, base, id, i, k);
  }

  /** A new proposal with a fresh id joins the session with base 0. */
  lemma SessionAfterCreate(ps: seq<Proposal>, hasVoted: seq<string>, base: map<string, nat>, p: Proposal)
    requires SessionInvariant(ps, hasVoted, base)
    requires !HasId(ps, p.id) && p.totalVotes == 0
    ensures SessionInvariant([p] + ps, hasVoted, base[p.id := 0])
  {
    var qs := [p] + ps;
    var base' := base[p.id := 0];
    forall a | 0 <= a < |hasVoted| ensures HasId(qs, hasVoted[a]) && hasVoted[a] != p.id {
      assert HasId(ps, hasVoted[a]);
      var m :| 0 <= m < |ps| && ps[m].id == hasVoted[a];
      assert qs[m + 1].id == hasVoted[a];
    }
    assert p.id !in hasVoted;
    forall j | 1 <= j < |qs|
      ensures qs[j].id in base'
      ensures qs[j].totalVotes == base'[qs[j].id] + (if qs[j].id in hasVoted then 1 else 0)
    {
      assert qs[j] == ps[j - 1];
    }
  }

  const BudgetTitle := "Student Union Budget Allocation"
  const BudgetDescription := "How should we allocate the $50,000 student union budget for the upcoming semester?"
  const BudgetOptions := ["Events & Activities (40%)", "Facility Improvements (35%)", "Emergency Fund (25%)"]
  const SustainabilityTitle := "Campus Sustainability Initiative"
  const SustainabilityDescription := "Which sustainability project should be prioritized this year?"
  const SustainabilityOptions := ["Solar Panel Installation", "Bike Sharing Program", "Waste Reduction Campaign"]
  const LibraryTitle := "Library Operating Hours"
  const LibraryDescription := "Should the library extend its operating hours during finals week?"
  const LibraryOptions := ["Yes, 24/7 access", "Yes, until 2 AM", "Keep current hours"]

  /** The three proposals both pages start with; only the end dates differ between the
      two pages. */
  function SeedProposals(end1: string, end2: string, end3: string): seq<Proposal> {
    [ Proposal("1", BudgetTitle, BudgetDescription, BudgetOptions, [156, 134, 89], end1, Active, 379),
      Proposal("2", SustainabilityTitle, SustainabilityDescription, SustainabilityOptions,
               [203, 167, 145], end2, Active, 515),
      Proposal("3", LibraryTitle, LibraryDescription, LibraryOptions, [289, 156, 67], end3, Ended, 512) ]
  }

  lemma NotBlankByFirst(s: string)
    requires |s| > 0 && !IsTrimmable(s[0])
    ensures !IsBlank(s)
  {
  }

  lemma SeedOptionsNotBlank()
    ensures forall i :: 0 <= i < |BudgetOptions| ==> !IsBlank(BudgetOptions[i])
    ensures forall i :: 0 <= i < |SustainabilityOptions| ==> !IsBlank(SustainabilityOptions[i])
    ensures forall i :: 0 <= i < |LibraryOptions| ==> !IsBlank(LibraryOptions[i])
  {
    forall i | 0 <= i < 3
      ensures !IsBlank(BudgetOptions[i]) && !IsBlank(SustainabilityOptions[i]) && !IsBlank(LibraryOptions[i])
    {
      NotBlankByFirst(BudgetOptions[i]);
      NotBlankByFirst(SustainabilityOptions[i]);
      NotBlankByFirst(LibraryOptions[i]);
    }
  }

  lemma SeedWellFormed(end1: string, end2: string, end3: string)
    requires end1 != "" && end2 != "" && end3 != ""
    ensures forall k :: 0 <= k < 3 ==> WellFormed(SeedProposals(end1, end2, end3)[k])
  {
    var ps := SeedProposals(end1, end2, end3);
    SeedOptionsNotBlank();
    assert WellFormed(ps[0]) by { assert Sum([156, 134, 89]) == 379; }
    assert WellFormed(ps[1]) by { assert Sum([203, 167, 145]) == 515; }
    assert WellFormed(ps[2]) by { assert Sum([289, 156, 67]) == 512; }
  }

  lemma SeedIds(end1: string, end2: string, end3: string)
    ensures UniqueIds(SeedProposals(end1, end2, end3))
    ensures CounterIds(SeedProposals(end1, end2, end3))
  {
    assert ParseNat("1") == 1 && ParseNat("2") == 2 && ParseNat("3") == 3 by {
      assert "1"[..0] == "" && "2"[..0] == "" && "3"[..0] == "";
    }
  }

  /** The seed satisfies the list invariant (in particular 156+134+89 = 379,
      203+167+145 = 515, 289+156+67 = 512), two of its proposals are active, and the
      next id to be assigned is "4". */
  lemma SeedInvariant(end1: string, end2: string, end3: string)
    requires end1 != "" && end2 != "" && end3 != ""
    ensures StoreInvariant(SeedProposals(end1, end2, end3))
    ensures ActiveCount(SeedProposals(end1, end2, end3)) == 2
    ensures NatToString(|SeedProposals(end1, end2, end3)| + 1) == "4"
  {
    var ps := SeedProposals(end1, end2, end3);
    SeedWellFormed(end1, end2, end3);
    SeedIds(end1, end2, end3);
    assert ActiveCount(ps[2..]) == 0;
  }
}
