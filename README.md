# Campus voting store, modelled in Dafny

The campus voting application keeps all of its voting logic in the state of one page
component. It exists in two variants: the client's `Index` page (MetaMask wallet, proposal
creation, winner display) and an earlier `Index` page (simulated Solana wallet, voting only).
The state has four parts:

- a list of proposals, each with its options, a vote count per option, a total, an end date
  and an active/ended status;
- the session's vote record `hasVoted`, the ids of the proposals this session has voted on;
- the wallet flag and the shortened address;
- on the client page, the create-proposal form.

The model has five modules:

- `Text` covers string behaviour the page relies on: JavaScript's `trim`, with the
  ECMAScript whitespace and line-terminator set written out; `Number.prototype.toString`
  for the ids `(n + 1).toString()`, with its inverse `ParseNat`; and the
  `slice(0, 6)...slice(-4)` address format, clamping included.
- `Proposals` holds the `Proposal` record, the per-proposal `map` update that `castVote`
  applies (`RecordVote`), the active-proposal count, the seed data and two invariants:
  - the list invariant: one count per option, `totalVotes` equal to the sum of the counts,
    at least two non-blank options, non-empty fields, and ids that are pairwise distinct
    and read as numbers in `1..|proposals|`;
  - the session invariant: a ghost map records each proposal's total at page load or at
    the last disconnect, or 0 for a proposal created later in the session. Every proposal has gained exactly one vote if its id is in
    `hasVoted` and none otherwise, so a session adds at most one vote per proposal.
- `Metrics` holds `getVotePercentage` over exact reals and `getWinner`, built from
  `Math.max`, `findIndex` and a filter count.
- `ClientIndex` holds the class `VotingPage`, whose fields and handlers mirror the client
  page's state setters.
- `LegacyIndex` holds the class `LegacyVotingPage` for the earlier page.

Each handler is a method that replaces fields of the object. It promises the page
invariant (`Valid`: the list invariant plus the session invariant, and on the client page a
form with at least two options), and states the whole new state in terms of the old one.

`getVotePercentage` in `src/pages/Index.tsx:155-157` is the same expression as the
client's. Both are modelled by `Metrics.VotePercentage`.

## Model

| member | source | states |
|---|---|---|
| Text.TrimStart | client/src/pages/Index.tsx:154 | the result is a suffix of the input; every dropped character is JavaScript whitespace; a non-empty result starts with a non-whitespace character |
| Text.TrimEnd | client/src/pages/Index.tsx:154 | the result is a prefix of the input; every dropped character is whitespace; a non-empty result ends with a non-whitespace character |
| Text.Trim | client/src/pages/Index.tsx:154 | `trim()` never lengthens; a non-empty result starts and ends with a non-whitespace character; the result is empty exactly when the input is whitespace only |
| Text.NatToString | client/src/pages/Index.tsx:164 | `toString` of a count is a non-empty string of decimal digits with no leading zero |
| Text.ParseNatToString | client/src/pages/Index.tsx:164 | reading the numeral back gives the number, so `toString` loses nothing |
| Text.NatToStringInjective | client/src/pages/Index.tsx:164 | distinct counts give distinct ids |
| Text.ShortAddress | client/src/pages/Index.tsx:83 | first six characters (the whole address when shorter), then `...`, then the last four (the whole address when shorter), as `slice` clamps; an address of ten or more characters gives 13 |
| Text.ShortAddressExamples | client/src/pages/Index.tsx:83 | `0x1234abcd5678` shows as `0x1234...5678`; the five-character `abcde` shows as `abcde...bcde` |
| Proposals.Zeros | client/src/pages/Index.tsx:168 | `new Array(n).fill(0)` has length n and every entry 0 |
| Proposals.SumZeros | client/src/pages/Index.tsx:168-171 | an all-zero vote array sums to the initial `totalVotes` of 0 |
| Proposals.SumIncrement | client/src/pages/Index.tsx:219-223 | adding one to one count adds one to the sum, so `totalVotes + 1` stays equal to the sum |
| Proposals.FreshId | client/src/pages/Index.tsx:164 | when every id reads as a number in 1..n, the id `(n + 1).toString()` belongs to no proposal in the list |
| Proposals.PrependKeepsStore | client/src/pages/Index.tsx:163-174 | prepending a well-formed proposal with id `(n + 1).toString()` keeps the list invariant, unique ids included |
| Proposals.AddVote | client/src/pages/Index.tsx:218-224 | the chosen count rises by one, every other count is as before, `totalVotes` rises by one, all other fields are unchanged, and a consistent tally stays consistent |
| Proposals.RecordVote | client/src/pages/Index.tsx:216-227 | the list keeps its length; every proposal whose id matches gets `AddVote`, every other proposal is unchanged |
| Proposals.RecordVoteOnly | client/src/pages/Index.tsx:216-227 | with unique ids exactly the proposal at the matching position changes and all others are identical |
| Proposals.RecordVoteKeepsStore | client/src/pages/Index.tsx:216-227 | a vote for an existing proposal and option keeps the list invariant |
| Proposals.ActiveCount | client/src/pages/Index.tsx:408 | the active count is at most the number of proposals |
| Proposals.ActiveCountBounds | client/src/pages/Index.tsx:408 | the count equals the list length exactly when all proposals are active, and is 0 exactly when none is |
| Proposals.ActiveCountRecordVote | client/src/pages/Index.tsx:408 | recording a vote does not change the active count |
| Proposals.SessionStart | client/src/pages/Index.tsx:26 | an empty vote record, with each proposal's current total as its base, satisfies the session invariant |
| Proposals.AppendKeepsDistinct | client/src/pages/Index.tsx:229 | appending an id not yet in `hasVoted` keeps the record free of repeats |
| Proposals.RecordedIdsExist | client/src/pages/Index.tsx:216-229 | after a vote, every id in the extended record belongs to a proposal |
| Proposals.SessionAfterVote | client/src/pages/Index.tsx:199-229 | a vote on a proposal not yet in `hasVoted`, with its id then appended, keeps the session invariant with the same base |
| Proposals.AcceptedVote | client/src/pages/Index.tsx:199-229 | a vote past both checks, for an existing proposal and option, keeps the list invariant and the session invariant |
| Proposals.SessionAfterCreate | client/src/pages/Index.tsx:163-174 | a new zero-vote proposal with a fresh id joins the session invariant with base 0 |
| Proposals.SeedOptionsNotBlank | client/src/pages/Index.tsx:37-68 | no seed option is blank |
| Proposals.SeedWellFormed | client/src/pages/Index.tsx:37-68 | each seed proposal is well formed: 156+134+89 = 379, 203+167+145 = 515, 289+156+67 = 512, three options each |
| Proposals.SeedIds | client/src/pages/Index.tsx:37-68 | the seed ids "1", "2", "3" are distinct and read as 1..3 |
| Proposals.SeedInvariant | client/src/pages/Index.tsx:37-68 | the seed satisfies the list invariant, two of its proposals are active, and the next id is "4" |
| Metrics.VotePercentage | client/src/pages/Index.tsx:244-246 | 0 when the total is 0 or less; within [0, 100] when 0 <= votes <= total; positive for a positive share; 100 when one option holds every vote |
| Metrics.PercentageScales | src/pages/Index.tsx:155-157 | with a positive total, percentage times total equals 100 times votes, that is `(votes / total) * 100` |
| Metrics.PercentageMonotone | client/src/pages/Index.tsx:244-246 | more votes never show a smaller percentage of the same total |
| Metrics.PercentageSumShare | client/src/pages/Index.tsx:244-246 | the percentages of all options add up to the percentage of their sum |
| Metrics.PercentagesAddUp | client/src/pages/Index.tsx:244-246 | for a consistent tally with at least one vote, the exact (real) percentages add up to exactly 100; the page shows them rounded by `toFixed(1)`, which is not modelled |
| Metrics.MaxOf | client/src/pages/Index.tsx:251 | `Math.max` of the counts is at least every count and equal to one of them |
| Metrics.FindIndex | client/src/pages/Index.tsx:252 | `findIndex` gives the first position holding the value, or -1 exactly when no position does |
| Metrics.CountOf | client/src/pages/Index.tsx:254 | the filter count is at most the number of counts, and 0 exactly when the value does not occur |
| Metrics.CountAboveOne | client/src/pages/Index.tsx:254-255 | the filter count exceeds 1 exactly when two distinct positions hold the value |
| Metrics.GetWinner | client/src/pages/Index.tsx:248-265 | null exactly when `totalVotes` is 0; otherwise the reported count is the maximum and its percentage lies in (0, 100]; a tie (option "Tie", index -1) exactly when two options share the maximum; otherwise the index is the unique argmax and the option its label |
| Metrics.WinnerExamples | client/src/pages/Index.tsx:248-265 | counts [3, 3, 1] give a tie at 3 votes (300/7 %); counts [5, 3, 1] give option 0 with 5 votes (500/9 %) |
| ClientIndex.Validate | client/src/pages/Index.tsx:145-161 | "Missing Information" exactly when title, description or end date is empty; "Created" exactly when they are all non-empty and no option is blank; "Invalid Options" otherwise |
| ClientIndex.NewProposal | client/src/pages/Index.tsx:163-172 | id `(count + 1).toString()`, active, the form's title, description, end date and options, one zero count per option, total 0; well formed when the form passes validation |
| ClientIndex.RemoveAt | client/src/pages/Index.tsx:132 | for a valid index, the list is one shorter and the elements before and after the index are kept in order; otherwise unchanged |
| ClientIndex.ReplaceAt | client/src/pages/Index.tsx:140 | same length; only the position `index` holds `value` |
| ClientIndex.ClientSeedInvariant | client/src/pages/Index.tsx:37-68 | the client seed satisfies the list invariant and shows 2 active proposals |
| ClientIndex.VotingPage.constructor | client/src/pages/Index.tsx:24-68 | the initial state is disconnected, with no address, an empty vote record, a hidden empty form and the seed proposals; the session base is the seed's totals; it satisfies the page invariant |
| ClientIndex.VotingPage.ConnectWallet | client/src/pages/Index.tsx:81-85 | with at least one account, the page is connected and shows the short form of the first account; with none, nothing changes; the vote record and proposals are kept |
| ClientIndex.VotingPage.DisconnectWallet | client/src/pages/Index.tsx:111-119 | disconnected, empty address, empty vote record; proposals and form kept; a new session starts with the current totals as its base; invariant kept |
| ClientIndex.VotingPage.SetFormVisible | client/src/pages/Index.tsx:345-357 | only the form's visibility changes; proposals, record and session base are kept |
| ClientIndex.VotingPage.SetTitle | client/src/pages/Index.tsx:292 | only the form's title changes; proposals, record and session base are kept |
| ClientIndex.VotingPage.SetDescription | client/src/pages/Index.tsx:301 | only the form's description changes; proposals, record and session base are kept |
| ClientIndex.VotingPage.SetEndDate | client/src/pages/Index.tsx:337 | only the form's end date changes; proposals, record and session base are kept |
| ClientIndex.VotingPage.AddOption | client/src/pages/Index.tsx:121-126 | one empty option is appended; nothing else changes, the session base included |
| ClientIndex.VotingPage.RemoveOption | client/src/pages/Index.tsx:128-135 | with more than two options the option at `index` is removed, otherwise nothing changes, so the form never has fewer than two options; the session base is kept |
| ClientIndex.VotingPage.UpdateOption | client/src/pages/Index.tsx:137-142 | only the option at `index` changes, and the number of options is kept; the session base is kept |
| ClientIndex.VotingPage.CreateProposal | client/src/pages/Index.tsx:144-187 | the outcome is the validation result; a rejected form changes nothing; an accepted one puts the new proposal, with a fresh id, in front of the unchanged old list, then empties and hides the form; the session base is kept, extended with base 0 for the new id; invariant kept |
| ClientIndex.VotingPage.CastVote | client/src/pages/Index.tsx:189-242 | "Wallet Not Connected" exactly when disconnected; "Already Voted" exactly when connected and the id is in the record; both leave proposals and record unchanged; otherwise `RecordVote` is applied and the id appended; the session base never changes, so the invariant bounds every proposal's gain in this session by one |
| ClientIndex.VotingPage.Record | client/src/pages/Index.tsx:216-229 | the update of an accepted vote: `RecordVote` on the list and the id appended to the record, with the same session base and both invariants kept |
| ClientIndex.VoteTwice | client/src/pages/Index.tsx:189-229 | two votes on the newest proposal in one session: the first is recorded, the second is refused; the list ends as `RecordVote` of the old list for that id and option 1, and the vote record gains exactly that id |
| ClientIndex.FillBallot | client/src/pages/Index.tsx:292-337 | typing a title, description, end date and two options into the form gives exactly that form |
| ClientIndex.OpenConnected | client/src/pages/Index.tsx:70-109 | a new page after a connection answering one account is connected, with an empty record and an empty form |
| ClientIndex.SubmitBallot | client/src/pages/Index.tsx:144-187 | a filled-in two-option form is accepted and becomes the newest proposal, with counts [0, 0], total 0, status active and an id not used before |
| ClientIndex.Scenario | client/src/pages/Index.tsx:189-229 | connect, create, vote for option 1, vote again: the second vote is refused and the counts stay [0, 1] with one vote in total |
| LegacyIndex.LegacySeedInvariant | src/pages/Index.tsx:28-59 | the earlier page's seed satisfies the list invariant and shows 2 active proposals |
| LegacyIndex.LegacyVotingPage.constructor | src/pages/Index.tsx:21-59 | the initial state is disconnected, with no address, an empty vote record and the seed proposals; the session base is the seed's totals; it satisfies the page invariant |
| LegacyIndex.LegacyVotingPage.ConnectWallet | src/pages/Index.tsx:61-86 | connected to the fixed address `CvK8...mN9p`; record and proposals kept |
| LegacyIndex.LegacyVotingPage.DisconnectWallet | src/pages/Index.tsx:88-96 | disconnected, empty address, empty vote record; proposals kept; a new session starts with the current totals as its base; invariant kept |
| LegacyIndex.LegacyVotingPage.CastVote | src/pages/Index.tsx:98-153 | the same three outcomes and the same update as on the client page, with the same session base and both invariants kept |
| LegacyIndex.LegacyVotingPage.Record | src/pages/Index.tsx:127-140 | the update of an accepted vote: `RecordVote` on the list and the id appended to the record, with the same session base |
| LegacyIndex.DisconnectAllowsRevote | src/pages/Index.tsx:88-115 | after a disconnect and a reconnect, a vote on any existing proposal and option is recorded again, and the record holds only that id |
| LegacyIndex.VoteKeepsActiveCount | src/pages/Index.tsx:247 | a vote never changes the number of active proposals shown |

## Left out

- Wallet detection and the account request (`detectEthereumProvider`,
  `window.ethereum.request`) are browser-extension calls. The client's connect takes the
  returned account list as a parameter. Its "not found" and failure branches change no
  modelled state.
- The awaited steps inside the handlers are not modelled: the simulated delays
  (`setTimeout`) in both pages' `castVote` and in the legacy mock connect, and the awaited
  wallet calls in the client's connect. Each handler is one atomic step, so the
  double-click race (two clicks passing the already-voted check before either records) is
  outside the model. So is the `isConnecting` flag, which is only set while those awaits
  are pending (the simulated delay on the legacy page, the wallet detection and account
  request on the client).
- Toasts, JSX rendering, progress bars, `toFixed(1)` and date formatting are display only.
  Percentages are exact reals rather than IEEE floats.
- ClientIndex.VotingPage.CastVote: once a vote passes both checks, it requires an existing
  proposal id and an option index in range. The rendered buttons only ever pass these
  (client/src/pages/Index.tsx:438-460), and the source's `undefined += 1` on an unknown
  index is not modelled. The same holds for LegacyIndex.LegacyVotingPage.CastVote.
- Metrics.GetWinner: requires a consistent tally (one count per option, total equal to
  the sum). The page invariant guarantees it. Without it `Math.max` of an empty array and
  a non-zero total are possible in JavaScript but not in this model.
- Text.ShortAddress: slices sequences of Unicode scalar values, while JavaScript's
  `slice` counts UTF-16 code units. The two agree on the ASCII hex addresses wallets
  return.
- Metrics.VotePercentage: its own contract does not state the formula for every input.
  Metrics.PercentageScales states it for positive totals.
- Statuses never change: the code has no transition from active to ended by end date, and
  neither does the model.
- The create-proposal button appears only with a connected wallet
  (client/src/pages/Index.tsx:354). `createProposal` itself does not check the wallet, and
  neither does the model.
- The other pages (admin, dashboard, profile, about), the navigation bar, the
  authentication wrapper and the routing are static presentation and are not part of this
  model.
