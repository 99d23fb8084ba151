/** The figures the page derives from a proposal for display: the share of the votes
    an option holds, and the winner (or tie) of a proposal. */
module Metrics {
  import opened Proposals

  datatype Option<+T> = None | Some(value: T)

  /** `getVotePercentage(votes, total)`: `total > 0 ? (votes / total) * 100 : 0`, over
      exact reals. */
  function VotePercentage(votes: int, total: int): (r: real)
    ensures total <= 0 ==> r == 0.0
    ensures 0 <= votes <= total ==> 0.0 <= r <= 100.0
    ensures 0 < votes <= total ==> 0.0 < r
    ensures 0 < total && votes == total ==> r == 100.0
  {
    if total > 0 then
      var share := votes as real / total as real;
      assert votes == total ==> share == 1.0;
      share * 100.0
    else 0.0
  }

  /** With a positive total the percentage is `votes` scaled by `100 / total`: its
      product with the total is a hundred times the votes. */
  lemma PercentageScales(votes: int, total: int)
    requires total > 0
    ensures VotePercentage(votes, total) * total as real == votes as real * 100.0
  {
    var t := total as real;
    var share := votes as real / t;
    assert share * t == votes as real;
    calc {
      VotePercentage(votes, total) * t;
      (share * 100.0) * t;
      (share * t) * 100.0;
    }
  }

  /** A larger count never shows a smaller share of the same total. */
  lemma PercentageMonotone(v1: int, v2: int, total: int)
    requires v1 <= v2
    ensures VotePercentage(v1, total) <= VotePercentage(v2, total)
  {
    if total > 0 {
      var t := total as real;
      assert v1 as real / t <= v2 as real / t;
    }
  }

  /** The shares of all options, added up. */
  function PercentageSum(votes: seq<nat>, total: int): real {
    if votes == [] then 0.0 else VotePercentage(votes[0], total) + PercentageSum(votes[1..], total)
  }

  lemma ShareAdd(a: real, b: real, t: real)
    requires t > 0.0
    ensures (a / t) * 100.0 + (b / t) * 100.0 == ((a + b) / t) * 100.0
  {
  }

  /** The shares of all options add up to the share of their sum. */
  lemma {:induction false} PercentageSumShare(votes: seq<nat>, total: int)
    requires total > 0
    ensures PercentageSum(votes, total) == (Sum(votes) as real / total as real) * 100.0
  {
    if votes != [] {
      PercentageSumShare(votes[1..], total);
      ShareAdd(votes[0] as real, Sum(votes[1..]) as real, total as real);
    }
  }

  /** With a consistent tally and at least one vote, the exact (real) shares add up to 100. */
  lemma PercentagesAddUp(p: Proposal)
    requires TallyConsistent(p) && p.totalVotes > 0
    ensures PercentageSum(p.votes, p.totalVotes) == 100.0
  {
    PercentageSumShare(p.votes, p.totalVotes);
    var t := p.totalVotes as real;
    assert t > 0.0;
    assert (Sum(p.votes) as real) / t == 1.0;
  }

  /** `Math.max(...s)` for a non-empty list. */
  function MaxOf(s: seq<nat>): (m: nat)
    requires |s| > 0
    ensures forall j :: 0 <= j < |s| ==> s[j] <= m
    ensures exists j :: 0 <= j < |s| && s[j] == m
  {
    if |s| == 1 then s[0]
    else
      var rest := MaxOf(s[1..]);
      assert exists j :: 1 <= j < |s| && s[j] == rest by {
        var j :| 0 <= j < |s[1..]| && s[1..][j] == rest;
        assert s[j + 1] == rest;
      }
      if s[0] >= rest then s[0] else rest
  }

  /** `s.findIndex(v => v === x)`: the first position holding `x`, or -1. */
  function FindIndex(s: seq<nat>, x: nat): (r: int)
    ensures -1 <= r < |s|
    ensures r >= 0 ==> s[r] == x && forall j :: 0 <= j < r ==> s[j] != x
    ensures r == -1 <==> x !in s
  {
    if s == [] then -1
    else if s[0] == x then 0
    else
      var k := FindIndex(s[1..], x);
      if k == -1 then -1 else k + 1
  }

  /** `s.filter(v => v === x).length`: at most the length, and 0 exactly when `x` does
      not occur. */
  function CountOf(s: seq<nat>, x: nat): (c: nat)
    ensures c <= |s|
    ensures c == 0 <==> x !in s
  {
    if s == [] then 0
    else
      assert x in s <==> s[0] == x || x in s[1..];
      (if s[0] == x then 1 else 0) + CountOf(s[1..], x)
  }

  /** Two distinct positions hold `x`. */
  predicate Repeated(s: seq<nat>, x: nat) {
    exists i, j :: 0 <= i < j < |s| && s[i] == x && s[j] == x
  }

  lemma {:induction false} CountAboveOne(s: seq<nat>, x: nat)
    ensures CountOf(s, x) > 1 <==> Repeated(s, x)
  {
    if s != [] {
      var t := s[1..];
      CountAboveOne(t, x);
      if Repeated(s, x) {
        var i, j :| 0 <= i < j < |s| && s[i] == x && s[j] == x;
        assert t[j - 1] == x;
        if i > 0 {
          assert t[i - 1] == x;
          assert Repeated(t, x);
        }
      }
      if CountOf(s, x) > 1 {
        if s[0] == x {
          var j :| 0 <= j < |t| && t[j] == x;
          assert s[0] == x && s[j + 1] == x;
        } else {
          var i, j :| 0 <= i < j < |t| && t[i] == x && t[j] == x;
          assert s[i + 1] == x && s[j + 1] == x;
        }
      }
    }
  }

  lemma {:induction false} SumPositiveHasPositive(s: seq<nat>)
    requires Sum(s) > 0
    ensures exists j :: 0 <= j < |s| && s[j] > 0
  {
    if s[0] == 0 {
      SumPositiveHasPositive(s[1..]);
      var j :| 0 <= j < |s[1..]| && s[1..][j] > 0;
      assert s[j + 1] > 0;
    }
  }

  /** The object `getWinner` returns; a tie is reported with option "Tie" and index -1. */
  datatype Winner = Winner(option: string, index: int, votes: nat, percentage: real)

  const TieLabel := "Tie"

  /** `getWinner(proposal)`: nothing before the first vote; otherwise the largest count,
      reported as a tie when two or more options share it and as the option holding it
      when one does (the percentage is that count's share of `totalVotes`). */
  function GetWinner(p: Proposal): (w: Option<Winner>)
    requires TallyConsistent(p)
    ensures w == None <==> p.totalVotes == 0
    ensures w.Some? ==>
      && (forall j :: 0 <= j < |p.votes| ==> p.votes[j] <= w.value.votes)
      && (exists j :: 0 <= j < |p.votes| && p.votes[j] == w.value.votes)
    ensures w.Some? ==>
      w.value.percentage == VotePercentage(w.value.votes, p.totalVotes)
      && 0.0 < w.value.percentage <= 100.0
    ensures w.Some? ==> (w.value.index == -1 <==> Repeated(p.votes, w.value.votes))
    ensures w.Some? && w.value.index == -1 ==> w.value.option == TieLabel
    ensures w.Some? && w.value.index != -1 ==>
      && 0 <= w.value.index < |p.votes|
      && p.votes[w.value.index] == w.value.votes
      && w.value.option == p.options[w.value.index]
      && forall j :: 0 <= j < |p.votes| && j != w.value.index ==> p.votes[j] < w.value.votes
  {
    if p.totalVotes == 0 then None
    else
      SumPositiveHasPositive(p.votes);
      var maxVotes := MaxOf(p.votes);
      var winnerIndex := FindIndex(p.votes, maxVotes);
      var tieCount := CountOf(p.votes, maxVotes);
      var percentage := VotePercentage(maxVotes, p.totalVotes);
      EntryAtMostSum(p.votes, winnerIndex);
      CountAboveOne(p.votes, maxVotes);
      if tieCount > 1 then
        Some(Winner(TieLabel, -1, maxVotes, percentage))
      else
        Some(Winner(p.options[winnerIndex], winnerIndex, maxVotes, percentage))
  }

  /** Votes [3, 3, 1] are a tie at 3; votes [5, 3, 1] are won by option 0 with 5/9 of
      the votes (shown as 55.6). */
  lemma WinnerExamples(q: Proposal)
    requires |q.options| == 3
    ensures GetWinner(q.(votes := [3, 3, 1], totalVotes := 7))
      == Some(Winner(TieLabel, -1, 3, 300.0 / 7.0))
    ensures GetWinner(q.(votes := [5, 3, 1], totalVotes := 9))
      == Some(Winner(q.options[0], 0, 5, 500.0 / 9.0))
  {
    var tie := q.(votes := [3, 3, 1], totalVotes := 7);
    var win := q.(votes := [5, 3, 1], totalVotes := 9);
    assert Sum(tie.votes) == 7 && Sum(win.votes) == 9;
    assert Repeated(tie.votes, 3) by { assert tie.votes[0] == 3 && tie.votes[1] == 3; }
  }
}
