/**
 The referral panel of a logged-in user: the users whose `referredBy` is that
 user's id, most recent first, their count, and the gamification derived
 from the count (goal 10, ultimate goal 15).
 */
module Referrals {
  import opened Base
  import opened Users

  /** The store query for the records whose `referredBy` equals `id`, in store order. */
  function ReferredBy(users: seq<User>, id: string): (r: seq<User>)
    ensures forall u :: u in r <==> u in users && u.referredBy == Some(id)
    ensures |r| <= |users|
  {
    if users == [] then []
    else if users[0].referredBy == Some(id) then [users[0]] + ReferredBy(users[1..], id)
    else ReferredBy(users[1..], id)
  }

  lemma {:induction false} ReferredByAppend(users: seq<User>, u: User, id: string)
    ensures ReferredBy(users + [u], id)
            == ReferredBy(users, id) + (if u.referredBy == Some(id) then [u] else [])
    decreases |users|
  {
    if users == [] {
      assert [u][1..] == [];
    } else {
      assert (users + [u])[1..] == users[1..] + [u];
      ReferredByAppend(users[1..], u, id);
    }
  }

  /** Most recent first: timestamps never increase along the list. */
  predicate NewestFirst(s: seq<User>) {
    forall i, j :: 0 <= i < j < |s| ==> s[i].timestamp >= s[j].timestamp
  }

  /** Puts `x` in front of the first element that is not newer than it, so
      that elements with equal timestamps keep their relative order. */
  function Insert(x: User, s: seq<User>): (r: seq<User>)
    requires NewestFirst(s)
    ensures NewestFirst(r)
    ensures multiset(r) == multiset(s) + multiset{x}
  {
    if s == [] then [x]
    else if x.timestamp >= s[0].timestamp then [x] + s
    else
      var rest := Insert(x, s[1..]);
      assert multiset(s) == multiset{s[0]} + multiset(s[1..]) by {
        assert s == [s[0]] + s[1..];
      }
      assert forall u | u in rest :: u.timestamp <= s[0].timestamp by {
        forall u | u in rest ensures u.timestamp <= s[0].timestamp {
          assert u in multiset(rest);
          if u != x {
            assert u in multiset(s[1..]);
          }
        }
      }
      [s[0]] + rest
  }

  /** The referral list's sort: stable, by timestamp, most recent first. */
  function SortNewestFirst(s: seq<User>): (r: seq<User>)
    ensures NewestFirst(r)
    ensures multiset(r) == multiset(s)
  {
    if s == [] then []
    else
      assert s == [s[0]] + s[1..];
      Insert(s[0], SortNewestFirst(s[1..]))
  }

  /** The elements of `s` stamped `t`, in their order in `s`. */
  function StampedAt(s: seq<User>, t: int): (r: seq<User>)
    ensures forall u :: u in r <==> u in s && u.timestamp == t
  {
    if s == [] then []
    else if s[0].timestamp == t then [s[0]] + StampedAt(s[1..], t)
    else StampedAt(s[1..], t)
  }

  /** Inserting `x` puts it ahead of every element that has its timestamp. */
  lemma {:induction false} InsertStable(x: User, s: seq<User>, t: int)
    requires NewestFirst(s)
    ensures StampedAt(Insert(x, s), t) == (if x.timestamp == t then [x] else []) + StampedAt(s, t)
    decreases |s|
  {
    if s == [] {
      assert [x][1..] == [];
    } else if x.timestamp >= s[0].timestamp {
      assert ([x] + s)[1..] == s;
    } else {
      var rest := Insert(x, s[1..]);
      assert ([s[0]] + rest)[1..] == rest;
      InsertStable(x, s[1..], t);
    }
  }

  /** Ties keep their input order: among the elements with one timestamp the
      sorted list is the input list. */
  lemma {:induction false} SortStable(s: seq<User>, t: int)
    ensures StampedAt(SortNewestFirst(s), t) == StampedAt(s, t)
    decreases |s|
  {
    if s != [] {
      SortStable(s[1..], t);
      InsertStable(s[0], SortNewestFirst(s[1..]), t);
    }
  }

  /** The referral list shown on the panel. */
  function ListReferrals(users: seq<User>, id: string): (r: seq<User>)
    ensures NewestFirst(r)
    ensures multiset(r) == multiset(ReferredBy(users, id))
    ensures forall u :: u in r <==> u in users && u.referredBy == Some(id)
  {
    var r := SortNewestFirst(ReferredBy(users, id));
    assert forall u :: u in r <==> u in ReferredBy(users, id) by {
      forall u ensures u in r <==> u in ReferredBy(users, id) {
        assert u in r <==> u in multiset(r);
      }
    }
    r
  }

  /** The referral count: the length of the list, which is the number of
      store records that name `id`. */
  function ReferralCount(users: seq<User>, id: string): (n: nat)
    ensures n == |ReferredBy(users, id)|
    ensures n <= |users|
  {
    var r := ListReferrals(users, id);
    assert |r| == |multiset(r)| == |multiset(ReferredBy(users, id))| == |ReferredBy(users, id)|;
    |r|
  }

  /** A new record naming `id` as referrer joins the list, and the count grows by one. */
  lemma ReferralAdded(users: seq<User>, u: User, id: string)
    requires u.referredBy == Some(id)
    ensures u in ListReferrals(users + [u], id)
    ensures ReferralCount(users + [u], id) == ReferralCount(users, id) + 1
  {
    ReferredByAppend(users, u, id);
  }

  /** A new record naming another referrer, or none, leaves the count of `id` alone. */
  lemma ReferralUnrelated(users: seq<User>, u: User, id: string)
    requires u.referredBy != Some(id)
    ensures ReferralCount(users + [u], id) == ReferralCount(users, id)
    ensures ListReferrals(users + [u], id) == ListReferrals(users, id)
  {
    ReferredByAppend(users, u, id);
    assert ReferredBy(users, id) + [] == ReferredBy(users, id);
  }

  const Goal: nat := 10
  const UltimateGoal: nat := 15

  /** The block below the progress bar. */
  datatype Tier =
    | InProgress(remaining: nat)   // how many referrals the first goal still needs
    | GoalReached(next: nat)       // first goal met; the next goal unlocks the wellness kit
    | UltimateReached              // the wellness kit is unlocked

  /** The gamification state derived from the referral count on every render. */
  datatype Progress = Progress(
    count: nat,
    percent: nat,
    isGoalMet: bool,
    isUltimateGoalMet: bool,
    showsGoalBadge: bool,
    showsUltimateBanner: bool,
    tier: Tier)

  /** The width of the progress bar: the count as a rounded percentage of the
      goal, capped at 100. */
  function ProgressPercent(count: nat): (r: nat)
    ensures r <= 100
    ensures r == 100 <==> count >= Goal
    ensures count < Goal ==> r == 10 * count
  {
    var p := RoundPercent(count, Goal);
    RoundPercentUnique(count, Goal, 10 * count);
    if p < 100 then p else 100
  }

  /** The flags, the badge beside the counter, the banner on top, and the
      block below the bar: the first goal's message while it is unmet, then
      the intermediate reward until the ultimate goal, then the top reward. */
  function ProgressOf(count: nat): (p: Progress)
    ensures p.count == count && p.percent == ProgressPercent(count)
    ensures p.isGoalMet <==> count >= Goal
    ensures p.isUltimateGoalMet <==> count >= UltimateGoal
    ensures p.isUltimateGoalMet ==> p.isGoalMet
    ensures p.tier.InProgress? <==> count < 10
    ensures p.tier.InProgress? ==> p.tier.remaining == 10 - count && p.tier.remaining >= 1
    ensures p.tier.GoalReached? <==> 10 <= count < 15
    ensures p.tier.GoalReached? ==> p.tier.next == 15
    ensures p.tier.UltimateReached? <==> count >= 15
    ensures p.showsGoalBadge <==> p.tier.GoalReached?
    ensures p.showsUltimateBanner <==> p.tier.UltimateReached?
    ensures p.percent == 100 <==> p.isGoalMet
  {
    var goalMet := count >= Goal;
    var ultimateMet := count >= UltimateGoal;
    var tier :=
      if !goalMet then InProgress(Goal - count)
      else if !ultimateMet then GoalReached(UltimateGoal)
      else UltimateReached;
    Progress(count, ProgressPercent(count), goalMet, ultimateMet,
             goalMet && !ultimateMet, ultimateMet, tier)
  }

  /** The boundary counts named by the programme's rules. */
  lemma TierBoundaries()
    ensures ProgressOf(9).tier == InProgress(1)
    ensures ProgressOf(10).tier == GoalReached(15)
    ensures ProgressOf(14).tier == GoalReached(15)
    ensures ProgressOf(15).tier == UltimateReached
    ensures ProgressOf(9).percent == 90 && ProgressOf(12).percent == 100
  {
  }
}
