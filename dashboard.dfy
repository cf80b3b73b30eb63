// The three figures of the dashboard (src/components/Dashboard.tsx) and the
// pending counter shown in the navigation (src/App.tsx), as folds over the
// member list.
module Dashboard {
  import opened Types
  import opened Lists
  import opened Rounding

  predicate IsPending(a: Activity)
  {
    a.status == Pending
  }

  /** `members.reduce((acc, m) => acc + m.efficiency, 0)`. */
  function EfficiencySum(members: seq<Member>): (r: int)
    ensures (forall i :: 0 <= i < |members| ==> members[i].efficiency >= 0) ==>
      r >= 0 && forall i :: 0 <= i < |members| ==> members[i].efficiency <= r
  {
    if members == [] then 0 else members[0].efficiency + EfficiencySum(members[1..])
  }

  lemma {:induction false} EfficiencySumBounds(members: seq<Member>, lo: int, hi: int)
    requires forall i :: 0 <= i < |members| ==> lo <= members[i].efficiency <= hi
    ensures |members| * lo <= EfficiencySum(members) <= |members| * hi
  {
    if members != [] {
      var rest := members[1..];
      assert forall i :: 0 <= i < |rest| ==> rest[i] == members[i + 1];
      EfficiencySumBounds(rest, lo, hi);
      ScaleStep(|rest|, members[0].efficiency, EfficiencySum(rest), lo, hi);
    }
  }

  /** Adding one more value in [lo, hi] to a sum of n such values. */
  lemma ScaleStep(n: nat, x: int, sum: int, lo: int, hi: int)
    requires n * lo <= sum <= n * hi && lo <= x <= hi
    ensures (n + 1) * lo <= x + sum <= (n + 1) * hi
  {
    assert (n + 1) * lo == n * lo + lo;
    assert (n + 1) * hi == n * hi + hi;
  }

  /**
   * `Math.round(sum / members.length)`. With no members the division gives
   * NaN, modelled as None.
   */
  function AvgEfficiency(members: seq<Member>): (r: Option<int>)
    ensures r.None? <==> members == []
    ensures r.Some? ==> r.value == RoundHalfUp(EfficiencySum(members) as real / |members| as real)
  {
    if members == [] then None
    else
      RoundedAverageIsRounded(EfficiencySum(members), |members|);
      Some(RoundedAverage(EfficiencySum(members), |members|))
  }

  /**
   * When every efficiency lies in [lo, hi] the average does too; in
   * particular it lies in [0, 100] and between the smallest and the largest
   * efficiency.
   */
  lemma AvgEfficiencyBounds(members: seq<Member>, lo: int, hi: int)
    requires members != []
    requires forall i :: 0 <= i < |members| ==> lo <= members[i].efficiency <= hi
    ensures lo <= AvgEfficiency(members).value <= hi
  {
    EfficiencySumBounds(members, lo, hi);
    RoundedAverageBounds(EfficiencySum(members), |members|, lo, hi);
  }

  lemma AvgEfficiencyBetweenExtremes(members: seq<Member>, i: nat, j: nat)
    requires i < |members| && j < |members|
    requires forall k :: 0 <= k < |members| ==>
      members[i].efficiency <= members[k].efficiency <= members[j].efficiency
    ensures members[i].efficiency <= AvgEfficiency(members).value <= members[j].efficiency
  {
    AvgEfficiencyBounds(members, members[i].efficiency, members[j].efficiency);
  }

  /** `members.reduce((acc, m) => acc + m.activities.length, 0)`. */
  function TotalActivities(members: seq<Member>): (r: nat)
    ensures forall i :: 0 <= i < |members| ==> |members[i].activities| <= r
    ensures r == 0 <==> forall i :: 0 <= i < |members| ==> members[i].activities == []
  {
    if members == [] then 0 else |members[0].activities| + TotalActivities(members[1..])
  }

  /** `members.flatMap(m => m.activities.filter(a => a.status === 'pending'))`. */
  function PendingFlat(members: seq<Member>): (r: seq<Activity>)
    ensures forall k :: 0 <= k < |r| ==> r[k].status == Pending
    ensures forall a :: a in r <==>
      exists i :: 0 <= i < |members| && a in members[i].activities && a.status == Pending
    ensures |r| <= TotalActivities(members)
  {
    if members == [] then []
    else
      var head := Filter(members[0].activities, IsPending);
      var tail := PendingFlat(members[1..]);
      assert forall a :: a in head <==> a in members[0].activities && a.status == Pending by {
        forall a ensures a in head <==> a in members[0].activities && a.status == Pending {
          assert a in head <==> a in multiset(head);
          assert a in members[0].activities <==> a in multiset(members[0].activities);
        }
      }
      assert forall i :: 1 <= i < |members| ==> members[i] == members[1..][i - 1];
      head + tail
  }

  /** The dashboard's `pendingActivities`: the length of the flattened list. */
  function PendingActivities(members: seq<Member>): (r: nat)
    ensures r <= TotalActivities(members)
    ensures r == 0 <==> forall i, j :: 0 <= i < |members| && 0 <= j < |members[i].activities| ==>
      members[i].activities[j].status != Pending
  {
    var flat := PendingFlat(members);
    assert flat != [] ==>
      exists i, j :: 0 <= i < |members| && 0 <= j < |members[i].activities| &&
        members[i].activities[j].status == Pending
    by {
      if flat != [] {
        var i :| 0 <= i < |members| && flat[0] in members[i].activities && flat[0].status == Pending;
        var j :| 0 <= j < |members[i].activities| && members[i].activities[j] == flat[0];
      }
    }
    assert forall i, j :: 0 <= i < |members| && 0 <= j < |members[i].activities| ==>
      members[i].activities[j].status == Pending ==> members[i].activities[j] in flat;
    |flat|
  }

  /**
   * The navigation counter `pendingCount`: the sum over members of the number
   * of their pending activities.
   */
  function PendingCount(members: seq<Member>): (r: nat)
    ensures r <= TotalActivities(members)
  {
    if members == [] then 0 else Count(members[0].activities, IsPending) + PendingCount(members[1..])
  }

  /**
   * The dashboard and the navigation count the same reports, and never more
   * reports than there are.
   */
  lemma {:induction false} PendingFiguresAgree(members: seq<Member>)
    ensures PendingActivities(members) == PendingCount(members)
    ensures PendingCount(members) <= TotalActivities(members)
  {
    if members != [] {
      PendingFiguresAgree(members[1..]);
      CountIsFilterLength(members[0].activities, IsPending);
    }
  }

  /** No member has a pending report exactly when the count is zero. */
  lemma {:induction false} PendingCountZero(members: seq<Member>)
    ensures PendingCount(members) == 0 <==>
      forall i, j :: 0 <= i < |members| && 0 <= j < |members[i].activities| ==>
        members[i].activities[j].status != Pending
  {
    if members != [] {
      PendingCountZero(members[1..]);
      assert forall i :: 1 <= i < |members| ==> members[i] == members[1..][i - 1];
    }
  }
}
