// The admin's verification queue (src/components/AdminVerification.tsx):
// every pending report, tagged with its member's name, and the two
// decisions each entry offers.
module Verification {
  import opened Types
  import opened Lists
  import opened Dashboard
  import opened Roster
  import opened Rounding

  /** A queue entry: the report's fields unchanged, plus the member's name. */
  datatype QueueEntry = QueueEntry(activity: Activity, memberName: string)

  function Tag(acts: seq<Activity>, name: string): (r: seq<QueueEntry>)
    ensures |r| == |acts|
    ensures forall k :: 0 <= k < |acts| ==> r[k] == QueueEntry(acts[k], name)
  {
    if acts == [] then [] else [QueueEntry(acts[0], name)] + Tag(acts[1..], name)
  }

  /**
   * `members.flatMap(m => m.activities.filter(pending).map(a => ({ ...a,
   * memberName: m.name })))`: member-list order first, then each member's
   * own order.
   */
  function Queue(members: seq<Member>): (r: seq<QueueEntry>)
    ensures |r| == |PendingFlat(members)|
    ensures forall k :: 0 <= k < |r| ==> r[k].activity == PendingFlat(members)[k]
  {
    if members == [] then []
    else Tag(Filter(members[0].activities, IsPending), members[0].name) + Queue(members[1..])
  }

  /** The queue of a concatenated list is the two queues one after the other. */
  lemma {:induction false} QueueAppend(xs: seq<Member>, ys: seq<Member>)
    ensures Queue(xs + ys) == Queue(xs) + Queue(ys)
  {
    if xs == [] {
      assert xs + ys == ys;
    } else {
      assert (xs + ys)[1..] == xs[1..] + ys;
      QueueAppend(xs[1..], ys);
    }
  }

  /** One member's part of the queue: its pending reports, tagged with its name. */
  lemma TagPendingContents(m: Member, e: QueueEntry)
    ensures e in Tag(Filter(m.activities, IsPending), m.name) <==>
      exists j :: 0 <= j < |m.activities| && m.activities[j].status == Pending
        && e == QueueEntry(m.activities[j], m.name)
  {
    var pending := Filter(m.activities, IsPending);
    var head := Tag(pending, m.name);
    if e in head {
      var k :| 0 <= k < |head| && head[k] == e;
      var a := pending[k];
      assert a in multiset(pending);
      assert a in multiset(m.activities);
      var j :| 0 <= j < |m.activities| && m.activities[j] == a;
    }
    if exists j :: 0 <= j < |m.activities| && m.activities[j].status == Pending
         && e == QueueEntry(m.activities[j], m.name) {
      var j :| 0 <= j < |m.activities| && m.activities[j].status == Pending
         && e == QueueEntry(m.activities[j], m.name);
      var a := m.activities[j];
      assert a in multiset(m.activities);
      assert a in multiset(pending);
      var k :| 0 <= k < |pending| && pending[k] == a;
      assert head[k] == e;
    }
  }

  /** The queue holds exactly the pending reports, each with its owner's name. */
  lemma {:induction false} QueueContents(members: seq<Member>, e: QueueEntry)
    ensures e in Queue(members) <==>
      exists i, j :: 0 <= i < |members| && 0 <= j < |members[i].activities|
        && members[i].activities[j].status == Pending
        && e == QueueEntry(members[i].activities[j], members[i].name)
  {
    if members != [] {
      QueueContents(members[1..], e);
      TagPendingContents(members[0], e);
      if exists i, j :: 0 <= i < |members| && 0 <= j < |members[i].activities|
           && members[i].activities[j].status == Pending
           && e == QueueEntry(members[i].activities[j], members[i].name) {
        var i, j :| 0 <= i < |members| && 0 <= j < |members[i].activities|
           && members[i].activities[j].status == Pending
           && e == QueueEntry(members[i].activities[j], members[i].name);
        if i > 0 {
          assert members[1..][i - 1] == members[i];
        }
      }
      if e in Queue(members[1..]) {
        var i, j :| 0 <= i < |members[1..]| && 0 <= j < |members[1..][i].activities|
           && members[1..][i].activities[j].status == Pending
           && e == QueueEntry(members[1..][i].activities[j], members[1..][i].name);
        assert members[i + 1] == members[1..][i];
      }
    }
  }

  /** The queue's length is the number of pending reports across all members. */
  lemma {:induction false} QueueLength(members: seq<Member>)
    ensures |Queue(members)| == PendingCount(members)
    ensures |Queue(members)| == PendingActivities(members)
  {
    PendingFiguresAgree(members);
    if members != [] {
      QueueLength(members[1..]);
      CountIsFilterLength(members[0].activities, IsPending);
    }
  }

  /** The "no new requests" branch shows exactly when nothing is pending. */
  predicate ShowsEmptyState(members: seq<Member>)
  {
    |Queue(members)| == 0
  }

  lemma EmptyStateIffNothingPending(members: seq<Member>)
    ensures ShowsEmptyState(members) <==>
      forall i, j :: 0 <= i < |members| && 0 <= j < |members[i].activities| ==>
        members[i].activities[j].status != Pending
  {
    QueueLength(members);
    PendingCountZero(members);
  }

  /** The arguments a button passes to `onVerify`. */
  datatype VerifyCall = VerifyCall(memberId: string, activityId: string, status: Decision)

  /** "Reject" on an entry. */
  function RejectCall(e: QueueEntry): (c: VerifyCall)
    ensures c.status == Rejected && c.activityId == e.activity.id && c.memberId == e.activity.memberId
  {
    VerifyCall(e.activity.memberId, e.activity.id, Rejected)
  }

  /** "Confirm" on an entry. */
  function ConfirmCall(e: QueueEntry): (c: VerifyCall)
    ensures c.status == Verified && c.activityId == e.activity.id && c.memberId == e.activity.memberId
  {
    VerifyCall(e.activity.memberId, e.activity.id, Verified)
  }

  /**
   * The buttons address the member through the report's own `memberId`. In
   * a well-formed list with unique member ids that is the owning row, so
   * confirming the entry of report j of member i marks that report verified
   * and credits its points to that member.
   */
  lemma ConfirmReachesOwner(members: seq<Member>, i: nat, j: nat)
    requires WellFormed(members)
    requires i < |members| && j < |members[i].activities|
    requires forall k :: 0 <= k < |members| && k != i ==> members[k].id != members[i].id
    requires members[i].activities[j].status == Pending
    ensures var c := ConfirmCall(QueueEntry(members[i].activities[j], members[i].name));
            var after := Verify(members, c.memberId, c.activityId, c.status);
            && after[i].activities[j].status == Verified
            && after[i].efficiency == VerifiedEfficiency(members[i].efficiency,
                                        CreditedPoints(members[i].activities, c.activityId))
            && forall k :: 0 <= k < |members| && k != i ==> after[k] == members[k]
  {
    var m := members[i];
    assert MemberWellFormed(m);
    assert m.activities[j].memberId == m.id;
    assert FindMember(members, m.id) == Some(m);
  }
}
