// The member-list transitions behind the handlers of src/App.tsx, as pure
// functions from the member list before a handler to the list after it:
// logging in, adding a member, submitting a report and verifying one.
module Roster {
  import opened Types
  import opened Lists
  import opened Rounding

  // ---------------------------------------------------------------- login

  predicate CredentialsMatch(m: Member, login: string, password: string)
  {
    m.login == login && m.password == Some(password)
  }

  predicate IsAdminPair(login: string, password: string)
  {
    login == AdminLogin && password == AdminPassword
  }

  /**
   * The session a login attempt opens, or None when the credentials are
   * refused. The static admin pair wins over any member row; otherwise the
   * first member in list order whose login and password both match.
   */
  function Login(members: seq<Member>, login: string, password: string): (r: Option<Session>)
    ensures IsAdminPair(login, password) ==> r == Some(Session(Admin, None, AdminName))
    ensures !IsAdminPair(login, password) ==>
      (r.Some? <==> exists i :: 0 <= i < |members| && CredentialsMatch(members[i], login, password))
    ensures !IsAdminPair(login, password) && r.Some? ==>
      exists i :: 0 <= i < |members| && CredentialsMatch(members[i], login, password)
        && (forall j :: 0 <= j < i ==> !CredentialsMatch(members[j], login, password))
        && r.value == Session(MemberRole, Some(members[i].id), members[i].name)
  {
    if IsAdminPair(login, password) then Some(Session(Admin, None, AdminName))
    else
      match FindIndex(members, m => CredentialsMatch(m, login, password))
      case None => None
      case Some(i) => Some(Session(MemberRole, Some(members[i].id), members[i].name))
  }

  // ------------------------------------------------------- member records

  predicate HasId(m: Member, id: string)
  {
    m.id == id
  }

  /** `members.find(m => m.id === id)`. */
  function FindMember(members: seq<Member>, id: string): (r: Option<Member>)
    ensures r.Some? <==> exists i :: 0 <= i < |members| && members[i].id == id
    ensures r.Some? ==> r.value in members && r.value.id == id
    ensures r.Some? ==> exists i :: 0 <= i < |members| && members[i] == r.value
                          && forall j :: 0 <= j < i ==> members[j].id != id
  {
    match FindIndex(members, m => HasId(m, id))
    case None => None
    case Some(i) => Some(members[i])
  }

  /**
   * A partial update of a member row: each present field replaces the
   * stored one, the absent ones are left alone.
   */
  datatype Patch = Patch(activities: Option<seq<Activity>>, efficiency: Option<int>)

  function ApplyPatch(m: Member, p: Patch): (r: Member)
    ensures r.activities == (if p.activities.Some? then p.activities.value else m.activities)
    ensures r.efficiency == (if p.efficiency.Some? then p.efficiency.value else m.efficiency)
    ensures r.(activities := m.activities, efficiency := m.efficiency) == m
  {
    var withActs := if p.activities.Some? then m.(activities := p.activities.value) else m;
    if p.efficiency.Some? then withActs.(efficiency := p.efficiency.value) else withActs
  }

  /**
   * The store's update filtered by `id`: every row carrying that id is
   * patched, every other row is left as it was, and the order is kept.
   */
  function UpdateById(members: seq<Member>, id: string, p: Patch): (r: seq<Member>)
    ensures |r| == |members|
    ensures forall i :: 0 <= i < |members| && members[i].id == id ==> r[i] == ApplyPatch(members[i], p)
    ensures forall i :: 0 <= i < |members| && members[i].id != id ==> r[i] == members[i]
  {
    if members == [] then []
    else
      [if members[0].id == id then ApplyPatch(members[0], p) else members[0]]
        + UpdateById(members[1..], id, p)
  }

  /** What the form of a new member supplies. */
  datatype MemberDraft = MemberDraft(
    id: string,
    name: string,
    position: string,
    committee: string,
    login: string,
    password: Option<string>)

  /**
   * The row inserted for a new member: the draft's id, or a fresh one when
   * the draft has none; efficiency 0, no activities, the MEMBER role.
   */
  function NewMember(draft: MemberDraft, freshId: string): (m: Member)
    ensures m.id == (if draft.id != "" then draft.id else freshId)
    ensures m.efficiency == 0 && m.activities == [] && m.role == MemberRole
    ensures m.name == draft.name && m.position == draft.position && m.committee == draft.committee
    ensures m.login == draft.login && m.password == draft.password
  {
    Member(if draft.id != "" then draft.id else freshId, draft.name, draft.position,
           draft.committee, 0, draft.login, draft.password, [], MemberRole)
  }

  // ------------------------------------------------------ report submission

  /** What the report form supplies; its own date field is not used. */
  datatype ActivityForm = ActivityForm(kind: string, title: string, description: string, date: string)

  /** The nominal points of a report: 20 for a project, 10 for anything else. */
  function PointsFor(kind: string): (p: int)
    ensures p == 20 <==> kind == ProjectKind
    ensures p == 10 <==> kind != ProjectKind
  {
    if kind == ProjectKind then 20 else 10
  }

  function NewActivity(form: ActivityForm, id: string, now: string, memberId: string): (a: Activity)
    ensures a.status == Pending && a.memberId == memberId && a.id == id && a.date == now
    ensures a.points == PointsFor(form.kind)
    ensures a.kind == form.kind && a.title == form.title && a.description == form.description
  {
    Activity(id, form.kind, form.title, form.description, now, Pending, PointsFor(form.kind), memberId)
  }

  /**
   * A session with a member id that JavaScript counts as true (present and
   * not empty), as `user?.memberId` is tested.
   */
  predicate HasMemberId(user: Option<Session>)
  {
    user.Some? && user.value.memberId.Some? && user.value.memberId.value != ""
  }

  /** A member session whose member is in the list: the only case a report is stored. */
  predicate HasMemberSession(members: seq<Member>, user: Option<Session>)
  {
    HasMemberId(user) && FindMember(members, user.value.memberId.value).Some?
  }

  /**
   * The member list after the logged-in member submits a report: the report
   * is appended to the first row with the session's member id and that list
   * is written to every row with the id. Nothing changes without a member
   * session (an empty member id counts as none) or when the id is unknown.
   */
  function Submit(members: seq<Member>, user: Option<Session>, form: ActivityForm,
                  freshId: string, now: string): (r: seq<Member>)
    ensures |r| == |members|
    ensures !HasMemberSession(members, user) ==> r == members
    ensures HasMemberId(user) ==>
      var id := user.value.memberId.value;
      match FindMember(members, id)
      case None => r == members
      case Some(m) =>
        forall i :: 0 <= i < |members| ==>
          r[i] == if members[i].id == id
                  then members[i].(activities := m.activities + [NewActivity(form, freshId, now, id)])
                  else members[i]
  {
    if !HasMemberId(user) then members
    else
      var id := user.value.memberId.value;
      match FindMember(members, id)
      case None => members
      case Some(m) =>
        UpdateById(members, id, Patch(Some(m.activities + [NewActivity(form, freshId, now, id)]), None))
  }

  // ---------------------------------------------------------- verification

  /**
   * `activities.map(a => a.id === id ? { ...a, status } : a)`: every
   * activity with the id takes the new status, all others are untouched.
   */
  function SetStatus(acts: seq<Activity>, id: string, status: ActivityStatus): (r: seq<Activity>)
    ensures |r| == |acts|
    ensures forall i :: 0 <= i < |acts| && acts[i].id == id ==> r[i] == acts[i].(status := status)
    ensures forall i :: 0 <= i < |acts| && acts[i].id != id ==> r[i] == acts[i]
  {
    if acts == [] then []
    else [if acts[0].id == id then acts[0].(status := status) else acts[0]] + SetStatus(acts[1..], id, status)
  }

  predicate ActivityHasId(a: Activity, id: string)
  {
    a.id == id
  }

  /**
   * The points a verification credits: those of the first activity with the
   * id, or 0 when there is none (`act?.points || 0`).
   */
  function CreditedPoints(acts: seq<Activity>, id: string): (p: int)
    ensures (forall i :: 0 <= i < |acts| ==> acts[i].id != id) ==> p == 0
    ensures (exists i :: 0 <= i < |acts| && acts[i].id == id) ==>
      exists i :: 0 <= i < |acts| && acts[i].id == id && p == acts[i].points
        && forall j :: 0 <= j < i ==> acts[j].id != id
  {
    match FindIndex(acts, a => ActivityHasId(a, id))
    case None => 0
    case Some(i) => acts[i].points
  }

  /**
   * The patch written for a verification decision: the re-statused activity
   * list, and the efficiency (raised by a tenth of the points, rounded and
   * capped at 100, only when the decision is `verified`).
   */
  function VerifyPatch(m: Member, activityId: string, status: Decision): (p: Patch)
    ensures p.activities == Some(SetStatus(m.activities, activityId, status))
    ensures p.efficiency.Some?
    ensures status == Rejected ==> p.efficiency.value == m.efficiency
    ensures status == Verified ==>
      p.efficiency.value == VerifiedEfficiency(m.efficiency, CreditedPoints(m.activities, activityId))
    ensures ((forall i :: 0 <= i < |m.activities| ==> m.activities[i].id != activityId)
             && 0 <= m.efficiency <= 100) ==> p.efficiency.value == m.efficiency
  {
    var newEff := if status == Verified
      then VerifiedEfficiency(m.efficiency, CreditedPoints(m.activities, activityId))
      else m.efficiency;
    Patch(Some(SetStatus(m.activities, activityId, status)), Some(newEff))
  }

  /**
   * The member list after an admin decides on a report: the first row with
   * the member id supplies the record, and every row with that id receives
   * the patch. An unknown member id changes nothing.
   */
  function Verify(members: seq<Member>, memberId: string, activityId: string, status: Decision): (r: seq<Member>)
    ensures |r| == |members|
    ensures (forall i :: 0 <= i < |members| ==> members[i].id != memberId) ==> r == members
    ensures FindMember(members, memberId).Some? ==>
      var patch := VerifyPatch(FindMember(members, memberId).value, activityId, status);
      forall i :: 0 <= i < |members| ==>
        r[i] == if members[i].id == memberId then ApplyPatch(members[i], patch) else members[i]
  {
    match FindMember(members, memberId)
    case None => members
    case Some(m) => UpdateById(members, memberId, VerifyPatch(m, activityId, status))
  }

  // ------------------------------------------------------------ invariants

  /**
   * What every transition keeps true of the member list: efficiencies lie in
   * [0, 100], and every activity belongs to the row that holds it and is
   * worth a non-negative number of points.
   */
  ghost predicate WellFormed(members: seq<Member>)
  {
    forall i :: 0 <= i < |members| ==> MemberWellFormed(members[i])
  }

  ghost predicate MemberWellFormed(m: Member)
  {
    && 0 <= m.efficiency <= 100
    && forall j :: 0 <= j < |m.activities| ==>
         m.activities[j].memberId == m.id && m.activities[j].points >= 0
  }

  lemma SubmitPreservesWellFormed(members: seq<Member>, user: Option<Session>, form: ActivityForm,
                                  freshId: string, now: string)
    requires WellFormed(members)
    ensures WellFormed(Submit(members, user, form, freshId, now))
  {
    if user.Some? && user.value.memberId.Some? {
      var id := user.value.memberId.value;
      var found := FindMember(members, id);
      if found.Some? {
        var m := found.value;
        var k :| 0 <= k < |members| && members[k] == m;
        assert MemberWellFormed(members[k]);
        var r := Submit(members, user, form, freshId, now);
        forall i | 0 <= i < |members| ensures MemberWellFormed(r[i]) {
          assert MemberWellFormed(members[i]);
        }
      }
    }
  }

  lemma VerifyPatchWellFormed(m: Member, activityId: string, status: Decision)
    requires MemberWellFormed(m)
    ensures MemberWellFormed(ApplyPatch(m, VerifyPatch(m, activityId, status)))
    ensures m.efficiency <= ApplyPatch(m, VerifyPatch(m, activityId, status)).efficiency
  {
    var p := CreditedPoints(m.activities, activityId);
    assert p >= 0;
  }

  /**
   * Verification keeps the list well formed and touches only the rows with
   * the member id, which all take the efficiency the first such row yields
   * (on a rejection, that row's own efficiency).
   */
  lemma VerifyPreservesWellFormed(members: seq<Member>, memberId: string, activityId: string, status: Decision)
    requires WellFormed(members)
    ensures WellFormed(Verify(members, memberId, activityId, status))
    ensures forall i :: 0 <= i < |members| ==>
      members[i].id != memberId ==> Verify(members, memberId, activityId, status)[i] == members[i]
    ensures status == Rejected ==> forall i :: 0 <= i < |members| ==>
      Verify(members, memberId, activityId, status)[i].efficiency
        == (if members[i].id == memberId then FindMember(members, memberId).value.efficiency
            else members[i].efficiency)
  {
    var found := FindMember(members, memberId);
    if found.Some? {
      var m := found.value;
      var k :| 0 <= k < |members| && members[k] == m;
      assert MemberWellFormed(members[k]);
      VerifyPatchWellFormed(m, activityId, status);
    }
  }

  /**
   * With unique member ids, verification never lowers an efficiency, and a
   * rejection leaves every efficiency as it was.
   */
  lemma VerifyNeverLowers(members: seq<Member>, memberId: string, activityId: string, status: Decision)
    requires WellFormed(members)
    requires forall i, j :: 0 <= i < j < |members| ==> members[i].id != members[j].id
    ensures forall i :: 0 <= i < |members| ==>
      members[i].efficiency <= Verify(members, memberId, activityId, status)[i].efficiency
    ensures status == Rejected ==> forall i :: 0 <= i < |members| ==>
      Verify(members, memberId, activityId, status)[i].efficiency == members[i].efficiency
  {
    var r := Verify(members, memberId, activityId, status);
    var found := FindMember(members, memberId);
    if found.Some? {
      var m := found.value;
      var k :| 0 <= k < |members| && members[k] == m;
      assert MemberWellFormed(m);
      VerifyPatchWellFormed(m, activityId, status);
      forall i | 0 <= i < |members|
        ensures members[i].efficiency <= r[i].efficiency
        ensures status == Rejected ==> r[i].efficiency == members[i].efficiency
      {
        if members[i].id == memberId {
          assert i == k;
        }
      }
    }
  }

  /**
   * Without unique ids the write reaches every row with the id: two rows
   * "x" with efficiencies 10 and 90 both end at 10 after a rejection, so the
   * second row loses 80.
   */
  lemma DuplicateIdsShareFirstRow(a: Member, b: Member)
    requires a.id == "x" && b.id == "x" && a.activities == [] && b.activities == []
    requires a.efficiency == 10 && b.efficiency == 90
    ensures Verify([a, b], "x", "act", Rejected)[1].efficiency == 10
  {
    assert FindMember([a, b], "x") == Some(a);
  }

  /**
   * An activity's points and id survive a status change, so the points a
   * later verification credits are the same.
   */
  lemma CreditedPointsAfterSetStatus(acts: seq<Activity>, id: string, other: string, status: ActivityStatus)
    ensures CreditedPoints(SetStatus(acts, other, status), id) == CreditedPoints(acts, id)
  {
    var acts' := SetStatus(acts, other, status);
    var p := (a: Activity) => ActivityHasId(a, id);
    FindIndexPointwise(acts', acts, p);
  }

  /**
   * Nothing stops a second verification of an already verified report: its
   * points are credited again. With unique ids, the member's efficiency
   * after two confirmations is the verification step applied twice.
   */
  lemma ReverifyCreditsTwice(members: seq<Member>, k: nat, activityId: string)
    requires k < |members|
    requires forall j :: 0 <= j < |members| && j != k ==> members[j].id != members[k].id
    ensures var id := members[k].id;
            var once := Verify(members, id, activityId, Verified);
            var twice := Verify(once, id, activityId, Verified);
            var p := CreditedPoints(members[k].activities, activityId);
            && once[k].efficiency == VerifiedEfficiency(members[k].efficiency, p)
            && twice[k].efficiency == VerifiedEfficiency(VerifiedEfficiency(members[k].efficiency, p), p)
  {
    var id := members[k].id;
    var m := members[k];
    assert FindMember(members, id) == Some(m);
    var once := Verify(members, id, activityId, Verified);
    var m1 := ApplyPatch(m, VerifyPatch(m, activityId, Verified));
    assert once[k] == m1;
    assert forall j :: 0 <= j < |once| && j != k ==> once[j].id != id;
    assert FindMember(once, id) == Some(m1);
    CreditedPointsAfterSetStatus(m.activities, activityId, activityId, Verified);
  }

  /** A project report confirmed twice lifts 50 to 54 instead of 52. */
  lemma ReverifyExample()
    ensures VerifiedEfficiency(VerifiedEfficiency(50, 20), 20) == 54
  {
  }

  lemma AddMemberPreservesWellFormed(members: seq<Member>, draft: MemberDraft, freshId: string)
    requires WellFormed(members)
    ensures WellFormed(members + [NewMember(draft, freshId)])
  {
  }

  /** `members.map(m => m.committee)`. */
  function CommitteeColumn(members: seq<Member>): (r: seq<string>)
    ensures |r| == |members|
    ensures forall i :: 0 <= i < |members| ==> r[i] == members[i].committee
  {
    if members == [] then [] else [members[0].committee] + CommitteeColumn(members[1..])
  }
}
