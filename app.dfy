// The application shell of src/App.tsx: the member list it holds, the
// session, the open tab and the login error, and the handlers that change
// them. The member list stands for the store as last fetched: a write that
// the store accepts is followed by a re-fetch, a refused one (`stored` is
// false) leaves everything as it was.
module App {
  import opened Types
  import opened Lists
  import opened Rounding
  import opened Roster
  import Dashboard

  datatype Tab =
    | DashboardTab | MembersTab | AddMemberTab | VerificationTab | MyProfileTab
    | AddActivityTab | RankingTab | AiReportTab | TasksTab

  const InvalidCredentials: string := "Неверный логин или пароль"

  class ParliamentApp {
    var members: seq<Member>
    var user: Option<Session>
    var activeTab: Tab
    var loginError: string

    /** The shell after the initial fetch has delivered `loaded`. */
    constructor (loaded: seq<Member>)
      ensures members == loaded && user == None && activeTab == DashboardTab && loginError == ""
    {
      members := loaded;
      user := None;
      activeTab := DashboardTab;
      loginError := "";
    }

    /**
     * Submitting the login form: the admin pair opens an admin session on
     * the dashboard, a matching member a member session on the profile tab;
     * anything else leaves the session alone and sets the error text.
     */
    method HandleLogin(login: string, password: string)
      modifies this
      ensures members == old(members)
      ensures Login(members, login, password).Some? ==>
        && user == Login(members, login, password)
        && loginError == ""
        && activeTab == (if IsAdminPair(login, password) then DashboardTab else MyProfileTab)
      ensures Login(members, login, password).None? ==>
        user == old(user) && loginError == InvalidCredentials && activeTab == old(activeTab)
    {
      loginError := "";
      if login == AdminLogin && password == AdminPassword {
        user := Some(Session(Admin, None, AdminName));
        activeTab := DashboardTab;
        return;
      }
      var found := Find(members, m => CredentialsMatch(m, login, password));
      if found.Some? {
        user := Some(Session(MemberRole, Some(found.value.id), found.value.name));
        activeTab := MyProfileTab;
      } else {
        loginError := InvalidCredentials;
      }
    }

    method Logout()
      modifies this
      ensures user == None
      ensures members == old(members) && activeTab == old(activeTab) && loginError == old(loginError)
    {
      user := None;
    }

    /**
     * Creating a member: the inserted row has efficiency 0, no activities and
     * the MEMBER role; on success the list shows it and the members tab opens.
     */
    method HandleAddMember(draft: MemberDraft, freshId: string, stored: bool)
      modifies this
      ensures members == if stored then old(members) + [NewMember(draft, freshId)] else old(members)
      ensures activeTab == if stored then MembersTab else old(activeTab)
      ensures user == old(user) && loginError == old(loginError)
      ensures WellFormed(old(members)) ==> WellFormed(members)
    {
      if stored {
        if WellFormed(members) {
          AddMemberPreservesWellFormed(members, draft, freshId);
        }
        members := members + [NewMember(draft, freshId)];
        activeTab := MembersTab;
      }
    }

    /**
     * Submitting a report for the logged-in member. Without a member session
     * (an empty member id counts as none), or when the session's member is
     * not in the list, nothing happens.
     */
    method HandleAddActivity(form: ActivityForm, freshId: string, now: string, stored: bool)
      modifies this
      ensures members == if stored then Submit(old(members), user, form, freshId, now) else old(members)
      ensures activeTab == if stored && HasMemberSession(old(members), user) then MyProfileTab else old(activeTab)
      ensures user == old(user) && loginError == old(loginError)
      ensures WellFormed(old(members)) ==> WellFormed(members)
    {
      if !HasMemberId(user) {
        return;
      }
      var id := user.value.memberId.value;
      var current := FindMember(members, id);
      if current.None? {
        return;
      }
      var newActivity := NewActivity(form, freshId, now, id);
      var updated := current.value.activities + [newActivity];
      if stored {
        if WellFormed(members) {
          SubmitPreservesWellFormed(members, user, form, freshId, now);
        }
        members := UpdateById(members, id, Patch(Some(updated), None));
        activeTab := MyProfileTab;
      }
    }

    /** The report form refuses an empty title before it reaches the handler. */
    method SubmitActivityForm(form: ActivityForm, freshId: string, now: string, stored: bool)
      modifies this
      ensures form.title == "" ==> members == old(members) && activeTab == old(activeTab)
      ensures form.title != "" && stored ==> members == Submit(old(members), user, form, freshId, now)
      ensures form.title != "" ==>
        activeTab == if stored && HasMemberSession(old(members), user) then MyProfileTab else old(activeTab)
      ensures !stored ==> members == old(members)
      ensures user == old(user) && loginError == old(loginError)
    {
      if form.title == "" {
        return;
      }
      HandleAddActivity(form, freshId, now, stored);
    }

    /**
     * An admin's decision on a report. Every activity with the id takes the
     * new status; on `verified` the efficiency gains a tenth of the report's
     * points, rounded and capped at 100. The current status is not checked.
     */
    method HandleVerifyActivity(memberId: string, activityId: string, status: Decision, stored: bool)
      modifies this
      ensures members == if stored then Verify(old(members), memberId, activityId, status) else old(members)
      ensures user == old(user) && activeTab == old(activeTab) && loginError == old(loginError)
      ensures WellFormed(old(members)) ==> WellFormed(members)
    {
      var member := FindMember(members, memberId);
      if member.None? {
        return;
      }
      var m := member.value;
      var updatedActivities := SetStatus(m.activities, activityId, status);
      var newEff := m.efficiency;
      if status == Verified {
        newEff := VerifiedEfficiency(m.efficiency, CreditedPoints(m.activities, activityId));
      }
      if stored {
        if WellFormed(members) {
          VerifyPreservesWellFormed(members, memberId, activityId, status);
        }
        members := UpdateById(members, memberId, Patch(Some(updatedActivities), Some(newEff)));
      }
    }

    /** The badge on the verification tab. */
    function PendingBadge(): (n: nat)
      reads this
      ensures n == Dashboard.PendingActivities(members)
    {
      Dashboard.PendingFiguresAgree(members);
      Dashboard.PendingCount(members)
    }
  }
}
