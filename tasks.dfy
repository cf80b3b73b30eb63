// The task board (src/components/Tasks.tsx): who may close a task, which
// tasks a user sees, the creation form's target choice, completion with a
// result text, and the buttons each task card offers.
module Tasks {
  import opened Types
  import opened Lists
  import opened Text
  import opened Roster

  /** The word in a position that marks a committee lead. */
  const LeadMarker: string := "руководитель"

  /** The name reported for a completion when the user has none. */
  const FallbackUserName: string := "Пользователь"

  /** The point values an admin may award for a completed task. */
  const AwardQuanta: seq<int> := [5, 10, 20]

  /** `members.find(m => m.id === userId)`; with no user id nothing matches. */
  function CurrentUser(members: seq<Member>, userId: Option<string>): (r: Option<Member>)
    ensures userId.None? ==> r.None?
    ensures userId.Some? ==> r == FindMember(members, userId.value)
  {
    if userId.None? then None else FindMember(members, userId.value)
  }

  /** `currentUser?.committee`: absent when there is no current user. */
  function CommitteeOf(currentUser: Option<Member>): Option<string>
  {
    if currentUser.Some? then Some(currentUser.value.committee) else None
  }

  /** A present, non-empty string, as a JavaScript condition sees it. */
  predicate Truthy(s: Option<string>)
  {
    s.Some? && s.value != ""
  }

  predicate IsLead(m: Member)
  {
    Contains(Lower(m.position), LeadMarker)
  }

  /**
   * `canCloseTask`: an admin may close any task; so may the user whose id
   * equals the task's assignee id (two absent ids count as equal); and for a
   * committee task, a member of that committee whose position names them
   * lead. Nobody else.
   */
  function CanCloseTask(role: Role, userId: Option<string>, currentUser: Option<Member>, task: Task): (r: bool)
    ensures role == Admin ==> r
    ensures task.assigneeId == userId ==> r
    ensures role != Admin && task.assigneeId != userId ==>
      (r <==> Truthy(task.committee) && currentUser.Some?
              && currentUser.value.committee == task.committee.value && IsLead(currentUser.value))
  {
    if role == Admin then true
    else if task.assigneeId == userId then true
    else if Truthy(task.committee) && CommitteeOf(currentUser) == task.committee then
      IsLead(currentUser.value)
    else false
  }

  /** The list's filter: admins see everything, others their own and their committee's tasks. */
  predicate IsVisible(role: Role, userId: Option<string>, currentUser: Option<Member>, task: Task)
  {
    role == Admin || task.assigneeId == userId || task.committee == CommitteeOf(currentUser)
  }

  function VisibleTasks(role: Role, userId: Option<string>, currentUser: Option<Member>, tasks: seq<Task>)
    : (r: seq<Task>)
    ensures IsSubsequence(r, tasks)
    ensures forall t :: t in r <==> t in tasks && IsVisible(role, userId, currentUser, t)
    ensures forall t :: multiset(r)[t] == if IsVisible(role, userId, currentUser, t) then multiset(tasks)[t] else 0
  {
    var r := Filter(tasks, t => IsVisible(role, userId, currentUser, t));
    assert forall t :: t in r <==> t in multiset(r);
    r
  }

  /** An admin's list is the whole list, in its order. */
  lemma AdminSeesAll(userId: Option<string>, currentUser: Option<Member>, tasks: seq<Task>)
    ensures VisibleTasks(Admin, userId, currentUser, tasks) == tasks
  {
    FilterAll(tasks, t => IsVisible(Admin, userId, currentUser, t));
  }

  /** Whoever may close a task also sees it. */
  lemma CloseableIsVisible(role: Role, userId: Option<string>, members: seq<Member>, task: Task)
    requires CanCloseTask(role, userId, CurrentUser(members, userId), task)
    ensures IsVisible(role, userId, CurrentUser(members, userId), task)
  {
  }

  // --------------------------------------------------------------- creation

  /** The creation form's state. */
  datatype TaskDraft = TaskDraft(
    title: string,
    description: string,
    assigneeId: string,
    committee: string,
    dueDate: string,
    priority: Priority)

  const EmptyDraft: TaskDraft := TaskDraft("", "", "", "", "", Medium)

  /** At most one of the two targets is chosen. */
  predicate SingleTarget(d: TaskDraft)
  {
    d.assigneeId == "" || d.committee == ""
  }

  /**
   * The row inserted from the form: pending, no result text, and both target
   * columns as the form holds them (the unchosen one is the empty string).
   */
  function CreatedTask(d: TaskDraft, id: string): (t: Task)
    ensures t.status == TaskPending && t.resultText.None?
    ensures t.assigneeId == Some(d.assigneeId) && t.committee == Some(d.committee)
    ensures t.id == id && t.title == d.title && t.description == d.description && t.dueDate == d.dueDate
    ensures t.priority == Some(d.priority)
  {
    Task(id, d.title, d.description, Some(d.assigneeId), Some(d.committee), d.dueDate,
         TaskPending, Some(d.priority), None)
  }

  /**
   * A task created for one person carries the committee "", and so does a
   * member created without a committee: such a member sees every task
   * created for an individual, whoever it is for.
   */
  lemma CommitteelessMemberSeesIndividualTasks(d: TaskDraft, id: string, members: seq<Member>, userId: string)
    requires d.assigneeId != "" && SingleTarget(d)
    requires CurrentUser(members, Some(userId)).Some?
    requires CurrentUser(members, Some(userId)).value.committee == ""
    ensures IsVisible(MemberRole, Some(userId), CurrentUser(members, Some(userId)), CreatedTask(d, id))
  {
  }

  /**
   * The committee choices, `[...new Set(committees)].filter(Boolean)`: the
   * distinct non-empty committees of the members, in order of first
   * appearance.
   */
  function CommitteeOptions(members: seq<Member>): (r: seq<string>)
    ensures forall c :: c in r <==> c != "" && exists i :: 0 <= i < |members| && members[i].committee == c
    ensures forall i, j :: 0 <= i < j < |r| ==> r[i] != r[j]
    ensures r == FirstOccurrences(NonEmpty(CommitteeColumn(members)))
  {
    var cs := CommitteeColumn(members);
    DedupIsFirstOccurrences(cs);
    DedupNonEmptyCommute(cs);
    DedupIsFirstOccurrences(NonEmpty(cs));
    forall c ensures c in cs <==> exists i :: 0 <= i < |members| && members[i].committee == c {
      if c in cs {
        var i :| 0 <= i < |cs| && cs[i] == c;
        assert members[i].committee == c;
      }
    }
    NonEmpty(Dedup(cs))
  }

  // ------------------------------------------------------------- completion

  /**
   * The store's update for a completion: every task with the id becomes
   * completed with the result text, every other task is untouched.
   */
  function CompleteById(tasks: seq<Task>, id: string, text: string): (r: seq<Task>)
    ensures |r| == |tasks|
    ensures forall i :: 0 <= i < |tasks| && tasks[i].id == id ==>
      r[i] == tasks[i].(status := Completed, resultText := Some(text))
    ensures forall i :: 0 <= i < |tasks| && tasks[i].id != id ==> r[i] == tasks[i]
  {
    if tasks == [] then []
    else [if tasks[0].id == id then tasks[0].(status := Completed, resultText := Some(text)) else tasks[0]]
         + CompleteById(tasks[1..], id, text)
  }

  /** The arguments passed to `onTaskCompleted`. */
  datatype CompletionNotice = CompletionNotice(taskTitle: string, userName: string)

  predicate TaskHasId(t: Task, id: string)
  {
    t.id == id
  }

  function CompletionNoticeFor(tasks: seq<Task>, id: string, currentUser: Option<Member>): (r: Option<CompletionNotice>)
    ensures r.Some? <==> exists i :: 0 <= i < |tasks| && tasks[i].id == id
    ensures r.Some? ==>
      exists i :: 0 <= i < |tasks| && tasks[i].id == id && r.value.taskTitle == tasks[i].title
                  && forall j :: 0 <= j < i ==> tasks[j].id != id
    ensures r.Some? ==> r.value.userName != ""
    ensures r.Some? ==>
      r.value.userName == if currentUser.Some? && currentUser.value.name != "" then currentUser.value.name else FallbackUserName
  {
    match Find(tasks, t => TaskHasId(t, id))
    case None => None
    case Some(t) =>
      Some(CompletionNotice(t.title,
        if currentUser.Some? && currentUser.value.name != "" then currentUser.value.name else FallbackUserName))
  }

  // ---------------------------------------------------------- card buttons

  /**
   * "Complete" is shown on pending tasks the user may close: never on a
   * completed task, so never beside the award buttons, and only on a task
   * the user sees.
   */
  function CloseOffered(role: Role, userId: Option<string>, currentUser: Option<Member>, task: Task): (r: bool)
    ensures r ==> task.status == TaskPending && IsVisible(role, userId, currentUser, task)
    ensures r ==> AwardCalls(role, task) == []
    ensures role == Admin ==> (r <==> task.status == TaskPending)
  {
    task.status == TaskPending && CanCloseTask(role, userId, currentUser, task)
  }

  /** The arguments an award button passes to `onAwardPoints`. */
  datatype AwardCall = AwardCall(taskId: string, points: int, task: Task)

  /** The award buttons of a card: 5, 10 and 20, for admins on completed tasks only. */
  function AwardCalls(role: Role, task: Task): (r: seq<AwardCall>)
    ensures r != [] <==> role == Admin && task.status == Completed
    ensures r != [] ==> |r| == |AwardQuanta|
    ensures forall k :: 0 <= k < |r| ==> r[k] == AwardCall(task.id, AwardQuanta[k], task)
  {
    if role == Admin && task.status == Completed
    then seq(|AwardQuanta|, k requires 0 <= k < |AwardQuanta| => AwardCall(task.id, AwardQuanta[k], task))
    else []
  }

  /** An ordinary member's position does not name a lead. */
  lemma PlainPositionIsNotLead(position: string)
    requires position == "Член парламента"
    ensures !Contains(Lower(position), LeadMarker)
  {
    var lowered := Lower(position);
    assert |lowered| == 15;
    assert lowered[0] == LowerChar(position[0]) == 'ч';
    assert lowered[1] == LowerChar(position[1]) == 'л';
    assert lowered[2] == LowerChar(position[2]) == 'е';
    assert lowered[3] == LowerChar(position[3]) == 'н';
    FirstCharAbsent(lowered, LeadMarker);
  }

  /** A committee chair's position, in any spelling of its case, names a lead. */
  lemma ChairPositionIsLead(position: string)
    requires Lower(position) == "руководитель комитета"
    ensures Contains(Lower(position), LeadMarker)
  {
    var lowered := Lower(position);
    assert lowered[0..12] == LeadMarker;
    assert OccursAt(lowered, LeadMarker, 0);
  }

  /** The capitalised spelling of the chair's position lower-cases as expected. */
  lemma ChairPositionLowered(position: string, lowered: string)
    requires position == "Руководитель комитета" && lowered == "руководитель комитета"
    ensures Lower(position) == lowered
  {
    forall i | 0 <= i < |position| ensures LowerChar(position[i]) == lowered[i] {
    }
    LowerPointwise(position, lowered);
  }

  /**
   * A committee task seen by a member of that committee who is not its
   * assignee: an ordinary member may not close it, the committee's chair
   * may.
   */
  lemma LeadScenario(task: Task, plain: Member, chair: Member)
    requires task == Task("t1", "Отчёт", "", None, Some("Y"), "2024-06-01", TaskPending, None, None)
    requires plain == Member("u1", "Ирина", "Член парламента", "Y", 50, "irina", None, [], MemberRole)
    requires chair == plain.(position := "Руководитель комитета")
    ensures !CanCloseTask(MemberRole, Some("u1"), Some(plain), task)
    ensures CanCloseTask(MemberRole, Some("u1"), Some(chair), task)
  {
    PlainPositionIsNotLead(plain.position);
    assert !IsLead(plain);
    ChairPositionLowered(chair.position, "руководитель комитета");
    ChairPositionIsLead(chair.position);
    assert IsLead(chair);
    assert Truthy(task.committee);
    assert CommitteeOf(Some(chair)) == task.committee;
    assert task.assigneeId != Some("u1");
  }

  // ------------------------------------------------------------- the board

  /** The board's component state over the props it was rendered with. */
  class TaskBoard {
    const role: Role
    const userId: Option<string>
    const members: seq<Member>
    var tasks: seq<Task>
    var isFormOpen: bool
    var completingTaskId: Option<string>
    var resultText: string
    var newTask: TaskDraft

    ghost predicate Valid()
      reads this
    {
      SingleTarget(newTask)
    }

    function Me(): Option<Member>
      reads this
    {
      CurrentUser(members, userId)
    }

    /** The board after its first fetch has delivered `loaded`. */
    constructor (role: Role, userId: Option<string>, members: seq<Member>, loaded: seq<Task>)
      ensures Valid()
      ensures this.role == role && this.userId == userId && this.members == members
      ensures tasks == loaded && !isFormOpen && completingTaskId.None? && resultText == ""
      ensures newTask == EmptyDraft
    {
      this.role := role;
      this.userId := userId;
      this.members := members;
      tasks := loaded;
      isFormOpen := false;
      completingTaskId := None;
      resultText := "";
      newTask := EmptyDraft;
    }

    /** The form's toggle is shown to admins only. */
    method ToggleForm()
      requires Valid()
      requires role == Admin
      modifies this
      ensures Valid()
      ensures isFormOpen == !old(isFormOpen)
      ensures tasks == old(tasks) && newTask == old(newTask)
      ensures completingTaskId == old(completingTaskId) && resultText == old(resultText)
    {
      isFormOpen := !isFormOpen;
    }

    /** Typing into the title, description and due-date fields. */
    method EditDraft(title: string, description: string, dueDate: string)
      requires Valid()
      modifies this
      ensures Valid()
      ensures newTask == old(newTask).(title := title, description := description, dueDate := dueDate)
      ensures tasks == old(tasks) && isFormOpen == old(isFormOpen)
      ensures completingTaskId == old(completingTaskId) && resultText == old(resultText)
    {
      newTask := newTask.(title := title, description := description, dueDate := dueDate);
    }

    /** Choosing a person clears the committee choice. */
    method ChooseAssignee(id: string)
      modifies this
      ensures Valid()
      ensures newTask == old(newTask).(assigneeId := id, committee := "")
      ensures tasks == old(tasks) && isFormOpen == old(isFormOpen)
      ensures completingTaskId == old(completingTaskId) && resultText == old(resultText)
    {
      newTask := newTask.(assigneeId := id, committee := "");
    }

    /** Choosing a committee clears the person choice. */
    method ChooseCommittee(committee: string)
      modifies this
      ensures Valid()
      ensures newTask == old(newTask).(committee := committee, assigneeId := "")
      ensures tasks == old(tasks) && isFormOpen == old(isFormOpen)
      ensures completingTaskId == old(completingTaskId) && resultText == old(resultText)
    {
      newTask := newTask.(committee := committee, assigneeId := "");
    }

    /**
     * Submitting the form inserts the draft as a pending task. The form is
     * shown to admins only, while open, and the browser refuses it while the
     * title, description or due date is empty. On success the form is reset
     * and closed and the list shows the new task.
     */
    method CreateTask(freshId: string, stored: bool)
      requires Valid()
      requires role == Admin && isFormOpen
      requires newTask.title != "" && newTask.description != "" && newTask.dueDate != ""
      modifies this
      ensures Valid()
      ensures stored ==> tasks == old(tasks) + [CreatedTask(old(newTask), freshId)]
      ensures stored ==> newTask == EmptyDraft && !isFormOpen
      ensures !stored ==> tasks == old(tasks) && newTask == old(newTask) && isFormOpen == old(isFormOpen)
      ensures stored ==> var t := CreatedTask(old(newTask), freshId);
        t.status == TaskPending && !(Truthy(t.assigneeId) && Truthy(t.committee))
      ensures completingTaskId == old(completingTaskId) && resultText == old(resultText)
    {
      if stored {
        tasks := tasks + [CreatedTask(newTask, freshId)];
        newTask := EmptyDraft;
        isFormOpen := false;
      }
    }

    /** "Complete" on a card: offered on visible pending tasks the user may close. */
    method StartCompleting(task: Task)
      requires Valid()
      requires task in VisibleTasks(role, userId, Me(), tasks)
      requires CloseOffered(role, userId, Me(), task)
      modifies this
      ensures Valid()
      ensures completingTaskId == Some(task.id)
      ensures tasks == old(tasks) && newTask == old(newTask) && isFormOpen == old(isFormOpen)
      ensures resultText == old(resultText)
    {
      completingTaskId := Some(task.id);
    }

    method CancelCompleting()
      requires Valid()
      modifies this
      ensures Valid()
      ensures completingTaskId.None?
      ensures tasks == old(tasks) && newTask == old(newTask) && isFormOpen == old(isFormOpen)
      ensures resultText == old(resultText)
    {
      completingTaskId := None;
    }

    method EditResult(text: string)
      requires Valid()
      modifies this
      ensures Valid()
      ensures resultText == text
      ensures tasks == old(tasks) && newTask == old(newTask) && isFormOpen == old(isFormOpen)
      ensures completingTaskId == old(completingTaskId)
    {
      resultText := text;
    }

    /**
     * Submitting the result: with no task being completed (an empty id
     * counts as none) nothing happens.
     * Otherwise every task with that id is stored as completed with the text
     * (neither the permission nor the current status is checked here), the
     * dialog closes and the completion is reported with the task's title and
     * the user's name.
     */
    method CompleteTask(stored: bool) returns (notice: Option<CompletionNotice>)
      requires Valid()
      modifies this
      ensures Valid()
      ensures !Truthy(old(completingTaskId)) ==>
        tasks == old(tasks) && completingTaskId == old(completingTaskId)
        && resultText == old(resultText) && notice.None?
      ensures Truthy(old(completingTaskId)) && !stored ==>
        tasks == old(tasks) && completingTaskId == old(completingTaskId)
        && resultText == old(resultText) && notice.None?
      ensures Truthy(old(completingTaskId)) && stored ==>
        && tasks == CompleteById(old(tasks), old(completingTaskId).value, old(resultText))
        && completingTaskId.None? && resultText == ""
        && notice == CompletionNoticeFor(old(tasks), old(completingTaskId).value, Me())
      ensures newTask == old(newTask) && isFormOpen == old(isFormOpen)
    {
      notice := None;
      if !Truthy(completingTaskId) {
        return;
      }
      var id := completingTaskId.value;
      var found := Find(tasks, t => TaskHasId(t, id));
      if stored {
        if found.Some? {
          var me := Me();
          var name := if me.Some? && me.value.name != "" then me.value.name else FallbackUserName;
          notice := Some(CompletionNotice(found.value.title, name));
        }
        tasks := CompleteById(tasks, id, resultText);
        completingTaskId := None;
        resultText := "";
      }
    }
  }
}
