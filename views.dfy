/** The read-only views the pages render from the state: the contributor's
    task catalog, the client's own tasks and the admin dashboard's counts. */
module Views {
  import opened Lists
  import opened Entities

  predicate IsOpen(t: Task) { t.status == Open }

  predicate PostedByClient(t: Task) { t.createdBy == ClientId }

  /** What a task list shows: the placeholder line, or the tasks in order. */
  datatype Listing = Placeholder | Rows(tasks: seq<Task>)

  /** The contributor catalog (`renderTaskList`): the open tasks in insertion
      order. */
  function OpenTasks(tasks: seq<Task>): (r: seq<Task>)
    ensures forall t :: t in r ==> t in tasks && t.status == Open
    ensures forall i :: 0 <= i < |tasks| && tasks[i].status == Open ==> tasks[i] in r
  {
    Filter(tasks, IsOpen)
  }

  /** The catalog shows its "no tasks" line exactly when no task is open. */
  function Catalog(tasks: seq<Task>): (r: Listing)
    ensures r.Placeholder? <==> forall i :: 0 <= i < |tasks| ==> tasks[i].status != Open
    ensures r.Rows? ==> r.tasks == OpenTasks(tasks) && r.tasks != []
  {
    var open := OpenTasks(tasks);
    if open == [] then Placeholder else assert open[0] in open; Rows(open)
  }

  /** The client console's list (`renderClientTasks`): the tasks posted under
      the client identity, in insertion order. */
  function ClientTasks(tasks: seq<Task>): (r: seq<Task>)
    ensures forall t :: t in r ==> t in tasks && t.createdBy == ClientId
    ensures forall i :: 0 <= i < |tasks| && tasks[i].createdBy == ClientId ==> tasks[i] in r
  {
    Filter(tasks, PostedByClient)
  }

  /** The client console shows "No tasks posted" exactly when the client
      posted none. */
  function ClientListing(tasks: seq<Task>): (r: Listing)
    ensures r.Placeholder? <==> forall i :: 0 <= i < |tasks| ==> tasks[i].createdBy != ClientId
    ensures r.Rows? ==> r.tasks == ClientTasks(tasks) && r.tasks != []
  {
    var mine := ClientTasks(tasks);
    if mine == [] then Placeholder else assert mine[0] in mine; Rows(mine)
  }

  /** Both lists keep insertion order: listing a longer table lists the
      earlier tasks first, then the newer ones. */
  lemma {:induction false} ListsFollowInsertion(a: seq<Task>, b: seq<Task>)
    ensures OpenTasks(a + b) == OpenTasks(a) + OpenTasks(b)
    ensures ClientTasks(a + b) == ClientTasks(a) + ClientTasks(b)
  {
    FilterAppend(a, b, IsOpen);
    FilterAppend(a, b, PostedByClient);
  }

  /** The positions of the submissions made for task `taskId`. */
  ghost function ForTask(subs: seq<Submission>, taskId: string): set<nat>
  {
    set k: nat | k < |subs| && subs[k].taskId == taskId
  }

  /** The positions of the submissions made by user `userId`. */
  ghost function ByUser(subs: seq<Submission>, userId: string): set<nat>
  {
    set k: nat | k < |subs| && subs[k].userId == userId
  }

  /** The admin count for a task: `submissions.filter(s => s.taskId === t.id).length`. */
  function TaskSubmissionCount(subs: seq<Submission>, taskId: string): (n: nat)
    ensures n == |ForTask(subs, taskId)|
  {
    var p := (s: Submission) => s.taskId == taskId;
    FilterCount(subs, p);
    assert Matching(subs, p) == ForTask(subs, taskId);
    |Filter(subs, p)|
  }

  /** The admin count for a user: `submissions.filter(s => s.userId === u.id).length`. */
  function UserSubmissionCount(subs: seq<Submission>, userId: string): (n: nat)
    ensures n == |ByUser(subs, userId)|
  {
    var p := (s: Submission) => s.userId == userId;
    FilterCount(subs, p);
    assert Matching(subs, p) == ByUser(subs, userId);
    |Filter(subs, p)|
  }

  /** One line of the admin task list. */
  datatype TaskRow = TaskRow(title: string, kind: TaskKind, reward: int, submissions: nat)

  /** One line of the admin user list. */
  datatype UserRow = UserRow(name: string, credits: int, submissions: nat)

  /** The admin task list (`renderAdmin`): every task, in order, with the
      number of submissions that name it. */
  function AdminTasks(s: Snapshot): (r: seq<TaskRow>)
    ensures |r| == |s.tasks|
    ensures forall i :: 0 <= i < |r| ==>
              r[i].title == s.tasks[i].title && r[i].kind == s.tasks[i].kind
              && r[i].reward == s.tasks[i].reward
              && r[i].submissions == |ForTask(s.submissions, s.tasks[i].id)|
  {
    seq(|s.tasks|, i requires 0 <= i < |s.tasks| =>
      var t := s.tasks[i];
      TaskRow(t.title, t.kind, t.reward, TaskSubmissionCount(s.submissions, t.id)))
  }

  /** The admin user list (`renderAdmin`): every user, in order, with the
      credits held and the number of submissions made. */
  function AdminUsers(s: Snapshot): (r: seq<UserRow>)
    ensures |r| == |s.users|
    ensures forall i :: 0 <= i < |r| ==>
              r[i].name == s.users[i].name && r[i].credits == s.users[i].balance
              && r[i].submissions == |ByUser(s.submissions, s.users[i].id)|
  {
    seq(|s.users|, i requires 0 <= i < |s.users| =>
      var u := s.users[i];
      UserRow(u.name, u.balance, UserSubmissionCount(s.submissions, u.id)))
  }

  /** Appending a submission raises the count of the task it names by one and
      leaves every other task's count alone; likewise for users. */
  lemma CountsAfterAppend(subs: seq<Submission>, x: Submission, taskId: string, userId: string)
    ensures TaskSubmissionCount(subs + [x], taskId)
              == TaskSubmissionCount(subs, taskId) + (if x.taskId == taskId then 1 else 0)
    ensures UserSubmissionCount(subs + [x], userId)
              == UserSubmissionCount(subs, userId) + (if x.userId == userId then 1 else 0)
  {
    FilterSnoc(subs, x, (s: Submission) => s.taskId == taskId);
    FilterSnoc(subs, x, (s: Submission) => s.userId == userId);
  }
}
