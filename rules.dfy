/** The state changes the handlers make, as functions from the old tables to
    the new ones: seeding on first run, task creation from the client form,
    and recording a submission with its reward. Also the bookkeeping
    invariant they keep: every balance is what its owner's submissions
    earned. */
module Rules {
  import opened Lists
  import opened Strings
  import opened Entities
  import opened Views

  /** The client form's fields as its submit handler reads them. `reward` is
      the reward field after `Number(...)`: None when that is not a number. */
  datatype TaskForm = TaskForm(title: string, kind: TaskKind, content: string, reward: Option<int>)

  const UntitledTitle: string := "Untitled Task"
  const DefaultReward: int := 5

  /** The content used when the content field is blank. */
  function ContentPlaceholder(kind: TaskKind): (r: string)
    ensures r != [] && IsTrimmed(r)
  {
    if kind == Image then "https://via.placeholder.com/300" else "No content"
  }

  /** `input.trim() || fallback`: the trimmed input, or the fallback when
      nothing but spaces was typed. */
  function TrimmedOr(input: string, fallback: string): (r: string)
    requires fallback != [] && IsTrimmed(fallback)
    ensures r != [] && IsTrimmed(r)
    ensures !AllSpace(input) ==> r == Trim(input)
    ensures AllSpace(input) ==> r == fallback
  {
    var v := Trim(input);
    if v == [] then fallback else v
  }

  /** `Number(field) || 5`: a reward of 0 or one that is not a number becomes 5. */
  function RewardOr(field: Option<int>): (r: int)
    ensures r != 0
    ensures field.Some? && field.value != 0 ==> r == field.value
    ensures field.None? || field == Some(0) ==> r == DefaultReward
  {
    if field.None? || field.value == 0 then DefaultReward else field.value
  }

  /** The task the client form creates: trimmed title and content with their
      fallbacks, reward 5 when the field is 0 or not a number, open, posted
      by the client identity. */
  function NewTask(form: TaskForm, id: string, now: int): (t: Task)
    ensures t.id == id && t.kind == form.kind && t.createdAt == now
    ensures t.status == Open && t.createdBy == ClientId
    ensures t.title != [] && IsTrimmed(t.title)
    ensures t.content != [] && IsTrimmed(t.content)
    ensures !AllSpace(form.title) ==> t.title == Trim(form.title)
    ensures AllSpace(form.title) ==> t.title == UntitledTitle
    ensures !AllSpace(form.content) ==> t.content == Trim(form.content)
    ensures AllSpace(form.content) ==> t.content == ContentPlaceholder(form.kind)
    ensures t.reward != 0
    ensures form.reward.Some? && form.reward.value != 0 ==> t.reward == form.reward.value
    ensures form.reward.None? || form.reward == Some(0) ==> t.reward == DefaultReward
  {
    assert IsTrimmed(UntitledTitle);
    Task(id, TrimmedOr(form.title, UntitledTitle), form.kind,
         TrimmedOr(form.content, ContentPlaceholder(form.kind)),
         RewardOr(form.reward), ClientId, now, Open)
  }

  /** Creating a task adds exactly one entry to the catalog, at its end. */
  lemma CreateAddsOpenTask(tasks: seq<Task>, form: TaskForm, id: string, now: int)
    ensures OpenTasks(tasks + [NewTask(form, id, now)]) == OpenTasks(tasks) + [NewTask(form, id, now)]
    ensures ClientTasks(tasks + [NewTask(form, id, now)]) == ClientTasks(tasks) + [NewTask(form, id, now)]
  {
    var t := NewTask(form, id, now);
    FilterSnoc(tasks, t, IsOpen);
    FilterSnoc(tasks, t, PostedByClient);
  }

  /** A table together with a position in it. */
  datatype Located = Located(users: seq<User>, at: nat)

  /** Find-or-create (`findUser`, then `users.push` of a fresh entry with
      balance 0 when nothing was found): the table afterwards and the
      position of the active user's entry in it. */
  function FindOrCreate(users: seq<User>, me: Identity): (r: Located)
    ensures r.at < |r.users| && FindUser(r.users, me.id) == Some(r.at)
    ensures HasUser(users, me.id) ==> r.users == users
    ensures !HasUser(users, me.id) ==> r.users == users + [User(me.id, me.name, 0)]
  {
    var k := FindUser(users, me.id);
    FindUserAppend(users, User(me.id, me.name, 0), me.id);
    if k.None? then Located(users + [User(me.id, me.name, 0)], |users|) else Located(users, k.value)
  }

  /** Find-or-create, then credit: the first user with the active user's id
      gains `amount`; when there is none, one is appended with balance 0 and
      credited. No other entry changes. */
  function CreditUser(users: seq<User>, me: Identity, amount: int): (r: seq<User>)
    ensures |r| == if HasUser(users, me.id) then |users| else |users| + 1
    ensures forall i :: 0 <= i < |users| ==> r[i].id == users[i].id && r[i].name == users[i].name
    ensures forall i :: 0 <= i < |users| && r[i] != users[i] ==> FindUser(users, me.id) == Some(i)
    ensures !HasUser(users, me.id) ==> r[|users|] == User(me.id, me.name, amount)
  {
    var f := FindOrCreate(users, me);
    f.users[f.at := f.users[f.at].(balance := f.users[f.at].balance + amount)]
  }

  /** Crediting raises the wallet balance of the active user by `amount` and
      leaves every other wallet balance as it was. */
  lemma CreditUserBalances(users: seq<User>, me: Identity, amount: int)
    ensures WalletBalance(CreditUser(users, me, amount), me.id) == WalletBalance(users, me.id) + amount
    ensures forall id :: id != me.id ==> WalletBalance(CreditUser(users, me, amount), id) == WalletBalance(users, id)
  {
    var f := FindOrCreate(users, me);
    var r := CreditUser(users, me, amount);
    FindUserSameIds(f.users, r, me.id);
    forall id | id != me.id ensures WalletBalance(r, id) == WalletBalance(users, id) {
      FindUserAppend(users, User(me.id, me.name, 0), id);
      FindUserSameIds(f.users, r, id);
    }
  }

  /** The handler's result: refused, or the amount credited. */
  datatype Outcome = EmptyResponse | Credited(amount: int)

  datatype Step = Step(state: Snapshot, outcome: Outcome)

  /** The annotation view's submit handler for `task`, with `input` the
      response typed in. */
  function Submit(s: Snapshot, me: Identity, task: Task, input: string, subId: string, now: int): (r: Step)
    ensures r.outcome.EmptyResponse? <==> AllSpace(input)
    ensures r.outcome.EmptyResponse? ==> r.state == s
    ensures r.state.tasks == s.tasks
    ensures r.outcome.Credited? ==>
              && r.outcome.amount == CreditFor(task.reward)
              && r.state.submissions == s.submissions + [Submission(subId, task.id, me.id, Trim(input), now)]
              && r.state.users == CreditUser(s.users, me, r.outcome.amount)
  {
    var result := Trim(input);
    if result == [] then
      Step(s, EmptyResponse)
    else
      var credit := CreditFor(task.reward);
      var sub := Submission(subId, task.id, me.id, result, now);
      Step(Snapshot(s.tasks, s.submissions + [sub], CreditUser(s.users, me, credit)), Credited(credit))
  }

  /** A valid submission appends exactly one record, at the end, naming the
      task, the active user and the trimmed response; earlier records stay. */
  lemma SubmitAppendsOne(s: Snapshot, me: Identity, task: Task, input: string, subId: string, now: int)
    requires !AllSpace(input)
    ensures var subs := Submit(s, me, task, input, subId, now).state.submissions;
      && |subs| == |s.submissions| + 1
      && subs[..|s.submissions|] == s.submissions
      && subs[|s.submissions|].taskId == task.id
      && subs[|s.submissions|].userId == me.id
      && subs[|s.submissions|].result == Trim(input)
      && subs[|s.submissions|].result != [] && IsTrimmed(subs[|s.submissions|].result)
  {
    var subs := Submit(s, me, task, input, subId, now).state.submissions;
    assert subs[..|s.submissions|] == s.submissions;
  }

  /** A valid submission credits the active user with the task's reward (1
      when the reward is 0); every other user's entry and balance stays. */
  lemma SubmitCredits(s: Snapshot, me: Identity, task: Task, input: string, subId: string, now: int)
    requires !AllSpace(input)
    ensures var users := Submit(s, me, task, input, subId, now).state.users;
      && WalletBalance(users, me.id) == WalletBalance(s.users, me.id) + CreditFor(task.reward)
      && (forall id :: id != me.id ==> WalletBalance(users, id) == WalletBalance(s.users, id))
      && (forall i :: 0 <= i < |s.users| && s.users[i].id != me.id ==> users[i] == s.users[i])
      && |users| == |s.users| + (if HasUser(s.users, me.id) then 0 else 1)
  {
    CreditUserBalances(s.users, me, CreditFor(task.reward));
  }

  /** When the active user had no entry, a valid submission creates exactly
      one, which holds exactly the credit. */
  lemma SubmitCreatesUserOnce(s: Snapshot, me: Identity, task: Task, input: string, subId: string, now: int)
    requires !AllSpace(input) && !HasUser(s.users, me.id)
    ensures var users := Submit(s, me, task, input, subId, now).state.users;
      && users == s.users + [User(me.id, me.name, CreditFor(task.reward))]
  {
    var users := Submit(s, me, task, input, subId, now).state.users;
    assert users == s.users + [User(me.id, me.name, CreditFor(task.reward))];
  }

  /** Submitting twice to the same task credits its reward twice: nothing
      prevents repeated submissions. */
  lemma RepeatSubmissionsCreditTwice(s: Snapshot, me: Identity, task: Task,
                                     input1: string, id1: string, now1: int,
                                     input2: string, id2: string, now2: int)
    requires !AllSpace(input1) && !AllSpace(input2)
    ensures var s1 := Submit(s, me, task, input1, id1, now1).state;
            var s2 := Submit(s1, me, task, input2, id2, now2).state;
      && WalletBalance(s2.users, me.id) == WalletBalance(s.users, me.id) + 2 * CreditFor(task.reward)
      && TaskSubmissionCount(s2.submissions, task.id) == TaskSubmissionCount(s.submissions, task.id) + 2
  {
    var s1 := Submit(s, me, task, input1, id1, now1).state;
    SubmitCredits(s, me, task, input1, id1, now1);
    SubmitCredits(s1, me, task, input2, id2, now2);
    CountsAfterAppend(s.submissions, Submission(id1, task.id, me.id, Trim(input1), now1), task.id, me.id);
    CountsAfterAppend(s1.submissions, Submission(id2, task.id, me.id, Trim(input2), now2), task.id, me.id);
  }

  /** The three demonstration tasks seeded on first run. */
  function SeedTasks(a: string, b: string, c: string, nowA: int, nowB: int, nowC: int): (r: seq<Task>)
    ensures |r| == 3 && r[0].id == a && r[1].id == b && r[2].id == c
    ensures r[0].reward == 5 && r[1].reward == 3 && r[2].reward == 6
    ensures r[0].kind == Text && r[1].kind == Rating && r[2].kind == Image
    ensures r[0].createdAt == nowA && r[1].createdAt == nowB && r[2].createdAt == nowC
    ensures forall t :: t in r ==> t.status == Open && t.createdBy == ClientId
  {
    [ Task(a, "Label Sentiment (Text)", Text, "This movie was awesome! Best I've seen.", 5, ClientId, nowA, Open),
      Task(b, "Rate AI Answer", Rating, "Q: What's climate change? A: It's when weather changes.", 3, ClientId, nowB, Open),
      Task(c, "Image: Identify object", Image, "https://via.placeholder.com/300?text=Car", 6, ClientId, nowC, Open) ]
  }

  /** On first run the catalog and the client's list show all three seeded
      tasks, in order. */
  lemma SeedListsAll(a: string, b: string, c: string, nowA: int, nowB: int, nowC: int)
    ensures OpenTasks(SeedTasks(a, b, c, nowA, nowB, nowC)) == SeedTasks(a, b, c, nowA, nowB, nowC)
    ensures ClientTasks(SeedTasks(a, b, c, nowA, nowB, nowC)) == SeedTasks(a, b, c, nowA, nowB, nowC)
  {
    var r := SeedTasks(a, b, c, nowA, nowB, nowC);
    FilterKeepsAll(r, IsOpen);
    FilterKeepsAll(r, PostedByClient);
  }

  /** The one user seeded on first run: the active user, with no credits. */
  function SeedUsers(me: Identity): (r: seq<User>)
    ensures |r| == 1 && r[0].id == me.id && r[0].name == me.name
    ensures WalletBalance(r, me.id) == 0
  {
    [User(me.id, me.name, 0)]
  }

  // ---------------------------------------------------------------------
  // The bookkeeping invariant

  /** What a submission to task `taskId` credits, looked up in the table. */
  function CreditOf(tasks: seq<Task>, taskId: string): int
  {
    var t := FindTask(tasks, taskId);
    if t.None? then 0 else CreditFor(t.value.reward)
  }

  /** The credits user `userId` earned through the submissions `subs`. */
  function Earned(tasks: seq<Task>, subs: seq<Submission>, userId: string): int
  {
    if subs == [] then 0
    else
      var last := subs[|subs| - 1];
      Earned(tasks, subs[..|subs| - 1], userId) + (if last.userId == userId then CreditOf(tasks, last.taskId) else 0)
  }

  /** The tables agree with each other: ids are unique, every submission
      names an existing task and an existing user, and every balance is the
      sum of what that user's submissions credited. */
  predicate Consistent(s: Snapshot)
  {
    && DistinctTaskIds(s.tasks)
    && DistinctUserIds(s.users)
    && DistinctSubmissionIds(s.submissions)
    && (forall k :: 0 <= k < |s.submissions| ==>
          HasTask(s.tasks, s.submissions[k].taskId) && HasUser(s.users, s.submissions[k].userId))
    && (forall i :: 0 <= i < |s.users| ==> s.users[i].balance == Earned(s.tasks, s.submissions, s.users[i].id))
  }

  /** A user who made no submission earned nothing. */
  lemma {:induction false} EarnedNothing(tasks: seq<Task>, subs: seq<Submission>, userId: string)
    requires forall k :: 0 <= k < |subs| ==> subs[k].userId != userId
    ensures Earned(tasks, subs, userId) == 0
  {
    if subs != [] {
      EarnedNothing(tasks, subs[..|subs| - 1], userId);
    }
  }

  /** Adding a task with a fresh id changes no earlier credit. */
  lemma {:induction false} EarnedNewTask(tasks: seq<Task>, t: Task, subs: seq<Submission>, userId: string)
    requires !HasTask(tasks, t.id)
    requires forall k :: 0 <= k < |subs| ==> HasTask(tasks, subs[k].taskId)
    ensures Earned(tasks + [t], subs, userId) == Earned(tasks, subs, userId)
  {
    if subs != [] {
      var last := subs[|subs| - 1];
      EarnedNewTask(tasks, t, subs[..|subs| - 1], userId);
      var f := FindTask(tasks, last.taskId);
      var g := FindTask(tasks + [t], last.taskId);
      var i :| 0 <= i < |tasks| && tasks[i] == f.value;
      assert g == f by {
        FindTaskPrefix(tasks, [t], last.taskId);
      }
    }
  }

  /** A lookup that succeeds in a table also succeeds, with the same task,
      once more tasks are appended. */
  lemma FindTaskPrefix(tasks: seq<Task>, more: seq<Task>, id: string)
    requires HasTask(tasks, id)
    ensures FindTask(tasks + more, id) == FindTask(tasks, id)
  {
    var f := FindFirst(tasks, (t: Task) => t.id == id);
    var g := FindFirst(tasks + more, (t: Task) => t.id == id);
    assert f.Some?;
    assert (tasks + more)[f.value] == tasks[f.value];
  }

  /** If the reward of every task is non-negative, nobody's earnings are
      negative. */
  lemma {:induction false} EarnedNonNegative(tasks: seq<Task>, subs: seq<Submission>, userId: string)
    requires forall t :: t in tasks ==> t.reward >= 0
    ensures Earned(tasks, subs, userId) >= 0
  {
    if subs != [] {
      EarnedNonNegative(tasks, subs[..|subs| - 1], userId);
    }
  }

  /** In consistent tables whose tasks carry non-negative rewards, no balance
      is negative. */
  lemma BalancesNonNegative(s: Snapshot)
    requires Consistent(s)
    requires forall t :: t in s.tasks ==> t.reward >= 0
    ensures forall i :: 0 <= i < |s.users| ==> s.users[i].balance >= 0
  {
    forall i | 0 <= i < |s.users| ensures s.users[i].balance >= 0 {
      EarnedNonNegative(s.tasks, s.submissions, s.users[i].id);
    }
  }

  /** The first-run state is consistent. */
  lemma SeedConsistent(a: string, b: string, c: string, nowA: int, nowB: int, nowC: int, me: Identity)
    requires a != b && b != c && a != c
    ensures Consistent(Snapshot(SeedTasks(a, b, c, nowA, nowB, nowC), [], SeedUsers(me)))
  {
  }

  /** Creating a task with a fresh id keeps the tables consistent. */
  lemma CreateKeepsConsistent(s: Snapshot, form: TaskForm, id: string, now: int)
    requires Consistent(s) && !HasTask(s.tasks, id)
    ensures Consistent(s.(tasks := s.tasks + [NewTask(form, id, now)]))
  {
    var t := NewTask(form, id, now);
    var s' := s.(tasks := s.tasks + [t]);
    forall i, j | 0 <= i < j < |s'.tasks| ensures s'.tasks[i].id != s'.tasks[j].id {
    }
    forall k | 0 <= k < |s.submissions| ensures HasTask(s'.tasks, s.submissions[k].taskId) {
      assert HasTask(s.tasks, s.submissions[k].taskId);
      var i :| 0 <= i < |s.tasks| && s.tasks[i].id == s.submissions[k].taskId;
      assert s'.tasks[i] == s.tasks[i];
    }
    forall i | 0 <= i < |s.users|
      ensures s.users[i].balance == Earned(s'.tasks, s.submissions, s.users[i].id)
    {
      EarnedNewTask(s.tasks, t, s.submissions, s.users[i].id);
    }
  }

  /** One more submission adds its credit to its author's earnings only. */
  lemma EarnedAppend(tasks: seq<Task>, subs: seq<Submission>, x: Submission, userId: string)
    ensures Earned(tasks, subs + [x], userId)
            == Earned(tasks, subs, userId) + (if x.userId == userId then CreditOf(tasks, x.taskId) else 0)
  {
    assert (subs + [x])[..|subs|] == subs;
  }

  /** Find-or-create adds the active user's id to the ids and keeps them
      distinct. */
  lemma CreditUserIds(users: seq<User>, me: Identity, amount: int)
    requires DistinctUserIds(users)
    ensures forall id :: HasUser(CreditUser(users, me, amount), id) <==> HasUser(users, id) || id == me.id
    ensures DistinctUserIds(CreditUser(users, me, amount))
  {
    var r := CreditUser(users, me, amount);
    forall id ensures HasUser(r, id) <==> HasUser(users, id) || id == me.id {
      if HasUser(r, id) {
        var i :| 0 <= i < |r| && r[i].id == id;
        if i < |users| { assert users[i].id == id; }
      }
      if HasUser(users, id) {
        var i :| 0 <= i < |users| && users[i].id == id;
        assert r[i].id == id;
      }
      if id == me.id && !HasUser(users, me.id) {
        assert r[|users|].id == id;
      }
    }
    forall i, j | 0 <= i < j < |r| ensures r[i].id != r[j].id {
      if j == |users| {
        assert users[i].id != me.id;
      }
    }
  }

  /** With distinct ids, each user's balance is the wallet balance of its id. */
  lemma BalanceIsWallet(users: seq<User>, i: nat)
    requires DistinctUserIds(users) && i < |users|
    ensures users[i].balance == WalletBalance(users, users[i].id)
  {
    FindUserDistinct(users, i);
  }

  /** In tables where every balance is its owner's earnings and every
      submission's author has an entry, the wallet balance of any id is what
      that id earned. */
  lemma WalletIsEarned(tasks: seq<Task>, subs: seq<Submission>, users: seq<User>, id: string)
    requires DistinctUserIds(users)
    requires forall k :: 0 <= k < |subs| ==> HasUser(users, subs[k].userId)
    requires forall j :: 0 <= j < |users| ==> users[j].balance == Earned(tasks, subs, users[j].id)
    ensures WalletBalance(users, id) == Earned(tasks, subs, id)
  {
    if HasUser(users, id) {
      var j :| 0 <= j < |users| && users[j].id == id;
      BalanceIsWallet(users, j);
    } else {
      forall k | 0 <= k < |subs| ensures subs[k].userId != id {
        assert HasUser(users, subs[k].userId);
      }
      EarnedNothing(tasks, subs, id);
    }
  }

  /** Crediting `c` to the active user for a submission `sub` of theirs worth
      `c` keeps every balance equal to its owner's earnings. */
  lemma CreditKeepsLedger(tasks: seq<Task>, subs: seq<Submission>, users: seq<User>,
                          me: Identity, sub: Submission, c: int, i: nat)
    requires DistinctUserIds(users)
    requires forall k :: 0 <= k < |subs| ==> HasUser(users, subs[k].userId)
    requires forall j :: 0 <= j < |users| ==> users[j].balance == Earned(tasks, subs, users[j].id)
    requires sub.userId == me.id && CreditOf(tasks, sub.taskId) == c
    requires i < |CreditUser(users, me, c)|
    ensures CreditUser(users, me, c)[i].balance == Earned(tasks, subs + [sub], CreditUser(users, me, c)[i].id)
  {
    var r := CreditUser(users, me, c);
    var id := r[i].id;
    CreditUserIds(users, me, c);
    BalanceIsWallet(r, i);
    CreditUserBalances(users, me, c);
    assert r[i].balance == WalletBalance(users, id) + (if id == me.id then c else 0);
    WalletIsEarned(tasks, subs, users, id);
    EarnedAppend(tasks, subs, sub, id);
  }

  /** Appending a submission whose id is fresh keeps submission ids unique. */
  lemma FreshSubmissionKeepsIdsDistinct(subs: seq<Submission>, x: Submission)
    requires DistinctSubmissionIds(subs)
    requires forall k :: 0 <= k < |subs| ==> subs[k].id != x.id
    ensures DistinctSubmissionIds(subs + [x])
  {
    var t := subs + [x];
    forall i, j | 0 <= i < j < |t| ensures t[i].id != t[j].id {
      assert t[i] == subs[i];
    }
  }

  /** Recording a submission for a task of the table keeps the tables
      consistent: the new balance is exactly the new earnings. */
  lemma SubmitKeepsConsistent(s: Snapshot, me: Identity, task: Task, input: string, subId: string, now: int)
    requires Consistent(s) && task in s.tasks
    requires forall k :: 0 <= k < |s.submissions| ==> s.submissions[k].id != subId
    ensures Consistent(Submit(s, me, task, input, subId, now).state)
  {
    if !AllSpace(input) {
      var s' := Submit(s, me, task, input, subId, now).state;
      CreditUserIds(s.users, me, CreditFor(task.reward));
      assert forall k :: 0 <= k < |s'.submissions| ==>
               HasTask(s'.tasks, s'.submissions[k].taskId) && HasUser(s'.users, s'.submissions[k].userId);
      var sub := Submission(subId, task.id, me.id, Trim(input), now);
      FreshSubmissionKeepsIdsDistinct(s.submissions, sub);
      var ti :| 0 <= ti < |s.tasks| && s.tasks[ti] == task;
      FindTaskDistinct(s.tasks, ti);
      forall i | 0 <= i < |s'.users|
        ensures s'.users[i].balance == Earned(s'.tasks, s'.submissions, s'.users[i].id)
      {
        CreditKeepsLedger(s.tasks, s.submissions, s.users, me, sub, CreditFor(task.reward), i);
      }
    }
  }
}
