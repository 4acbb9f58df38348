/** The records held by the application's in-memory `state` object, and the
    lookups its handlers perform on them. */
module Entities {
  import opened Lists

  /** The value of the task-type selector; it decides how the content is shown
      and which placeholder replaces empty content. */
  datatype TaskKind = Text | Rating | Image

  datatype Status = Open | Closed

  /** A task posted by a client. `createdAt` is a clock reading in
      milliseconds. */
  datatype Task = Task(
    id: string,
    title: string,
    kind: TaskKind,
    content: string,
    reward: int,
    createdBy: string,
    createdAt: int,
    status: Status)

  /** One completed annotation. */
  datatype Submission = Submission(
    id: string,
    taskId: string,
    userId: string,
    result: string,
    createdAt: int)

  /** A contributor and the credits earned so far. */
  datatype User = User(id: string, name: string, balance: int)

  /** The active demo user (`state.currentUser`). */
  datatype Identity = Identity(id: string, name: string, role: string)

  const DemoContributor: Identity := Identity("contrib-1", "You (demo contributor)", "contributor")

  /** The fixed identity under which the client console posts tasks. */
  const ClientId: string := "client-demo"

  /** The three tables: what `persist` writes and a loaded snapshot holds. */
  datatype Snapshot = Snapshot(tasks: seq<Task>, submissions: seq<Submission>, users: seq<User>)

  /** Some task of the table has id `id`. */
  predicate HasTask(tasks: seq<Task>, id: string)
  {
    exists i :: 0 <= i < |tasks| && tasks[i].id == id
  }

  /** Some user of the table has id `id`. */
  predicate HasUser(users: seq<User>, id: string)
  {
    exists i :: 0 <= i < |users| && users[i].id == id
  }

  predicate DistinctTaskIds(tasks: seq<Task>)
  {
    forall i, j :: 0 <= i < j < |tasks| ==> tasks[i].id != tasks[j].id
  }

  predicate DistinctUserIds(users: seq<User>)
  {
    forall i, j :: 0 <= i < j < |users| ==> users[i].id != users[j].id
  }

  predicate DistinctSubmissionIds(subs: seq<Submission>)
  {
    forall i, j :: 0 <= i < j < |subs| ==> subs[i].id != subs[j].id
  }

  /** `state.tasks.find(t => t.id === taskId)`: the first task with that id. */
  function FindTask(tasks: seq<Task>, id: string): (r: Option<Task>)
    ensures r.None? <==> !HasTask(tasks, id)
    ensures r.Some? ==> r.value in tasks && r.value.id == id
  {
    var k := FindFirst(tasks, (t: Task) => t.id == id);
    if k.None? then None else Some(tasks[k.value])
  }

  /** `findUser(userId)`: the first user with that id. JavaScript returns a
      reference to the object in `state.users`; the model returns its
      position, which is what the crediting code then updates. */
  function FindUser(users: seq<User>, id: string): (r: Option<nat>)
    ensures r.None? <==> !HasUser(users, id)
    ensures r.Some? ==> r.value < |users| && users[r.value].id == id
    ensures r.Some? ==> forall j :: 0 <= j < r.value ==> users[j].id != id
  {
    FindFirst(users, (u: User) => u.id == id)
  }

  /** With distinct ids, a task of the table is what a lookup of its id finds. */
  lemma FindTaskDistinct(tasks: seq<Task>, i: nat)
    requires DistinctTaskIds(tasks) && i < |tasks|
    ensures FindTask(tasks, tasks[i].id) == Some(tasks[i])
  {
  }

  /** With distinct ids, a user of the table is what a lookup of its id finds. */
  lemma FindUserDistinct(users: seq<User>, i: nat)
    requires DistinctUserIds(users) && i < |users|
    ensures FindUser(users, users[i].id) == Some(i)
  {
  }

  /** The lookup depends on the ids alone. */
  lemma FindUserSameIds(a: seq<User>, b: seq<User>, id: string)
    requires |a| == |b| && forall j :: 0 <= j < |a| ==> a[j].id == b[j].id
    ensures FindUser(a, id) == FindUser(b, id)
  {
    var fa, fb := FindUser(a, id), FindUser(b, id);
    if fa.Some? {
      assert b[fa.value].id == id;
    }
  }

  /** Appending a user does not change what a lookup of an id already present
      finds; it finds the new user when its id was absent. */
  lemma FindUserAppend(users: seq<User>, u: User, id: string)
    ensures FindUser(users + [u], id)
            == if HasUser(users, id) then FindUser(users, id)
               else if u.id == id then Some(|users|) else None
  {
    var f, g := FindUser(users, id), FindUser(users + [u], id);
    if f.Some? {
      assert (users + [u])[f.value] == users[f.value];
    } else if u.id == id {
      assert (users + [u])[|users|] == u;
    }
  }

  /** The wallet's balance for `id` (`renderWallet`): that of the first user
      with the id, and 0 when there is none. */
  function WalletBalance(users: seq<User>, id: string): (r: int)
    ensures !HasUser(users, id) ==> r == 0
    ensures forall i :: 0 <= i < |users| && users[i].id == id && (forall j :: 0 <= j < i ==> users[j].id != id)
              ==> r == users[i].balance
  {
    var k := FindUser(users, id);
    if k.None? then 0 else users[k.value].balance
  }

  /** The amount a submission credits: `task.reward || 1`, so a task whose
      reward is 0 still pays 1. */
  function CreditFor(reward: int): (r: int)
    ensures r != 0
    ensures reward == 0 ==> r == 1
    ensures reward != 0 ==> r == reward
    ensures reward >= 0 ==> r > 0
  {
    if reward == 0 then 1 else reward
  }
}
