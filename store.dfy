/** The application's `state` object and the handlers that change it in
    place: loading on boot, persisting, creating a task from the client form
    and recording an annotation. */
module App {
  import opened Lists
  import opened Strings
  import opened Entities
  import opened Rules

  /** The browser's local storage entry under the key "crowdtrain.v1": the
      last snapshot written, None before the first write. */
  class SnapshotSlot {
    var saved: Option<Snapshot>

    constructor (initial: Option<Snapshot>)
      ensures saved == initial
    {
      saved := initial;
    }
  }

  /** The `state` object. The active user is fixed: no handler assigns it and
      a snapshot carries only the three tables, so it is a constant here. */
  class Store {
    const currentUser: Identity
    const slot: SnapshotSlot
    var tasks: seq<Task>
    var submissions: seq<Submission>
    var users: seq<User>

    /** The three tables, as `persist` writes them. */
    function Tables(): Snapshot
      reads this
    {
      Snapshot(tasks, submissions, users)
    }

    /** The state before `loadState` runs: the demo contributor and empty
        tables. */
    constructor (slot: SnapshotSlot)
      ensures currentUser == DemoContributor && this.slot == slot
      ensures tasks == [] && submissions == [] && users == []
    {
      currentUser := DemoContributor;
      this.slot := slot;
      tasks, submissions, users := [], [], [];
    }

    /** `persist`: overwrites the stored snapshot with the three tables. */
    method Persist()
      modifies slot
      ensures slot.saved == Some(Tables())
    {
      slot.saved := Some(Tables());
    }

    /** `loadState`: a stored snapshot replaces the three tables; without one,
        three demonstration tasks (ids `a`, `b`, `c`, each stamped with its own
        clock reading) and the active user with no credits are seeded and
        persisted. */
    method LoadState(a: string, b: string, c: string, nowA: int, nowB: int, nowC: int)
      modifies this, slot
      ensures old(slot.saved).Some? ==> Tables() == old(slot.saved).value && slot.saved == old(slot.saved)
      ensures old(slot.saved).None? ==>
                && tasks == SeedTasks(a, b, c, nowA, nowB, nowC)
                && users == SeedUsers(currentUser)
                && submissions == old(submissions)
                && slot.saved == Some(Tables())
    {
      var raw := slot.saved;
      if raw.Some? {
        tasks, submissions, users := raw.value.tasks, raw.value.submissions, raw.value.users;
      } else {
        tasks := SeedTasks(a, b, c, nowA, nowB, nowC);
        users := SeedUsers(currentUser);
        Persist();
      }
    }

    /** The client form's submit handler: appends the task built from the
        form (fresh id `id`, clock reading `now`) and persists. */
    method CreateTask(form: TaskForm, id: string, now: int)
      modifies this, slot
      ensures tasks == old(tasks) + [NewTask(form, id, now)]
      ensures submissions == old(submissions) && users == old(users)
      ensures slot.saved == Some(Tables())
    {
      var t := NewTask(form, id, now);
      tasks := tasks + [t];
      Persist();
    }

    /** Find-or-create for the active user: `findUser`, and when nothing is
        found, a fresh entry with balance 0 pushed onto `users`. Returns the
        position of the active user's entry. */
    method FindOrCreateCurrentUser() returns (k: nat)
      modifies this
      ensures Located(users, k) == FindOrCreate(old(users), currentUser)
      ensures tasks == old(tasks) && submissions == old(submissions)
    {
      var found := FindUser(users, currentUser.id);
      if found.None? {
        users := users + [User(currentUser.id, currentUser.name, 0)];
        k := |users| - 1;
      } else {
        k := found.value;
      }
    }

    /** The annotation view's submit handler for `task` (the task the view was
        opened on), with `input` the typed response, `subId` a fresh id and
        `now` the clock. A blank response changes nothing; otherwise the
        submission is appended, the active user found or created and
        credited, and the tables persisted. */
    method SubmitAnnotation(task: Task, input: string, subId: string, now: int) returns (outcome: Outcome)
      modifies this, slot
      ensures var step := Submit(old(Tables()), currentUser, task, input, subId, now);
              Tables() == step.state && outcome == step.outcome
      ensures outcome.EmptyResponse? ==> slot.saved == old(slot.saved)
      ensures outcome.Credited? ==> slot.saved == Some(Tables())
    {
      var result := Trim(input);
      if result == [] {
        return EmptyResponse;
      }
      submissions := submissions + [Submission(subId, task.id, currentUser.id, result, now)];
      var k := FindOrCreateCurrentUser();
      var credit := CreditFor(task.reward);
      users := users[k := users[k].(balance := users[k].balance + credit)];
      Persist();
      outcome := Credited(credit);
    }
  }
}
