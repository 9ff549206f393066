/**
  The records of the two collections (`tasks`, `users`) and the queries the
  routes run on them. Every task query is scoped by the owner; those of
  /delete and /update by the pair (task id, owner), so that a missing task
  and a task of another owner look the same.
*/
module Repository {
  import opened Wrappers
  import opened Deadline
  import opened Collection

  /** An opaque document identifier, standing for a MongoDB ObjectId. */
  type Id = nat

  datatype Task = Task(
    id: Id,
    task: string,
    priority: string,
    dateCreated: Day,
    suggestedDeadline: Day,
    ownerId: Id)

  datatype User = User(id: Id, username: string, password: string)

  /** The filter `{ _id: id, ownerId: owner }` of /delete and /update. */
  function OwnedTask(id: Id, owner: Id): Task -> bool {
    (t: Task) => t.id == id && t.ownerId == owner
  }

  /** The filter `{ ownerId: owner }` of /tasks. */
  function OwnerIs(owner: Id): Task -> bool {
    (t: Task) => t.ownerId == owner
  }

  /** The filter `{ username: name }` of /register. */
  function NameIs(name: string): User -> bool {
    (u: User) => u.username == name
  }

  /** The filter `{ username: name, password: password }` of /login. */
  function HasCredentials(name: string, password: string): User -> bool {
    (u: User) => u.username == name && u.password == password
  }

  /** The filter `{ _id: id }` of /api/session/status. */
  function UserIdIs(id: Id): User -> bool {
    (u: User) => u.id == id
  }

  /** No two tasks share an id. */
  ghost predicate UniqueTaskIds(ts: seq<Task>) {
    forall i, j :: 0 <= i < j < |ts| ==> ts[i].id != ts[j].id
  }

  /** No two users share an id or a username. */
  ghost predicate UniqueUsers(us: seq<User>) {
    forall i, j :: 0 <= i < j < |us| ==> us[i].id != us[j].id && us[i].username != us[j].username
  }

  /** The tasks listed for `owner`: every task of that owner and no other, in collection order. */
  function OwnedBy(ts: seq<Task>, owner: Id): (r: seq<Task>)
    ensures forall t :: t in r <==> t in ts && t.ownerId == owner
  {
    Filter(ts, OwnerIs(owner))
  }

  /**
    `deleteOne({ _id: id, ownerId: owner })`: at most one task goes, one that
    matches both the id and the owner; every other task stays.
  */
  function DeleteOwned(ts: seq<Task>, id: Id, owner: Id): (r: seq<Task>)
    ensures forall t :: t in r ==> t in ts
    ensures forall t :: t in ts && !(t.id == id && t.ownerId == owner) ==> t in r
    ensures (forall t :: t in ts ==> !(t.id == id && t.ownerId == owner)) ==> r == ts
    ensures (exists t :: t in ts && t.id == id && t.ownerId == owner) ==> |r| == |ts| - 1
    ensures UniqueTaskIds(ts) ==> forall t :: t in r ==> !(t.id == id && t.ownerId == owner)
  {
    DeleteFirst(ts, OwnedTask(id, owner))
  }

  /** A task with a new priority and the deadline recomputed from its own creation date. */
  function Reprioritized(t: Task, priority: string): Task {
    t.(priority := priority, suggestedDeadline := CalculateDeadline(t.dateCreated, priority))
  }

  /**
    The read-then-write of /update: None when no task matches (id, owner);
    otherwise the first such task gets the new priority and a deadline
    counted from its `dateCreated`, and nothing else changes.
  */
  function UpdateOwned(ts: seq<Task>, id: Id, owner: Id, priority: string): (r: Option<seq<Task>>)
    ensures r.None? <==> forall t :: t in ts ==> !(t.id == id && t.ownerId == owner)
    ensures r.Some? ==>
      |r.value| == |ts| &&
      exists i :: 0 <= i < |ts| && ts[i].id == id && ts[i].ownerId == owner &&
        r.value[i].id == id && r.value[i].ownerId == owner &&
        r.value[i].task == ts[i].task && r.value[i].dateCreated == ts[i].dateCreated &&
        r.value[i].priority == priority &&
        r.value[i].suggestedDeadline == ts[i].dateCreated + Offset(priority) &&
        forall j :: 0 <= j < |ts| && j != i ==> r.value[j] == ts[j]
  {
    match FindFirst(ts, OwnedTask(id, owner))
    case None => None
    case Some(i) => Some(ts[i := Reprioritized(ts[i], priority)])
  }

  /** Deleting one owner's task leaves every other owner's listing as it was. */
  lemma DeleteIsolation(ts: seq<Task>, id: Id, owner: Id, other: Id)
    requires other != owner
    ensures OwnedBy(DeleteOwned(ts, id, owner), other) == OwnedBy(ts, other)
  {
    match FindFirst(ts, OwnedTask(id, owner))
    case None =>
    case Some(i) =>
      assert ts[..i] + [] + ts[i + 1..] == ts[..i] + ts[i + 1..];
      FilterSplice(ts, i, [], OwnerIs(other));
  }

  /** Updating one owner's task leaves every other owner's listing as it was. */
  lemma UpdateIsolation(ts: seq<Task>, id: Id, owner: Id, other: Id, priority: string)
    requires other != owner
    ensures UpdateOwned(ts, id, owner, priority).Some? ==>
      OwnedBy(UpdateOwned(ts, id, owner, priority).value, other) == OwnedBy(ts, other)
  {
    match FindFirst(ts, OwnedTask(id, owner))
    case None =>
    case Some(i) =>
      var y := Reprioritized(ts[i], priority);
      assert ts[i := y] == ts[..i] + [y] + ts[i + 1..];
      FilterSplice(ts, i, [y], OwnerIs(other));
  }

  /** A new task appears in its owner's listing, at the end, and in no other. */
  lemma InsertIsolation(ts: seq<Task>, t: Task, other: Id)
    ensures OwnedBy(ts + [t], t.ownerId) == OwnedBy(ts, t.ownerId) + [t]
    ensures other != t.ownerId ==> OwnedBy(ts + [t], other) == OwnedBy(ts, other)
  {
    FilterConcat(ts, [t], OwnerIs(t.ownerId));
    FilterConcat(ts, [t], OwnerIs(other));
  }

  /** With unique ids, deleting the same (id, owner) twice is the same as once. */
  lemma DeleteIdempotent(ts: seq<Task>, id: Id, owner: Id)
    requires UniqueTaskIds(ts)
    ensures DeleteOwned(DeleteOwned(ts, id, owner), id, owner) == DeleteOwned(ts, id, owner)
  {
  }

  /**
    The deadline after an update depends only on the last priority, never on
    the priorities before it: it is always counted from `dateCreated`.
  */
  lemma UpdateHistoryIndependent(ts: seq<Task>, id: Id, owner: Id, p1: string, p2: string)
    requires UpdateOwned(ts, id, owner, p1).Some?
    ensures UpdateOwned(UpdateOwned(ts, id, owner, p1).value, id, owner, p2) == UpdateOwned(ts, id, owner, p2)
  {
    var i := FindFirst(ts, OwnedTask(id, owner)).value;
    var ts1 := UpdateOwned(ts, id, owner, p1).value;
    assert ts1 == ts[i := Reprioritized(ts[i], p1)];
    FindFirstPast(ts, ts1, i, OwnedTask(id, owner));
    assert ts1[i := Reprioritized(ts1[i], p2)] == ts[i := Reprioritized(ts[i], p2)];
  }

  /** Updating twice with the same priority is the same as once. */
  lemma UpdateIdempotent(ts: seq<Task>, id: Id, owner: Id, priority: string)
    requires UpdateOwned(ts, id, owner, priority).Some?
    ensures UpdateOwned(UpdateOwned(ts, id, owner, priority).value, id, owner, priority) == UpdateOwned(ts, id, owner, priority)
  {
    UpdateHistoryIndependent(ts, id, owner, priority, priority);
  }

  /** Changing the first match in place, to a document that still matches, keeps it the first match. */
  lemma FindFirstPast<T>(s: seq<T>, s': seq<T>, i: nat, matches: T -> bool)
    requires FindFirst(s, matches) == Some(i)
    requires |s'| == |s| && matches(s'[i])
    requires forall j :: 0 <= j < |s| && j != i ==> s'[j] == s[j]
    ensures FindFirst(s', matches) == Some(i)
  {
  }

  /** With unique usernames, a login match is the one user registered under that name. */
  lemma CredentialsNameUser(us: seq<User>, name: string, password: string, k: nat)
    requires UniqueUsers(us)
    requires k < |us| && us[k].username == name
    ensures FindFirst(us, HasCredentials(name, password)).Some? ==> FindFirst(us, HasCredentials(name, password)).value == k
    ensures us[k].password == password <==> FindFirst(us, HasCredentials(name, password)).Some?
  {
  }
}
