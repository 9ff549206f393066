/**
  The HTTP routes of the server as methods of one object that holds the two
  collections, the session store and a fresh-id counter. Each route is one
  atomic read-check-write; the request's session is named by its cookie id.
*/
module Routes {
  import opened Wrappers
  import opened Deadline
  import opened Collection
  import opened Repository

  /** The value of the session cookie. */
  type SessionId = nat

  /** The JSON payload of a response. */
  datatype Body =
    | Message(message: string)
    | Account(message: string, userId: Id, username: string)
    | TaskList(tasks: seq<Task>)
    // `name` carries the JSON key `username`; renamed because Account.username has another type
    | Status(loggedIn: bool, name: Option<string>)

  datatype Response = Response(status: nat, body: Body)

  /** The answer of every task route to a request without a logged-in user. */
  const NotLoggedIn := Response(401, Message("You must be logged in."))

  predicate IsUserId(us: seq<User>, id: Id) {
    exists u :: u in us && u.id == id
  }

  class Server {
    /** The `tasks` collection, in insertion order. */
    var tasks: seq<Task>
    /** The `users` collection, in insertion order. */
    var users: seq<User>
    /** The session store: the `userId` of each session that has one. */
    var sessions: map<SessionId, Id>
    /** The next identifier handed out on insert. */
    var nextId: nat

    /**
      Identifiers are fresh and unique, usernames are unique, and every
      session user and every task owner is a registered user.
    */
    ghost predicate Valid()
      reads this
    {
      && (forall i :: 0 <= i < |tasks| ==> tasks[i].id < nextId)
      && (forall i :: 0 <= i < |users| ==> users[i].id < nextId)
      && UniqueTaskIds(tasks)
      && UniqueUsers(users)
      && (forall sid :: sid in sessions ==> IsUserId(users, sessions[sid]))
      && (forall i :: 0 <= i < |tasks| ==> IsUserId(users, tasks[i].ownerId))
    }

    constructor ()
      ensures Valid()
      ensures tasks == [] && users == [] && sessions == map[] && nextId == 0
    {
      tasks, users, sessions, nextId := [], [], map[], 0;
    }

    /** POST /register: refuse a taken username, else insert the user and log the session in. */
    method Register(sid: SessionId, username: string, password: string) returns (resp: Response)
      requires Valid()
      modifies this
      ensures Valid()
      ensures tasks == old(tasks)
      ensures (exists u :: u in old(users) && u.username == username) ==>
        && resp == Response(400, Message("Username already taken."))
        && users == old(users) && sessions == old(sessions) && nextId == old(nextId)
      ensures (forall u :: u in old(users) ==> u.username != username) ==>
        && resp == Response(201, Account("User created successfully!", old(nextId), username))
        && users == old(users) + [User(old(nextId), username, password)]
        && (forall u :: u in old(users) ==> u.id != old(nextId))
        && sessions == old(sessions)[sid := old(nextId)]
        && nextId == old(nextId) + 1
    {
      var existing := FindFirst(users, NameIs(username));
      if existing.Some? {
        resp := Response(400, Message("Username already taken."));
        return;
      }
      var id := nextId;
      users := users + [User(id, username, password)];
      nextId := nextId + 1;
      sessions := sessions[sid := id];
      resp := Response(201, Account("User created successfully!", id, username));
      assert forall u :: u in old(users) ==> u in users;
    }

    /** POST /login: log the session in as the user with exactly these credentials, else 401. */
    method Login(sid: SessionId, username: string, password: string) returns (resp: Response)
      requires Valid()
      modifies this
      ensures Valid()
      ensures tasks == old(tasks) && users == old(users) && nextId == old(nextId)
      ensures forall u :: u in users && u.username == username && u.password == password ==>
        && resp == Response(200, Account("Login successful.", u.id, u.username))
        && sessions == old(sessions)[sid := u.id]
      ensures (forall u :: u in users ==> !(u.username == username && u.password == password)) ==>
        && resp == Response(401, Message("Invalid credentials."))
        && sessions == old(sessions)
    {
      var found := FindFirst(users, HasCredentials(username, password));
      if found.None? {
        resp := Response(401, Message("Invalid credentials."));
        return;
      }
      var user := users[found.value];
      sessions := sessions[sid := user.id];
      resp := Response(200, Account("Login successful.", user.id, user.username));
      forall u | u in users && u.username == username && u.password == password
        ensures u == user
      {
        var k :| 0 <= k < |users| && users[k] == u;
        CredentialsNameUser(users, username, password, k);
      }
    }

    /** POST /logout: the session is destroyed. */
    method Logout(sid: SessionId) returns (resp: Response)
      requires Valid()
      modifies this
      ensures Valid()
      ensures tasks == old(tasks) && users == old(users) && nextId == old(nextId)
      ensures sessions == old(sessions) - {sid}
      ensures resp == Response(200, Message("Logout successful."))
    {
      sessions := sessions - {sid};
      resp := Response(200, Message("Logout successful."));
    }

    /** GET /api/session/status: whether the session is logged in, and as whom. */
    method SessionStatus(sid: SessionId) returns (resp: Response)
      requires Valid()
      ensures sid !in sessions ==> resp == Response(200, Status(false, None))
      ensures sid in sessions ==>
        exists u :: u in users && u.id == sessions[sid] && resp == Response(200, Status(true, Some(u.username)))
    {
      if sid !in sessions {
        resp := Response(200, Status(false, None));
        return;
      }
      var found := FindFirst(users, UserIdIs(sessions[sid]));
      match found
      case None =>
        assert false;
      case Some(k) =>
        resp := Response(200, Status(true, Some(users[k].username)));
    }

    /** GET /tasks: every task of the session user and nothing else. */
    method ListTasks(sid: SessionId) returns (resp: Response)
      requires Valid()
      ensures sid !in sessions ==> resp == NotLoggedIn
      ensures sid in sessions ==>
        && resp.status == 200 && resp.body.TaskList?
        && resp.body.tasks == OwnedBy(tasks, sessions[sid])
        && forall t :: t in resp.body.tasks <==> t in tasks && t.ownerId == sessions[sid]
    {
      if sid !in sessions {
        resp := NotLoggedIn;
        return;
      }
      resp := Response(200, TaskList(OwnedBy(tasks, sessions[sid])));
    }

    /** POST /submit: one new task for the session user, its deadline counted from `now`. */
    method Submit(sid: SessionId, text: string, priority: string, now: Day) returns (resp: Response)
      requires Valid()
      modifies this
      ensures Valid()
      ensures users == old(users) && sessions == old(sessions)
      ensures sid !in sessions ==> resp == NotLoggedIn && tasks == old(tasks) && nextId == old(nextId)
      ensures sid in sessions ==>
        && resp == Response(200, Message("Task added successfully."))
        && tasks == old(tasks) + [Task(old(nextId), text, priority, now, CalculateDeadline(now, priority), sessions[sid])]
        && (forall t :: t in old(tasks) ==> t.id != old(nextId))
        && nextId == old(nextId) + 1
    {
      if sid !in sessions {
        resp := NotLoggedIn;
        return;
      }
      var owner := sessions[sid];
      tasks := tasks + [Task(nextId, text, priority, now, CalculateDeadline(now, priority), owner)];
      nextId := nextId + 1;
      resp := Response(200, Message("Task added successfully."));
    }

    /** POST /delete: remove the task (id, session user) if there is one; 200 either way. */
    method Delete(sid: SessionId, id: Id) returns (resp: Response)
      requires Valid()
      modifies this
      ensures Valid()
      ensures users == old(users) && sessions == old(sessions) && nextId == old(nextId)
      ensures sid !in sessions ==> resp == NotLoggedIn && tasks == old(tasks)
      ensures sid in sessions ==>
        && resp == Response(200, Message("Task deleted successfully."))
        && tasks == DeleteOwned(old(tasks), id, sessions[sid])
    {
      if sid !in sessions {
        resp := NotLoggedIn;
        return;
      }
      tasks := DeleteOwned(tasks, id, sessions[sid]);
      resp := Response(200, Message("Task deleted successfully."));
    }

    /** POST /update: 404 unless the task (id, session user) exists; else set its priority and deadline. */
    method Update(sid: SessionId, id: Id, priority: string) returns (resp: Response)
      requires Valid()
      modifies this
      ensures Valid()
      ensures users == old(users) && sessions == old(sessions) && nextId == old(nextId)
      ensures sid !in sessions ==> resp == NotLoggedIn && tasks == old(tasks)
      ensures sid in sessions && UpdateOwned(old(tasks), id, sessions[sid], priority).None? ==>
        && resp == Response(404, Message("Task not found/insufficient permissions."))
        && tasks == old(tasks)
      ensures sid in sessions && UpdateOwned(old(tasks), id, sessions[sid], priority).Some? ==>
        && resp == Response(200, Message("Task updated successfully."))
        && tasks == UpdateOwned(old(tasks), id, sessions[sid], priority).value
    {
      if sid !in sessions {
        resp := NotLoggedIn;
        return;
      }
      var updated := UpdateOwned(tasks, id, sessions[sid], priority);
      if updated.None? {
        resp := Response(404, Message("Task not found/insufficient permissions."));
        return;
      }
      tasks := updated.value;
      resp := Response(200, Message("Task updated successfully."));
    }
  }
}
