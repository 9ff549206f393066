/**
  Clients of the routes, proved from the route contracts alone: one user's
  whole task life cycle, and two users who cannot see or touch each other's
  tasks. Each step is its own method so that every proof stays small.
*/
module Scenarios {
  import opened Wrappers
  import opened Deadline
  import opened Repository
  import opened Routes

  /** The whole life cycle, step by step. */
  method TaskLifeCycle(created: Day)
  {
    var app, alice, t := RegisterAndSubmit(created);
    ListsOneTask(app, alice, t);
    var t' := Reprioritise(app, alice, t);
    CompleteAndLogOut(app, alice, t');
  }

  /** "alice" registers (a second registration of the name fails) and submits a High task. */
  method RegisterAndSubmit(created: Day) returns (app: Server, alice: SessionId, t: Task)
    ensures fresh(app) && app.Valid()
    ensures app.tasks == [t] && alice in app.sessions && app.sessions[alice] == t.ownerId
    ensures t.dateCreated == created && t.priority == "High" && t.suggestedDeadline == created + 2
  {
    app := new Server();
    alice := 1;
    var r := app.Register(alice, "alice", "pw1");
    assert r.status == 201;
    var aliceId := r.body.userId;
    r := app.Register(alice, "alice", "other");
    assert r == Response(400, Message("Username already taken."));
    assert app.sessions[alice] == aliceId;
    r := app.Submit(alice, "buy milk", "High", created);
    t := Task(1, "buy milk", "High", created, created + 2, aliceId);
    assert app.tasks == [t];
  }

  /** The listing holds exactly the one task. */
  method ListsOneTask(app: Server, alice: SessionId, t: Task)
    requires app.Valid() && app.tasks == [t] && alice in app.sessions && app.sessions[alice] == t.ownerId
  {
    var r := app.ListTasks(alice);
    assert r.body.tasks == [t] by {
      assert forall x :: x in r.body.tasks <==> x == t;
      assert |r.body.tasks| <= 1;
    }
  }

  /** Urgent, then Low: the deadline follows the creation date, which does not move. */
  method Reprioritise(app: Server, alice: SessionId, t: Task) returns (t': Task)
    requires app.Valid() && app.tasks == [t] && alice in app.sessions && app.sessions[alice] == t.ownerId
    modifies app
    ensures app.Valid() && app.tasks == [t'] && alice in app.sessions && app.sessions[alice] == t'.ownerId
    ensures t'.id == t.id && t'.dateCreated == t.dateCreated
  {
    var r := app.Update(alice, t.id, "Urgent");
    assert r.status == 200;
    assert app.tasks[0].suggestedDeadline == t.dateCreated + 1;
    r := app.Update(alice, t.id, "Low");
    assert app.tasks[0].suggestedDeadline == t.dateCreated + 30;
    assert app.tasks[0].dateCreated == t.dateCreated;
    t' := app.tasks[0];
  }

  /** Completing the task empties the listing; after logout the listing is refused. */
  method CompleteAndLogOut(app: Server, alice: SessionId, t: Task)
    requires app.Valid() && app.tasks == [t] && alice in app.sessions && app.sessions[alice] == t.ownerId
    modifies app
  {
    var r := app.Delete(alice, t.id);
    assert app.tasks == [];
    r := app.ListTasks(alice);
    assert r.body.tasks == [];
    r := app.Logout(alice);
    r := app.ListTasks(alice);
    assert r == NotLoggedIn;
  }

  /** A second user neither lists, updates nor deletes the first user's task. */
  method OwnershipOpacity(app: Server, alice: SessionId, bob: SessionId, t: Task)
    requires app.Valid() && app.tasks == [t]
    requires alice in app.sessions && bob in app.sessions
    requires app.sessions[alice] == t.ownerId && app.sessions[bob] != t.ownerId
    modifies app
  {
    var r := app.ListTasks(bob);
    assert t !in r.body.tasks;
    r := app.Update(bob, t.id, "Urgent");
    assert r.status == 404;
    r := app.Delete(bob, t.id);
    assert r.status == 200;
    assert app.tasks == [t];
  }

  /** A wrong password and an unknown name are refused alike. */
  method LoginFailuresAlike(app: Server, sid: SessionId)
    requires app.Valid() && app.users == [User(0, "alice", "pw1")]
    modifies app
  {
    var r := app.Login(sid, "alice", "wrong");
    assert r == Response(401, Message("Invalid credentials."));
    r := app.Login(sid, "carol", "pw1");
    assert r == Response(401, Message("Invalid credentials."));
    r := app.Login(sid, "alice", "pw1");
    assert r.status == 200 && app.sessions[sid] == 0;
  }
}
