/** The three task-command handlers: `CreateTask`, `GetTaskbyState` and
    `PromoteTask2Done`. Each is a fixed chain of checks that answers with
    the code of the first check that fails; the mutating ones then write
    the record store step by step. The store is an object holding the
    user rows, the application rows (keyed by acronym) and the task rows. */
module Controllers {
  import opened Wrappers
  import opened JsValues
  import opened TaskModel
  import Notification

  // ----- Requests and the outside world -----

  /** The fields of a `CreateTask` request body. */
  datatype CreateTaskRequest = CreateTaskRequest(
    username: JsValue, password: JsValue, taskName: JsValue,
    appAcronym: JsValue, description: JsValue)

  /** The fields of a `GetTaskbyState` request body. */
  datatype StateQuery = StateQuery(
    username: JsValue, password: JsValue, taskState: JsValue, appAcronym: JsValue)

  /** The fields of a `PromoteTask2Done` request body. */
  datatype PromoteRequest = PromoteRequest(
    username: JsValue, password: JsValue, taskId: JsValue,
    appAcronym: JsValue, taskNotes: JsValue)

  /** What the handlers take from outside the model: the password-hash
      comparison `bcrypt.compare(plain, hash)`, and the clock already
      formatted as `YYYY-MM-DD` (date) and `YYYY-MM-DD HH:MM:SS` (timestamp). */
  datatype Env = Env(passwordMatches: (string, string) -> bool, date: string, timestamp: string)

  // ----- Credentials and the shared checks -----

  /** `users[k]` is the first row carrying `name`. */
  ghost predicate FirstNamed(users: seq<User>, name: string, k: int)
  {
    0 <= k < |users| && users[k].username == name
    && forall j :: 0 <= j < k ==> users[j].username != name
  }

  /** `validateUser`: the first user row with this username, if the
      password matches its hash. An unknown user and a wrong password give
      the same answer. */
  function ValidateUser(users: seq<User>, username: string, password: string,
                        matches: (string, string) -> bool): (r: Option<User>)
    ensures r.Some? <==>
      exists k :: FirstNamed(users, username, k) && matches(password, users[k].passwordHash)
    ensures r.Some? ==>
      exists k :: FirstNamed(users, username, k) && r.value == users[k]
    ensures r.Some? ==>
      r.value in users && r.value.username == username && matches(password, r.value.passwordHash)
  {
    match UserIndex(users, username)
    case None => None
    case Some(k) =>
      assert FirstNamed(users, username, k);
      if matches(password, users[k].passwordHash) then Some(users[k]) else None
  }

  predicate AnyUndefined(a: JsValue, b: JsValue, c: JsValue, d: JsValue)
  {
    a == Undefined || b == Undefined || c == Undefined || d == Undefined
  }

  predicate AllStrings(a: JsValue, b: JsValue, c: JsValue, d: JsValue)
  {
    a.Str? && b.Str? && c.Str? && d.Str?
  }

  /** How far a request gets through the checks all three handlers share. */
  datatype Gate = Admitted(user: User, app: Application) | Rejected(code: Code)

  /** The shared prefix of every handler: presence of the four mandatory
      fields, their types, the credentials, the `is_disabled` flag and the
      application lookup, in that order. `subject` is the handler's third
      mandatory field (task name, task state or task id). */
  function Admit(users: seq<User>, apps: map<string, Application>,
                 username: JsValue, password: JsValue, subject: JsValue, acronym: JsValue,
                 matches: (string, string) -> bool): (g: Gate)
    ensures AnyUndefined(username, password, subject, acronym) <==> g == Rejected(PS001)
    ensures !AnyUndefined(username, password, subject, acronym) && !AllStrings(username, password, subject, acronym)
      <==> g == Rejected(PS002)
    ensures g.Admitted? ==> AllStrings(username, password, subject, acronym)
    ensures AllStrings(username, password, subject, acronym) ==>
      var found := ValidateUser(users, username.s, password.s, matches);
      && (found.None? <==> g == Rejected(IM001))
      && (found.Some? && found.value.isDisabled == 1 <==> g == Rejected(IM002))
      && (found.Some? && found.value.isDisabled != 1 && acronym.s !in apps <==> g == Rejected(AM001))
      && (found.Some? && found.value.isDisabled != 1 && acronym.s in apps <==> g.Admitted?)
      && (g.Admitted? ==> g == Admitted(found.value, apps[acronym.s]))
  {
    if AnyUndefined(username, password, subject, acronym) then Rejected(PS001)
    else if !AllStrings(username, password, subject, acronym) then Rejected(PS002)
    else match ValidateUser(users, username.s, password.s, matches)
      case None => Rejected(IM001)
      case Some(user) =>
        if user.isDisabled == 1 then Rejected(IM002)
        else if acronym.s !in apps then Rejected(AM001)
        else Admitted(user, apps[acronym.s])
  }

  /** Missing or mistyped fields are answered before any store access: the
      answer is the same whatever the store holds and whatever the hash
      comparison would say. */
  lemma InputErrorsIgnoreStore(users1: seq<User>, apps1: map<string, Application>,
                               users2: seq<User>, apps2: map<string, Application>,
                               username: JsValue, password: JsValue, subject: JsValue, acronym: JsValue,
                               matches1: (string, string) -> bool, matches2: (string, string) -> bool)
    requires !AllStrings(username, password, subject, acronym)
    ensures Admit(users1, apps1, username, password, subject, acronym, matches1)
         == Admit(users2, apps2, username, password, subject, acronym, matches2)
    ensures Admit(users1, apps1, username, password, subject, acronym, matches1).code in {PS001, PS002}
  {
  }

  /** A disabled account is refused whatever application it names and
      whatever permissions that application grants. */
  lemma DisabledAccountRefused(users: seq<User>, apps: map<string, Application>,
                               username: string, password: string, subject: JsValue, acronym: JsValue,
                               matches: (string, string) -> bool)
    requires subject.Str? && acronym.Str?
    requires exists k :: FirstNamed(users, username, k) && users[k].isDisabled == 1
                         && matches(password, users[k].passwordHash)
    ensures Admit(users, apps, Str(username), Str(password), subject, acronym, matches) == Rejected(IM002)
  {
    var k :| FirstNamed(users, username, k) && users[k].isDisabled == 1
             && matches(password, users[k].passwordHash);
    var i := UserIndex(users, username);
    assert i == Some(k);
  }

  // ----- CreateTask -----

  /** The decision part of `CreateTask`: refuse with a code, or the row to
      insert together with the application's next counter value. */
  datatype CreatePlan = RefuseCreate(code: Code) | InsertRow(row: Task, rnumber: int)

  function PlanCreate(users: seq<User>, apps: map<string, Application>,
                      req: CreateTaskRequest, env: Env): CreatePlan
  {
    var g := Admit(users, apps, req.username, req.password, req.taskName, req.appAcronym, env.passwordMatches);
    if g.Rejected? then RefuseCreate(g.code)
    else if !Authorized(g.user.groupList, g.app.permitCreate) then RefuseCreate(AM002)
    else if req.taskName.s == "" then RefuseCreate(T003)
    else
      var acronym := req.appAcronym.s;
      var description := if Falsy(req.description) then Null else req.description;
      InsertRow(
        Task(TaskId(acronym, g.app.rnumber), req.taskName.s, description,
             CreationNote(g.user.username, env.date), None, acronym, StateName(Open),
             g.user.username, g.user.username, env.timestamp),
        g.app.rnumber + 1)
  }

  /** The refusals of `CreateTask` after the shared checks: no create
      permit or a user outside its group gives AM002; an empty task name,
      checked only after authorization, gives T003. */
  lemma PlanCreateRefusals(users: seq<User>, apps: map<string, Application>,
                           req: CreateTaskRequest, env: Env)
    ensures var g := Admit(users, apps, req.username, req.password, req.taskName, req.appAcronym, env.passwordMatches);
      var p := PlanCreate(users, apps, req, env);
      && (g.Rejected? ==> p == RefuseCreate(g.code))
      && (g.Admitted? && !Authorized(g.user.groupList, g.app.permitCreate) ==> p == RefuseCreate(AM002))
      && (g.Admitted? && Authorized(g.user.groupList, g.app.permitCreate) ==>
            (p == RefuseCreate(T003) <==> req.taskName == Str("")))
  {
  }

  /** The row `CreateTask` inserts: the minted id, state Open, the acting
      user as creator and owner, the creation note, and a NULL description
      when the supplied one is falsy; the counter moves to R + 1. */
  lemma PlanCreateRow(users: seq<User>, apps: map<string, Application>,
                      req: CreateTaskRequest, env: Env)
    requires PlanCreate(users, apps, req, env).InsertRow?
    ensures var p := PlanCreate(users, apps, req, env);
      var acronym := req.appAcronym.s;
      && req.username.Str? && req.taskName.Str? && req.appAcronym.Str? && acronym in apps
      && Authorized(ValidateUser(users, req.username.s, req.password.s, env.passwordMatches).value.groupList,
                    apps[acronym].permitCreate)
      && p.row.id == TaskId(acronym, apps[acronym].rnumber)
      && p.rnumber == apps[acronym].rnumber + 1
      && p.row.name == req.taskName.s && p.row.name != ""
      && p.row.appAcronym == acronym
      && p.row.state == "Open"
      && p.row.creator == req.username.s && p.row.owner == req.username.s
      && p.row.notes == "Task created by " + req.username.s + " on " + env.date
      && p.row.description == (if Falsy(req.description) then Null else req.description)
      && p.row.plan == None && p.row.createDate == env.timestamp
  {
  }

  // ----- PromoteTask2Done -----

  /** The decision part of `PromoteTask2Done`: refuse with a code, or the
      position of the task row and its promoted version. */
  datatype PromotePlan = RefusePromote(code: Code) | UpdateRow(index: nat, row: Task)

  function PlanPromote(users: seq<User>, apps: map<string, Application>, tasks: seq<Task>,
                       req: PromoteRequest, env: Env): (p: PromotePlan)
    ensures p.UpdateRow? ==>
      req.taskId.Str? && p.index < |tasks| && tasks[p.index].id == req.taskId.s
      && TaskIndex(tasks, req.taskId.s) == Some(p.index)
      && tasks[p.index].state == "Doing"
  {
    var g := Admit(users, apps, req.username, req.password, req.taskId, req.appAcronym, env.passwordMatches);
    if g.Rejected? then RefusePromote(g.code)
    else if !Authorized(g.user.groupList, g.app.permitDoing) then RefusePromote(AM002)
    else match TaskIndex(tasks, req.taskId.s)
      case None => RefusePromote(T001)
      case Some(k) =>
        if tasks[k].state != StateName(Doing) then RefusePromote(T002)
        else UpdateRow(k, Promoted(tasks[k], g.user.username, env.timestamp, req.taskNotes))
  }

  /** The refusals of `PromoteTask2Done` after the shared checks:
      authorization is against the application's Doing permit (AM002);
      the task is looked up by id alone, in any application (T001); a task
      not in state Doing is refused (T002). */
  lemma PlanPromoteRefusals(users: seq<User>, apps: map<string, Application>, tasks: seq<Task>,
                            req: PromoteRequest, env: Env)
    ensures var g := Admit(users, apps, req.username, req.password, req.taskId, req.appAcronym, env.passwordMatches);
      var p := PlanPromote(users, apps, tasks, req, env);
      && (g.Rejected? ==> p == RefusePromote(g.code))
      && (g.Admitted? && !Authorized(g.user.groupList, g.app.permitDoing) ==> p == RefusePromote(AM002))
      && (g.Admitted? && Authorized(g.user.groupList, g.app.permitDoing) ==>
            && (p == RefusePromote(T001) <==> forall j :: 0 <= j < |tasks| ==> tasks[j].id != req.taskId.s)
            && (p == RefusePromote(T002) <==>
                  exists j :: 0 <= j < |tasks| && tasks[j].id == req.taskId.s
                              && (forall i :: 0 <= i < j ==> tasks[i].id != req.taskId.s)
                              && tasks[j].state != "Doing"))
  {
    var g := Admit(users, apps, req.username, req.password, req.taskId, req.appAcronym, env.passwordMatches);
    if g.Admitted? && Authorized(g.user.groupList, g.app.permitDoing) {
      var found := TaskIndex(tasks, req.taskId.s);
      if found.Some? {
        var k := found.value;
        forall j | 0 <= j < |tasks| && tasks[j].id == req.taskId.s
                   && (forall i :: 0 <= i < j ==> tasks[i].id != req.taskId.s)
          ensures j == k
        {
        }
      }
    }
  }

  /** Only a task in state Doing is promoted, and the promoted row is that
      task moved to Done, owned by the acting user, with the audit entry in
      front of its old notes; no other column changes. */
  lemma PlanPromoteRow(users: seq<User>, apps: map<string, Application>, tasks: seq<Task>,
                       req: PromoteRequest, env: Env)
    requires PlanPromote(users, apps, tasks, req, env).UpdateRow?
    ensures var p := PlanPromote(users, apps, tasks, req, env);
      var old_ := tasks[p.index];
      var actor := req.username.s;
      && req.username.Str? && req.appAcronym.Str? && req.appAcronym.s in apps
      && Authorized(ValidateUser(users, actor, req.password.s, env.passwordMatches).value.groupList,
                    apps[req.appAcronym.s].permitDoing)
      && old_.state == "Doing"
      && p.row == old_.(state := "Done", owner := actor,
                        notes := PrependNote(PromotionEntry(actor, old_.name, env.timestamp, req.taskNotes), old_.notes))
  {
  }

  /** The addresses the Done notice goes to: the members of the task's
      application's Done group that have an email. */
  function NoticeRecipients(users: seq<User>, apps: map<string, Application>, acronym: string): (r: seq<string>)
    ensures acronym !in apps ==> r == []
    ensures acronym in apps ==> forall e :: e in r <==>
      exists u :: u in users && Authorized(u.groupList, apps[acronym].permitDone) && u.email == Some(e)
  {
    if acronym in apps then
      Notification.RecipientsMembership(users, apps[acronym].permitDone);
      Notification.Recipients(users, apps[acronym].permitDone)
    else []
  }

  /** `App_Rnumber` set for one application (no row changes when it is absent). */
  function SetRnumber(apps: map<string, Application>, acronym: string, rnumber: int): (r: map<string, Application>)
    ensures r.Keys == apps.Keys
    ensures forall a :: a in apps && a != acronym ==> r[a] == apps[a]
    ensures acronym in apps ==>
      && r[acronym].rnumber == rnumber
      && r[acronym].permitCreate == apps[acronym].permitCreate
      && r[acronym].permitDoing == apps[acronym].permitDoing
      && r[acronym].permitDone == apps[acronym].permitDone
  {
    if acronym in apps then apps[acronym := apps[acronym].(rnumber := rnumber)] else apps
  }

  // ----- The record store and the handlers -----

  class TaskStore {
    var users: seq<User>
    var apps: map<string, Application>
    var tasks: seq<Task>

    /** The task table's primary key holds. */
    ghost predicate Valid()
      reads this
    {
      UniqueTaskIds(tasks)
    }

    constructor (users: seq<User>, apps: map<string, Application>, tasks: seq<Task>)
      requires UniqueTaskIds(tasks)
      ensures Valid()
      ensures this.users == users && this.apps == apps && this.tasks == tasks
    {
      this.users := users;
      this.apps := apps;
      this.tasks := tasks;
    }

    /** `INSERT INTO task …`: one row, refused when the write fails or the
        id is already taken. */
    method InsertTask(row: Task, writeOk: bool) returns (inserted: bool)
      requires Valid()
      modifies this`tasks
      ensures Valid()
      ensures inserted == (writeOk && TaskIndex(old(tasks), row.id).None?)
      ensures tasks == if inserted then old(tasks) + [row] else old(tasks)
    {
      inserted := writeOk && TaskIndex(tasks, row.id).None?;
      if inserted {
        tasks := tasks + [row];
      }
    }

    /** `UPDATE application SET App_Rnumber = ? WHERE App_Acronym = ?`. */
    method UpdateRnumber(acronym: string, rnumber: int, writeOk: bool) returns (updated: bool)
      modifies this`apps
      ensures updated == (writeOk && acronym in old(apps))
      ensures apps == if updated then SetRnumber(old(apps), acronym, rnumber) else old(apps)
    {
      updated := writeOk && acronym in apps;
      if updated {
        apps := SetRnumber(apps, acronym, rnumber);
      }
    }

    /** `UPDATE task SET Task_notes = ?, Task_state = ?, Task_owner = ?
        WHERE Task_id = ?`. */
    method UpdateTask(id: string, notes: string, state: string, owner: string, writeOk: bool)
      returns (updated: bool)
      requires Valid()
      modifies this`tasks
      ensures Valid()
      ensures updated == (writeOk && TaskIndex(old(tasks), id).Some?)
      ensures updated ==>
        var k := TaskIndex(old(tasks), id).value;
        tasks == old(tasks)[k := old(tasks)[k].(notes := notes, state := state, owner := owner)]
      ensures !updated ==> tasks == old(tasks)
    {
      var found := TaskIndex(tasks, id);
      updated := writeOk && found.Some?;
      if updated {
        var k := found.value;
        tasks := tasks[k := tasks[k].(notes := notes, state := state, owner := owner)];
      }
    }

    /** `CreateTask`. The insert and the counter update are two separate
        writes: when the second fails the new row stays and the answer is
        T003. */
    method CreateTask(req: CreateTaskRequest, env: Env, insertOk: bool, updateOk: bool)
      returns (code: Code, taskId: Option<string>)
      requires Valid()
      modifies this
      ensures Valid() && users == old(users)
      ensures old(StatesLegal(tasks)) ==> StatesLegal(tasks)
      ensures code == S001 <==> taskId.Some?
      ensures match PlanCreate(old(users), old(apps), req, env)
        case RefuseCreate(c) =>
          code == c && apps == old(apps) && tasks == old(tasks)
        case InsertRow(row, r) =>
          if !insertOk || TaskIndex(old(tasks), row.id).Some? then
            code == T003 && apps == old(apps) && tasks == old(tasks)
          else if !updateOk then
            code == T003 && apps == old(apps) && tasks == old(tasks) + [row]
          else
            code == S001 && taskId == Some(row.id) && tasks == old(tasks) + [row]
            && apps == SetRnumber(old(apps), row.appAcronym, r)
    {
      var plan := PlanCreate(users, apps, req, env);
      if plan.RefuseCreate? {
        return plan.code, None;
      }
      var inserted := InsertTask(plan.row, insertOk);
      if !inserted {
        return T003, None;
      }
      var updated := UpdateRnumber(plan.row.appAcronym, plan.rnumber, updateOk);
      if !updated {
        return T003, None;
      }
      return S001, Some(plan.row.id);
    }

    /** `GetTaskbyState`: no permit is needed; a state outside the five is
        refused before the task table is queried. */
    method GetTaskbyState(req: StateQuery, env: Env, queryOk: bool)
      returns (code: Code, data: Option<seq<Task>>)
      ensures code == S001 <==> data.Some?
      ensures var g := Admit(users, apps, req.username, req.password, req.taskState, req.appAcronym, env.passwordMatches);
        && (g.Rejected? ==> code == g.code)
        && (g.Admitted? && !IsLegalState(req.taskState.s) ==> code == T002)
        && (g.Admitted? && IsLegalState(req.taskState.s) && !queryOk ==> code == T003)
        && (g.Admitted? && IsLegalState(req.taskState.s) && queryOk ==>
              data == Some(TasksWhere(tasks, req.taskState.s, req.appAcronym.s)))
    {
      var g := Admit(users, apps, req.username, req.password, req.taskState, req.appAcronym, env.passwordMatches);
      if g.Rejected? {
        return g.code, None;
      }
      var state := req.taskState.s;
      if !IsLegalState(state) {
        return T002, None;
      }
      if !queryOk {
        return T003, None;
      }
      return S001, Some(TasksWhere(tasks, state, req.appAcronym.s));
    }

    /** `PromoteTask2Done`. On success the Done notice goes to
        `recipients`; sending it is fire-and-forget and does not affect the
        answer. */
    method PromoteTask2Done(req: PromoteRequest, env: Env, updateOk: bool)
      returns (code: Code, recipients: seq<string>)
      requires Valid()
      modifies this
      ensures Valid() && users == old(users) && apps == old(apps)
      ensures old(StatesLegal(tasks)) ==> StatesLegal(tasks)
      ensures match PlanPromote(old(users), old(apps), old(tasks), req, env)
        case RefusePromote(c) =>
          code == c && tasks == old(tasks) && recipients == []
        case UpdateRow(k, row) =>
          if !updateOk then
            code == T003 && tasks == old(tasks) && recipients == []
          else
            code == S001 && tasks == old(tasks)[k := row]
            && recipients == NoticeRecipients(users, apps, row.appAcronym)
    {
      var plan := PlanPromote(users, apps, tasks, req, env);
      if plan.RefusePromote? {
        return plan.code, [];
      }
      var row := plan.row;
      assert TaskIndex(tasks, req.taskId.s) == Some(plan.index);
      var updated := UpdateTask(req.taskId.s, row.notes, row.state, row.owner, updateOk);
      if !updated {
        return T003, [];
      }
      recipients := [];
      if row.appAcronym in apps {
        recipients := Notification.CollectRecipients(users, apps[row.appAcronym].permitDone);
      }
      return S001, recipients;
    }
  }
}
