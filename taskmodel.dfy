/** The records of the task-tracking store and the pure rules over them
    that the controllers use: result codes, the five task states, group
    authorization, task-id minting and audit-note composition. */
module TaskModel {
  import opened Wrappers
  import opened JsValues
  import Text

  /** The `code` field of every JSON response the controllers send. */
  datatype Code =
    | S001   // success
    | PS001  // a mandatory field is missing
    | PS002  // a mandatory field is not a string
    | IM001  // unknown user or wrong password
    | IM002  // account disabled
    | AM001  // application does not exist
    | AM002  // permit unset or user not in the permit group
    | T001   // task does not exist
    | T002   // invalid task state
    | T003   // write or query failed, or empty task name
    | AS002  // the URL holds a special character

  /** A row of the `user` table. `isDisabled` is the `is_disabled` column;
      `groupList` is the comma-separated `group_list` column. */
  datatype User = User(
    username: string,
    passwordHash: string,
    isDisabled: int,
    groupList: string,
    email: Option<string>)

  /** A row of the `application` table (its key, `App_Acronym`, is the key
      of the store's map). Each permit names one group, or is NULL. */
  datatype Application = Application(
    rnumber: int,
    permitCreate: Option<string>,
    permitDoing: Option<string>,
    permitDone: Option<string>)

  /** A row of the `task` table. The state is kept as the stored string. */
  datatype Task = Task(
    id: string,
    name: string,
    description: JsValue,
    notes: string,
    plan: Option<string>,
    appAcronym: string,
    state: string,
    creator: string,
    owner: string,
    createDate: string)

  // ----- Task states -----

  datatype TaskState = Open | ToDo | Doing | Done | Close

  function StateName(st: TaskState): string
  {
    match st
    case Open => "Open"
    case ToDo => "ToDo"
    case Doing => "Doing"
    case Done => "Done"
    case Close => "Close"
  }

  /** The whitelist test of `GetTaskbyState`. */
  predicate IsLegalState(s: string)
  {
    s == "Open" || s == "ToDo" || s == "Doing" || s == "Done" || s == "Close"
  }

  function ParseState(s: string): (r: Option<TaskState>)
    ensures r.Some? ==> StateName(r.value) == s
  {
    if s == "Open" then Some(Open)
    else if s == "ToDo" then Some(ToDo)
    else if s == "Doing" then Some(Doing)
    else if s == "Done" then Some(Done)
    else if s == "Close" then Some(Close)
    else None
  }

  /** The whitelist admits exactly the names of the five states, and each
      name parses back to its state. */
  lemma LegalStatesAreStateNames(s: string)
    ensures IsLegalState(s) <==> exists st :: StateName(st) == s
    ensures IsLegalState(s) <==> ParseState(s).Some?
    ensures forall st :: ParseState(StateName(st)) == Some(st)
  {
    if IsLegalState(s) {
      assert StateName(ParseState(s).value) == s;
    }
  }

  // ----- Authorization -----

  /** `group_list.split(",").includes(permit)`, where a NULL permit
      admits nobody. */
  predicate Authorized(groupList: string, permit: Option<string>)
  {
    permit.Some? && permit.value in Text.Split(groupList, ',')
  }

  /** A permit admits a user exactly when it is one whole comma-separated
      field of the user's group list: no prefix or substring match. */
  lemma AuthorizedIffWholeGroup(groupList: string, group: string)
    ensures Authorized(groupList, Some(group)) <==> Text.IsField(groupList, ',', group)
  {
    Text.InSplitIffField(groupList, ',', group);
  }

  /** An unset permit admits nobody; a permit holding a comma admits nobody. */
  lemma UnsatisfiablePermits(groupList: string, group: string)
    ensures !Authorized(groupList, None)
    ensures ',' in group ==> !Authorized(groupList, Some(group))
  {
  }

  /** A group name that is only part of a listed group does not match. */
  lemma PartialGroupNameDenied()
    ensures !Authorized("developer", Some("dev"))
  {
    var s := "developer";
    assert forall i :: 0 <= i < |s| ==> s[i] != ',';
    assert Text.Split(s, ',') == [s];
  }

  /** A group listed among others matches. */
  lemma ListedGroupMatches()
    ensures Authorized("lead,dev", Some("dev"))
  {
    var s := "lead,dev";
    assert s[4] == ',' && s[..4] == "lead" && s[5..] == "dev";
    assert forall i :: 0 <= i < 4 ==> s[i] != ',';
    assert Text.IndexOf(s, ',') == 4;
    var rest := s[5..];
    assert forall i :: 0 <= i < |rest| ==> rest[i] != ',';
    assert Text.Split(rest, ',') == ["dev"];
  }

  // ----- Task ids -----

  /** `Task_app_Acronym + (App_Rnumber + 1)`: the id of the next task
      created in an application whose counter is `rnumber`. */
  function TaskId(acronym: string, rnumber: int): string
  {
    acronym + Text.IntToDecimal(rnumber + 1)
  }

  /** Within one application, different counter values mint different ids,
      so no two successful creates in one application mint the same id. */
  lemma TaskIdInjective(acronym: string, r1: int, r2: int)
    ensures TaskId(acronym, r1) == TaskId(acronym, r2) <==> r1 == r2
  {
    var a, b := TaskId(acronym, r1), TaskId(acronym, r2);
    assert a[|acronym|..] == Text.IntToDecimal(r1 + 1);
    assert b[|acronym|..] == Text.IntToDecimal(r2 + 1);
    Text.IntToDecimalInjective(r1 + 1, r2 + 1);
  }

  /** An id starts with its application's acronym and ends with the
      decimal number minted for it, which can be read back. */
  lemma TaskIdParts(acronym: string, rnumber: int)
    ensures var id := TaskId(acronym, rnumber);
      |id| > |acronym| && id[..|acronym|] == acronym
      && Text.ParseInt(id[|acronym|..]) == rnumber + 1
  {
    var id := TaskId(acronym, rnumber);
    assert id[|acronym|..] == Text.IntToDecimal(rnumber + 1);
    Text.ParseIntToDecimal(rnumber + 1);
  }

  /** An application with acronym "APP1" and counter 5 mints "APP16". */
  lemma TaskIdExample()
    ensures TaskId("APP1", 5) == "APP16"
  {
    assert Text.NatToDecimal(6) == "6";
  }

  /** There is no separator between acronym and number, so two
      applications can mint the same id: "A" at counter 10 and "A1" at
      counter 0 both mint "A11". */
  lemma TaskIdsCollideAcrossApplications()
    ensures TaskId("A", 10) == TaskId("A1", 0) == "A11"
  {
    assert Text.NatToDecimal(11) == "11" by {
      assert Text.NatToDecimal(1) == "1";
    }
    assert Text.NatToDecimal(1) == "1";
  }

  // ----- Audit notes -----

  /** The notes a new task starts with. */
  function CreationNote(username: string, date: string): string
  {
    "Task created by " + username + " on " + date
  }

  /** Whether `Task_notes` counts as not supplied. */
  predicate NoSuppliedNotes(v: JsValue)
  {
    v == Undefined || v == Null || v == Str("")
  }

  /** The entry `Added_Task_notes` recorded when a task moves from Doing
      to Done, with the caller's notes on a line of their own. */
  function PromotionEntry(actor: string, taskName: string, timestamp: string, supplied: JsValue): string
  {
    var line := actor + " moved " + taskName + " from " + StateName(Doing)
      + " to " + StateName(Done) + " on " + timestamp;
    if NoSuppliedNotes(supplied) then line else line + "\n" + ToJsString(supplied)
  }

  /** The new entry is put in front of the old notes with a blank line
      between them. */
  function PrependNote(entry: string, oldNotes: string): (r: string)
  {
    entry + "\n\n" + oldNotes
  }

  /** Prepending keeps the whole history: the old notes are a suffix,
      the new entry a prefix, and both can be recovered. */
  lemma PrependNoteKeepsHistory(entry: string, oldNotes: string)
    ensures var r := PrependNote(entry, oldNotes);
      |r| == |entry| + 2 + |oldNotes|
      && r[..|entry|] == entry
      && r[|entry|..|entry| + 2] == "\n\n"
      && r[|entry| + 2..] == oldNotes
  {
    var r := PrependNote(entry, oldNotes);
    assert r == entry + ("\n\n" + oldNotes);
    assert r[|entry|..] == "\n\n" + oldNotes;
  }

  /** The caller's notes are recorded, on a line after the generated one,
      exactly when they were supplied. */
  lemma PromotionEntryRecordsSuppliedNotes(actor: string, taskName: string, timestamp: string, supplied: JsValue)
    ensures var line := actor + " moved " + taskName + " from Doing to Done on " + timestamp;
      var e := PromotionEntry(actor, taskName, timestamp, supplied);
      && |e| >= |line| && e[..|line|] == line
      && (|e| == |line| <==> NoSuppliedNotes(supplied))
      && (!NoSuppliedNotes(supplied) ==> e[|line|] == '\n' && e[|line| + 1..] == ToJsString(supplied))
  {
    var line := actor + " moved " + taskName + " from Doing to Done on " + timestamp;
    PromotionLineSpelt(actor, taskName, timestamp);
    if !NoSuppliedNotes(supplied) {
      var e := line + "\n" + ToJsString(supplied);
      assert e == line + ("\n" + ToJsString(supplied));
      assert e[|line|..] == "\n" + ToJsString(supplied);
      assert supplied.Str? ==> ToJsString(supplied) != "";
    }
  }

  /** The generated line of a promotion entry, spelt out. */
  lemma PromotionLineSpelt(actor: string, taskName: string, timestamp: string)
    ensures PromotionEntry(actor, taskName, timestamp, Undefined)
      == actor + " moved " + taskName + " from Doing to Done on " + timestamp
  {
    var mid := " from " + StateName(Doing) + " to " + StateName(Done) + " on ";
    assert mid == " from Doing to Done on ";
    var head := actor + " moved " + taskName;
    assert head + " from " + StateName(Doing) + " to " + StateName(Done) + " on " == head + mid;
  }

  /** Where each part of the promoted notes lies: the generated line, then
      the supplied notes on a line of their own (when given), then a blank
      line, then the old notes. */
  lemma PromotedNotesLayout(t: Task, actor: string, timestamp: string, supplied: JsValue)
    ensures var line := actor + " moved " + t.name + " from Doing to Done on " + timestamp;
      var n := Promoted(t, actor, timestamp, supplied).notes;
      && |n| >= |line| && n[..|line|] == line
      && (NoSuppliedNotes(supplied) ==> n[|line|..] == "\n\n" + t.notes)
      && (!NoSuppliedNotes(supplied) ==>
            var s := ToJsString(supplied);
            && |n| == |line| + 1 + |s| + 2 + |t.notes|
            && n[|line|] == '\n'
            && n[|line| + 1..|line| + 1 + |s|] == s
            && n[|line| + 1 + |s|..] == "\n\n" + t.notes)
  {
    var line := actor + " moved " + t.name + " from Doing to Done on " + timestamp;
    var e := PromotionEntry(actor, t.name, timestamp, supplied);
    PromotionLineSpelt(actor, t.name, timestamp);
    assert Promoted(t, actor, timestamp, supplied).notes == PrependNote(e, t.notes);
    if NoSuppliedNotes(supplied) {
      assert e == line;
      PrependNoteKeepsHistory(line, t.notes);
    } else {
      var s := ToJsString(supplied);
      assert e == line + "\n" + s;
      EntryLayout(line, s, t.notes);
    }
  }

  /** Positions within `line + "\n" + s + "\n\n" + oldNotes`. */
  lemma EntryLayout(line: string, s: string, oldNotes: string)
    ensures var n := PrependNote(line + "\n" + s, oldNotes);
      && |n| == |line| + 1 + |s| + 2 + |oldNotes|
      && n[..|line|] == line
      && n[|line|] == '\n'
      && n[|line| + 1..|line| + 1 + |s|] == s
      && n[|line| + 1 + |s|..] == "\n\n" + oldNotes
  {
    var n := PrependNote(line + "\n" + s, oldNotes);
    assert n == line + ("\n" + (s + ("\n\n" + oldNotes)));
    assert n[|line|..] == "\n" + (s + ("\n\n" + oldNotes));
    assert n[|line| + 1..] == s + ("\n\n" + oldNotes);
  }

  /** Example: actor alice, task "Fix bug", no supplied notes
      and old notes "OLD". */
  lemma PromotionNotesExample(timestamp: string)
    ensures PrependNote(PromotionEntry("alice", "Fix bug", timestamp, Undefined), "OLD")
      == "alice moved Fix bug from Doing to Done on " + timestamp + "\n\nOLD"
  {
    PromotionLineSpelt("alice", "Fix bug", timestamp);
    var head := "alice" + " moved " + "Fix bug" + " from Doing to Done on ";
    assert head == "alice moved Fix bug from Doing to Done on ";
    assert (head + timestamp) + "\n\n" + "OLD" == (head + timestamp) + "\n\nOLD";
  }

  /** The task row after the Doing -> Done update: notes, state and owner
      are the three columns the `UPDATE` writes. */
  function Promoted(t: Task, actor: string, timestamp: string, supplied: JsValue): Task
  {
    t.(notes := PrependNote(PromotionEntry(actor, t.name, timestamp, supplied), t.notes),
       state := StateName(Done),
       owner := actor)
  }

  /** What a promotion changes and what it leaves alone. */
  lemma PromotedChangesOnlyNotesStateOwner(t: Task, actor: string, timestamp: string, supplied: JsValue)
    ensures var r := Promoted(t, actor, timestamp, supplied);
      r.state == "Done" && r.owner == actor
      && r.id == t.id && r.name == t.name && r.description == t.description
      && r.plan == t.plan && r.appAcronym == t.appAcronym
      && r.creator == t.creator && r.createDate == t.createDate
      && r.notes[|r.notes| - |t.notes|..] == t.notes
  {
    var e := PromotionEntry(actor, t.name, timestamp, supplied);
    PrependNoteKeepsHistory(e, t.notes);
  }

  // ----- Store rows -----

  /** The `Task_id` column is the primary key of the task table. */
  ghost predicate UniqueTaskIds(tasks: seq<Task>)
  {
    forall i, j :: 0 <= i < j < |tasks| ==> tasks[i].id != tasks[j].id
  }

  /** Every stored task is in one of the five states. */
  ghost predicate StatesLegal(tasks: seq<Task>)
  {
    forall i :: 0 <= i < |tasks| ==> IsLegalState(tasks[i].state)
  }

  /** Position of the first user row with this username (`row[0]`).
      `TaskIndex` below is the same first-match search over task rows; the
      two are kept apart because the source reads `row[0]` and `row1[0]`
      from two different queries. */
  function UserIndex(users: seq<User>, name: string): (r: Option<nat>)
    ensures r.Some? ==> r.value < |users| && users[r.value].username == name
    ensures r.Some? ==> forall j :: 0 <= j < r.value ==> users[j].username != name
    ensures r.None? ==> forall j :: 0 <= j < |users| ==> users[j].username != name
  {
    if |users| == 0 then None
    else if users[0].username == name then Some(0)
    else match UserIndex(users[1..], name)
      case None => None
      case Some(i) => Some(i + 1)
  }

  /** Position of the first task row with this id (`row1[0]`). */
  function TaskIndex(tasks: seq<Task>, id: string): (r: Option<nat>)
    ensures r.Some? ==> r.value < |tasks| && tasks[r.value].id == id
    ensures r.Some? ==> forall j :: 0 <= j < r.value ==> tasks[j].id != id
    ensures r.None? ==> forall j :: 0 <= j < |tasks| ==> tasks[j].id != id
  {
    if |tasks| == 0 then None
    else if tasks[0].id == id then Some(0)
    else match TaskIndex(tasks[1..], id)
      case None => None
      case Some(i) => Some(i + 1)
  }

  /** `SELECT * FROM task WHERE Task_state = ? AND Task_app_acronym = ?`:
      the matching rows, in row order. */
  function TasksWhere(tasks: seq<Task>, state: string, acronym: string): (r: seq<Task>)
    ensures |r| <= |tasks|
    ensures forall t :: t in r <==> t in tasks && t.state == state && t.appAcronym == acronym
  {
    if |tasks| == 0 then []
    else
      var rest := TasksWhere(tasks[1..], state, acronym);
      if tasks[0].state == state && tasks[0].appAcronym == acronym then [tasks[0]] + rest else rest
  }

  /** The query distributes over a split of the rows, so it keeps row order. */
  lemma {:induction false} TasksWhereConcat(a: seq<Task>, b: seq<Task>, state: string, acronym: string)
    ensures TasksWhere(a + b, state, acronym) == TasksWhere(a, state, acronym) + TasksWhere(b, state, acronym)
  {
    if |a| > 0 {
      assert (a + b)[1..] == a[1..] + b;
      TasksWhereConcat(a[1..], b, state, acronym);
    } else {
      assert a + b == b;
    }
  }
}
