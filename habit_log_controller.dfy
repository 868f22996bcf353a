/** The habit-log controller: `logHabit` appends to the log collection and
    `getLogsByUser` lists the caller's logs with their habit populated. Logs
    are never updated or deleted. */
module HabitLogController {
  import opened Common
  import opened HabitSchema
  import opened HabitLogSchema
  import opened HabitController

  /** A log as `populate("habit")` returns it: the reference replaced by the
      habit document, or by `null` when no habit has that id. */
  datatype PopulatedLog = PopulatedLog(id: Id, user: Id, habit: Option<Habit>, date: int, status: string)

  /** The query `{ user: user }`, in storage order. */
  function LogsOf(logs: seq<HabitLog>, user: Id): (r: seq<HabitLog>)
    ensures |r| <= |logs|
  {
    if logs == [] then []
    else (if logs[0].user == user then [logs[0]] else []) + LogsOf(logs[1..], user)
  }

  /** The query returns exactly the user's logs, and nothing for a user with
      none. */
  lemma {:induction false} LogsOfMeaning(logs: seq<HabitLog>, user: Id)
    ensures forall l <- LogsOf(logs, user) :: l in logs && l.user == user
    ensures forall l <- logs :: l.user == user ==> l in LogsOf(logs, user)
    ensures (forall l <- logs :: l.user != user) ==> LogsOf(logs, user) == []
  {
    if logs != [] {
      LogsOfMeaning(logs[1..], user);
      assert forall l <- logs :: l == logs[0] || l in logs[1..];
    }
  }

  lemma {:induction false} LogsOfAppend(a: seq<HabitLog>, b: seq<HabitLog>, user: Id)
    ensures LogsOf(a + b, user) == LogsOf(a, user) + LogsOf(b, user)
  {
    if a == [] {
      assert a + b == b;
    } else {
      var head := if a[0].user == user then [a[0]] else [];
      assert (a + b)[0] == a[0] && (a + b)[1..] == a[1..] + b;
      assert LogsOf(a + b, user) == head + LogsOf(a[1..] + b, user);
      assert LogsOf(a, user) == head + LogsOf(a[1..], user);
      LogsOfAppend(a[1..], b, user);
      assert head + (LogsOf(a[1..], user) + LogsOf(b, user))
          == (head + LogsOf(a[1..], user)) + LogsOf(b, user);
    }
  }

  /** Storing one log extends its user's list by it and leaves every other
      user's list as it was. */
  lemma AppendOneLog(logs: seq<HabitLog>, l: HabitLog)
    ensures LogsOf(logs + [l], l.user) == LogsOf(logs, l.user) + [l]
    ensures forall o :: o != l.user ==> LogsOf(logs + [l], o) == LogsOf(logs, o)
  {
    assert [l][1..] == [];
    LogsOfAppend(logs, [l], l.user);
    forall o | o != l.user
      ensures LogsOf(logs + [l], o) == LogsOf(logs, o)
    {
      LogsOfAppend(logs, [l], o);
    }
  }

  /** `populate("habit")` on one log: the referenced habit is looked up by
      id alone, whoever owns it. */
  function Populate(l: HabitLog, habits: seq<Habit>): (p: PopulatedLog)
    ensures p.id == l.id && p.user == l.user && p.date == l.date && p.status == l.status
    ensures p.habit.Some? ==> p.habit.value in habits && p.habit.value.id == l.habit
    ensures p.habit.None? <==> forall h <- habits :: h.id != l.habit
  {
    PopulatedLog(l.id, l.user, LookupId(habits, l.habit), l.date, l.status)
  }

  ghost predicate UniqueLogIds(ls: seq<HabitLog>) {
    forall i, j :: 0 <= i < j < |ls| ==> ls[i].id != ls[j].id
  }

  /** The log collection. */
  class HabitLogStore {
    var logs: seq<HabitLog>
    var nextId: nat

    /** Ids are unique and below the next fresh id; every stored log passed
        validation. */
    ghost predicate Valid()
      reads this
    {
      && UniqueLogIds(logs)
      && (forall l <- logs :: l.id < nextId && ValidLog(l))
    }

    constructor ()
      ensures Valid() && logs == []
    {
      logs := [];
      nextId := 0;
    }

    /** `logHabit`: create a log for the caller with the request's habit id
        and status, dated `now`. Nothing checks that the habit exists or
        belongs to the caller. */
    method LogHabit(caller: Id, habitId: Option<ObjectIdText>, status: Option<string>, now: int)
      returns (r: Reply<HabitLog>)
      requires Valid()
      modifies this
      ensures Valid()
      ensures match BuildLog(LogFields(Some(caller), habitId, Some(now), status), old(nextId), now)
        case Some(l) =>
          && logs == old(logs) + [l]
          && l.user == caller && habitId == Some(Castable(l.habit)) && l.date == now
          && l.status == status.GetOr(DefaultStatus)
          && r == Send(201, l)
          && LogsOf(logs, caller) == LogsOf(old(logs), caller) + [l]
          && (forall o :: o != caller ==> LogsOf(logs, o) == LogsOf(old(logs), o))
        case None =>
          logs == old(logs) && r == Fail(500, "Failed to log habit")
      ensures r.status == 201 <==>
        habitId.Some? && habitId.value.Castable? && (status.None? || status.value in Statuses)
    {
      var made := BuildLog(LogFields(Some(caller), habitId, Some(now), status), nextId, now);
      if made.None? {
        return Fail(500, "Failed to log habit");
      }
      AppendOneLog(logs, made.value);
      logs := logs + [made.value];
      nextId := nextId + 1;
      r := Send(201, made.value);
    }

    /** `getLogsByUser`: the caller's logs in storage order, each with its
        habit populated from `habits`. */
    function GetLogsByUser(caller: Id, habits: seq<Habit>): (r: Reply<seq<PopulatedLog>>)
      reads this
      ensures r.status == 200 && r.body.Data? && r.cookie == NoCookie
      ensures |r.body.value| == |LogsOf(logs, caller)|
      ensures forall i :: 0 <= i < |r.body.value| ==>
        r.body.value[i] == Populate(LogsOf(logs, caller)[i], habits)
      ensures forall p <- r.body.value :: p.user == caller
      ensures (forall l <- logs :: l.user != caller) ==> r.body.value == []
    {
      var mine := LogsOf(logs, caller);
      LogsOfMeaning(logs, caller);
      var listed := seq(|mine|, i requires 0 <= i < |mine| => Populate(mine[i], habits));
      assert forall p <- listed :: p.user == caller by {
        forall p | p in listed ensures p.user == caller {
          var i :| 0 <= i < |listed| && listed[i] == p;
          assert mine[i] in mine;
        }
      }
      Send(200, listed)
    }
  }
}
