/** The HabitLog model: two required references (user and habit), a required
    date with a clock default, and a status enum with a default. */
module HabitLogSchema {
  import opened Common

  /** The status enum. */
  const Statuses: seq<string> := ["Completed", "Missed"]

  /** The status a log gets when none is supplied. */
  const DefaultStatus: string := "Completed"

  /** A stored log event. */
  datatype HabitLog = HabitLog(id: Id, user: Id, habit: Id, date: int, status: string)

  /** The fields handed to `HabitLog.create`. */
  datatype LogFields = LogFields(
    user: Option<Id>,
    habit: Option<ObjectIdText>,
    date: Option<int>,
    status: Option<string>)

  /** A stored log satisfies the schema. */
  predicate ValidLog(l: HabitLog) {
    l.status in Statuses
  }

  /** The fields pass the schema's casts and validators: both references are
      present (and the habit one casts to an ObjectId), and a supplied status
      is one of the enum's values. */
  predicate Acceptable(f: LogFields) {
    && f.user.Some?
    && f.habit.Some? && f.habit.value.Castable?
    && (f.status.None? || f.status.value in Statuses)
  }

  /** The document `HabitLog.create` validates and stores; `now` is the
      clock reading taken by the `date` default. `None` is a validation or
      cast error. */
  function BuildLog(f: LogFields, id: Id, now: int): (r: Option<HabitLog>)
    ensures r.Some? <==> Acceptable(f)
    ensures r.Some? ==>
      && ValidLog(r.value)
      && r.value.id == id
      && f.user == Some(r.value.user)
      && f.habit == Some(Castable(r.value.habit))
      && r.value.date == f.date.GetOr(now)
      && r.value.status == f.status.GetOr(DefaultStatus)
  {
    if Acceptable(f) then
      Some(HabitLog(id, f.user.value, f.habit.value.id, f.date.GetOr(now), f.status.GetOr(DefaultStatus)))
    else
      None
  }

  /** A log without a user, or without a habit reference, is invalid. */
  lemma ReferencesAreRequired(f: LogFields, id: Id, now: int)
    requires f.user.None? || f.habit.None?
    ensures BuildLog(f, id, now) == None
  {
  }

  /** When no status is supplied the stored one is "Completed", and when no
      date is supplied the stored one is the clock reading. */
  lemma Defaults(user: Id, habit: Id, id: Id, now: int)
    ensures BuildLog(LogFields(Some(user), Some(Castable(habit)), None, None), id, now)
            == Some(HabitLog(id, user, habit, now, "Completed"))
  {
  }
}
