/** The Habit model: its stored shape, the validation Mongoose runs on save
    (a required name, a required frequency from a fixed enum) and the
    `createdAt` default. */
module HabitSchema {
  import opened Common

  /** The frequency enum. */
  const Frequencies: seq<string> := ["Daily", "Weekly", "Monthly"]

  /** A stored habit. `owner` is the `user` the controllers stamp on create
      and filter on every access. */
  datatype Habit = Habit(
    id: Id,
    owner: Id,
    name: string,
    description: Option<string>,
    frequency: string,
    createdAt: int)

  /** The three fields a request body can carry. */
  datatype HabitFields = HabitFields(
    name: Option<string>,
    description: Option<string>,
    frequency: Option<string>)

  /** Mongoose's `required` validator on a String path: the value must be
      present and non-empty. */
  predicate RequiredString(v: Option<string>) {
    v.Some? && v.value != ""
  }

  /** The fields pass the schema's validators. */
  predicate Acceptable(f: HabitFields) {
    RequiredString(f.name) && RequiredString(f.frequency) && f.frequency.value in Frequencies
  }

  /** A stored habit satisfies the schema. */
  predicate ValidHabit(h: Habit) {
    h.name != "" && h.frequency in Frequencies
  }

  /** The document Mongoose builds from `fields` and validates on save;
      `now` is the clock reading taken by the `createdAt` default. `None`
      is a validation error. */
  function BuildHabit(f: HabitFields, id: Id, owner: Id, now: int): (r: Option<Habit>)
    ensures r.Some? <==> Acceptable(f)
    ensures r.Some? ==>
      && ValidHabit(r.value)
      && r.value.id == id && r.value.owner == owner
      && f.name == Some(r.value.name)
      && r.value.description == f.description
      && f.frequency == Some(r.value.frequency)
      && r.value.createdAt == now
  {
    if Acceptable(f) then
      Some(Habit(id, owner, f.name.value, f.description, f.frequency.value, now))
    else
      None
  }

  /** A habit without a name, or with an empty one, never passes validation,
      whatever its other fields are. */
  lemma NameIsRequired(f: HabitFields, id: Id, owner: Id, now: int)
    requires !RequiredString(f.name)
    ensures BuildHabit(f, id, owner, now) == None
  {
  }

  /** Only the three enumerated frequencies are accepted; the description
      never decides validity. */
  lemma FrequencyDecides(name: string, description: Option<string>, frequency: string, id: Id, owner: Id, now: int)
    requires name != ""
    ensures BuildHabit(HabitFields(Some(name), description, Some(frequency)), id, owner, now).Some?
            <==> frequency in {"Daily", "Weekly", "Monthly"}
  {
  }
}
