/** The habit controller: create, list, edit and delete over the habit
    collection, each scoped to the caller (`req.userId`, set by the auth
    guard). The collection is a sequence in storage order; ids come from a
    counter, which stands for ObjectId generation. */
module HabitController {
  import opened Common
  import opened HabitSchema

  /** No two habits share an id. */
  ghost predicate UniqueIds(hs: seq<Habit>) {
    forall i, j :: 0 <= i < j < |hs| ==> hs[i].id != hs[j].id
  }

  /** The query `{ _id: id, user: owner }`. */
  predicate Matches(h: Habit, id: Id, owner: Id) {
    h.id == id && h.owner == owner
  }

  /** The query `{ user: owner }`, in storage order. */
  function OwnedBy(hs: seq<Habit>, owner: Id): (r: seq<Habit>)
    ensures |r| <= |hs|
  {
    if hs == [] then []
    else (if hs[0].owner == owner then [hs[0]] else []) + OwnedBy(hs[1..], owner)
  }

  /** The query returns exactly the owner's habits. */
  lemma {:induction false} OwnedByMeaning(hs: seq<Habit>, owner: Id)
    ensures forall h <- OwnedBy(hs, owner) :: h in hs && h.owner == owner
    ensures forall h <- hs :: h.owner == owner ==> h in OwnedBy(hs, owner)
  {
    if hs != [] {
      OwnedByMeaning(hs[1..], owner);
      assert forall h <- hs :: h == hs[0] || h in hs[1..];
    }
  }

  lemma {:induction false} OwnedByAppend(a: seq<Habit>, b: seq<Habit>, owner: Id)
    ensures OwnedBy(a + b, owner) == OwnedBy(a, owner) + OwnedBy(b, owner)
  {
    if a == [] {
      assert a + b == b;
    } else {
      var head := if a[0].owner == owner then [a[0]] else [];
      assert (a + b)[0] == a[0] && (a + b)[1..] == a[1..] + b;
      assert OwnedBy(a + b, owner) == head + OwnedBy(a[1..] + b, owner);
      assert OwnedBy(a, owner) == head + OwnedBy(a[1..], owner);
      OwnedByAppend(a[1..], b, owner);
      assert head + (OwnedBy(a[1..], owner) + OwnedBy(b, owner))
          == (head + OwnedBy(a[1..], owner)) + OwnedBy(b, owner);
    }
  }

  lemma OwnedByOther(h: Habit, owner: Id)
    requires h.owner != owner
    ensures OwnedBy([h], owner) == []
  {
    assert [h][1..] == [];
  }

  /** Adding a habit of one owner leaves every other owner's habits as they
      were. */
  lemma OtherOwnersAppend(hs: seq<Habit>, e: Habit, owner: Id)
    requires owner != e.owner
    ensures OwnedBy(hs + [e], owner) == OwnedBy(hs, owner)
  {
    OwnedByOther(e, owner);
    OwnedByAppend(hs, [e], owner);
  }

  /** Replacing a habit of one owner by another of the same owner leaves
      every other owner's habits as they were, in the same order. */
  lemma OtherOwnersReplace(hs: seq<Habit>, k: nat, e: Habit, owner: Id)
    requires k < |hs| && hs[k].owner == e.owner && owner != e.owner
    ensures OwnedBy(hs[k := e], owner) == OwnedBy(hs, owner)
  {
    var pre, post := hs[..k], hs[k + 1..];
    OwnedByOther(hs[k], owner);
    OwnedByOther(e, owner);
    assert hs == pre + ([hs[k]] + post);
    assert hs[k := e] == pre + ([e] + post);
    OwnedByAppend([hs[k]], post, owner);
    OwnedByAppend([e], post, owner);
    OwnedByAppend(pre, [hs[k]] + post, owner);
    OwnedByAppend(pre, [e] + post, owner);
  }

  /** Removing a habit of one owner leaves every other owner's habits as
      they were, in the same order. */
  lemma OtherOwnersRemove(hs: seq<Habit>, k: nat, owner: Id)
    requires k < |hs| && owner != hs[k].owner
    ensures OwnedBy(hs[..k] + hs[k + 1..], owner) == OwnedBy(hs, owner)
  {
    var pre, post := hs[..k], hs[k + 1..];
    OwnedByOther(hs[k], owner);
    assert hs == pre + ([hs[k]] + post);
    OwnedByAppend([hs[k]], post, owner);
    OwnedByAppend(pre, [hs[k]] + post, owner);
    OwnedByAppend(pre, post, owner);
  }

  /** The position of a habit with this id and owner (`findOne`), if any. */
  function Find(hs: seq<Habit>, id: Id, owner: Id): (k: Option<nat>)
    ensures k.Some? ==> k.value < |hs| && Matches(hs[k.value], id, owner)
    ensures k.None? <==> forall h <- hs :: !Matches(h, id, owner)
  {
    if hs == [] then None
    else if Matches(hs[0], id, owner) then Some(0)
    else match Find(hs[1..], id, owner)
      case None => None
      case Some(j) => Some(j + 1)
  }

  /** With unique ids, the only habit Find can return is the one carrying
      that id. */
  lemma FindIsTheOnlyMatch(hs: seq<Habit>, id: Id, owner: Id, i: nat)
    requires UniqueIds(hs)
    requires i < |hs| && Matches(hs[i], id, owner)
    ensures Find(hs, id, owner) == Some(i)
  {
    var k := Find(hs, id, owner).value;
    assert hs[k].id == hs[i].id;
  }

  /** Removing position k keeps every other element, in order; with unique
      ids, no element with the removed id is left. */
  lemma RemoveAt(hs: seq<Habit>, k: nat)
    requires k < |hs|
    ensures var rest := hs[..k] + hs[k + 1..];
      && |rest| == |hs| - 1
      && (forall i :: 0 <= i < |rest| ==> rest[i] == if i < k then hs[i] else hs[i + 1])
      && (forall h <- hs :: h != hs[k] ==> h in rest)
      && (UniqueIds(hs) ==> UniqueIds(rest) && forall h <- rest :: h.id != hs[k].id)
  {
    var rest := hs[..k] + hs[k + 1..];
    assert forall i :: 0 <= i < |rest| ==> rest[i] == if i < k then hs[i] else hs[i + 1];
    forall h | h in hs && h != hs[k]
      ensures h in rest
    {
      var i :| 0 <= i < |hs| && hs[i] == h;
      if i < k { assert rest[i] == h; } else { assert rest[i - 1] == h; }
    }
  }

  /** The first habit with this id, whoever owns it (`populate`). */
  function LookupId(hs: seq<Habit>, id: Id): (r: Option<Habit>)
    ensures r.Some? ==> r.value in hs && r.value.id == id
    ensures r.None? <==> forall h <- hs :: h.id != id
  {
    if hs == [] then None
    else if hs[0].id == id then Some(hs[0])
    else LookupId(hs[1..], id)
  }

  /** Ordered by `createdAt`, newest first (`sort({ createdAt: -1 })`). */
  ghost predicate SortedNewestFirst(s: seq<Habit>) {
    forall i, j :: 0 <= i < j < |s| ==> s[i].createdAt >= s[j].createdAt
  }

  /** One insertion step: `h` goes before the first habit it is not older
      than. */
  function InsertNewest(h: Habit, s: seq<Habit>): (r: seq<Habit>)
    ensures forall x <- r :: x == h || x in s
    ensures multiset(r) == multiset(s) + multiset{h}
  {
    if s == [] || h.createdAt >= s[0].createdAt then [h] + s
    else
      assert s == [s[0]] + s[1..];
      [s[0]] + InsertNewest(h, s[1..])
  }

  lemma {:induction false} InsertNewestSorted(h: Habit, s: seq<Habit>)
    requires SortedNewestFirst(s)
    ensures SortedNewestFirst(InsertNewest(h, s))
  {
    if s != [] && h.createdAt < s[0].createdAt {
      var rest := InsertNewest(h, s[1..]);
      assert SortedNewestFirst(s[1..]) by {
        forall i, j | 0 <= i < j < |s[1..]| ensures s[1..][i].createdAt >= s[1..][j].createdAt {
          assert s[1..][i] == s[i + 1] && s[1..][j] == s[j + 1];
        }
      }
      InsertNewestSorted(h, s[1..]);
      forall x | x in rest
        ensures x.createdAt <= s[0].createdAt
      {
        if x != h {
          var i :| 0 <= i < |s[1..]| && s[1..][i] == x;
          assert s[i + 1] == x;
        }
      }
      var r := [s[0]] + rest;
      forall i, j | 0 <= i < j < |r| ensures r[i].createdAt >= r[j].createdAt {
        if i == 0 {
          assert r[j] == rest[j - 1] && rest[j - 1] in rest;
        } else {
          assert r[i] == rest[i - 1] && r[j] == rest[j - 1];
        }
      }
    }
  }

  /** The database's sort, as an insertion sort. Habits with equal
      `createdAt` may come in any order in the source; this model fixes one. */
  function SortNewestFirst(s: seq<Habit>): (r: seq<Habit>)
    ensures multiset(r) == multiset(s)
  {
    if s == [] then []
    else
      assert multiset(s) == multiset(s[1..]) + multiset{s[0]} by {
        assert s == [s[0]] + s[1..];
      }
      InsertNewest(s[0], SortNewestFirst(s[1..]))
  }

  /** The sort's result is newest first. */
  lemma {:induction false} SortNewestFirstSorted(s: seq<Habit>)
    ensures SortedNewestFirst(SortNewestFirst(s))
  {
    if s != [] {
      SortNewestFirstSorted(s[1..]);
      InsertNewestSorted(s[0], SortNewestFirst(s[1..]));
    }
  }

  /** The record after lines 35-37 of the edit handler: each field takes the
      request's value unless that is `null`/`undefined` (an empty string is
      taken as given); id, owner and creation time never change. */
  function Edited(h: Habit, f: HabitFields): (e: Habit)
    ensures e.id == h.id && e.owner == h.owner && e.createdAt == h.createdAt
    ensures e.name == (if f.name.Some? then f.name.value else h.name)
    ensures e.description == (if f.description.Some? then f.description else h.description)
    ensures e.frequency == (if f.frequency.Some? then f.frequency.value else h.frequency)
  {
    h.(name := f.name.GetOr(h.name),
       description := f.description.OrElse(h.description),
       frequency := f.frequency.GetOr(h.frequency))
  }

  /** The habit collection. */
  class HabitStore {
    var habits: seq<Habit>
    var nextId: nat

    /** Ids are unique and below the next fresh id; every stored habit
        passed validation. */
    ghost predicate Valid()
      reads this
    {
      && UniqueIds(habits)
      && (forall h <- habits :: h.id < nextId && ValidHabit(h))
    }

    constructor ()
      ensures Valid() && habits == []
    {
      habits := [];
      nextId := 0;
    }

    /** `newHabit`: stamp the caller as owner, validate, insert. */
    method NewHabit(caller: Id, body: HabitFields, now: int) returns (r: Reply<Habit>)
      requires Valid()
      modifies this
      ensures Valid()
      ensures match BuildHabit(body, old(nextId), caller, now)
        case Some(h) =>
          && habits == old(habits) + [h]
          && (forall g <- old(habits) :: g.id != h.id)
          && r == Send(201, h)
          && (forall o :: o != caller ==> OwnedBy(habits, o) == OwnedBy(old(habits), o))
        case None =>
          habits == old(habits) && r == Say(500, "Error creating habit")
    {
      var made := BuildHabit(body, nextId, caller, now);
      if made.None? {
        return Say(500, "Error creating habit");
      }
      forall o | o != caller
        ensures OwnedBy(habits + [made.value], o) == OwnedBy(habits, o)
      {
        OtherOwnersAppend(habits, made.value, o);
      }
      habits := habits + [made.value];
      nextId := nextId + 1;
      r := Send(201, made.value);
    }

    /** `getAllHabits`: exactly the caller's habits, newest first. */
    function GetAllHabits(caller: Id): (r: Reply<seq<Habit>>)
      reads this
      ensures r.status == 200 && r.body.Data? && r.cookie == NoCookie
      ensures SortedNewestFirst(r.body.value)
      ensures multiset(r.body.value) == multiset(OwnedBy(habits, caller))
      ensures forall h <- r.body.value :: h in habits && h.owner == caller
      ensures forall h <- habits :: h.owner == caller ==> h in r.body.value
    {
      var listed := SortNewestFirst(OwnedBy(habits, caller));
      SortNewestFirstSorted(OwnedBy(habits, caller));
      OwnedByMeaning(habits, caller);
      assert forall h :: h in listed <==> h in multiset(OwnedBy(habits, caller));
      Send(200, listed)
    }

    /** `editHabit`: find the caller's habit with this id, overwrite the
        supplied fields one by one, validate, save. */
    method EditHabit(caller: Id, id: ObjectIdText, body: HabitFields) returns (r: Reply<Habit>)
      requires Valid()
      modifies this
      ensures Valid() && nextId == old(nextId)
      ensures id.NotCastable? ==>
        habits == old(habits) && r == Say(500, "Error updating habit")
      ensures id.Castable? && Find(old(habits), id.id, caller).None? ==>
        habits == old(habits) && r == Say(404, "Habit not found or not authorized")
      ensures id.Castable? && Find(old(habits), id.id, caller).Some? ==>
        var k := Find(old(habits), id.id, caller).value;
        var e := Edited(old(habits)[k], body);
        if ValidHabit(e) then habits == old(habits)[k := e] && r == Send(200, e)
        else habits == old(habits) && r == Say(500, "Error updating habit")
      ensures forall o :: o != caller ==> OwnedBy(habits, o) == OwnedBy(old(habits), o)
    {
      if id.NotCastable? {
        return Say(500, "Error updating habit");
      }
      var found := Find(habits, id.id, caller);
      if found.None? {
        return Say(404, "Habit not found or not authorized");
      }
      var k := found.value;
      var habit := habits[k];
      habit := habit.(name := body.name.GetOr(habit.name));
      habit := habit.(description := body.description.OrElse(habit.description));
      habit := habit.(frequency := body.frequency.GetOr(habit.frequency));
      if !ValidHabit(habit) {
        return Say(500, "Error updating habit");
      }
      forall o | o != caller
        ensures OwnedBy(habits[k := habit], o) == OwnedBy(habits, o)
      {
        OtherOwnersReplace(habits, k, habit, o);
      }
      habits := habits[k := habit];
      r := Send(200, habit);
    }

    /** `deleteHabit`: remove the caller's habit with this id. */
    method DeleteHabit(caller: Id, id: ObjectIdText) returns (r: Reply<()>)
      requires Valid()
      modifies this
      ensures Valid() && nextId == old(nextId)
      ensures id.NotCastable? ==>
        habits == old(habits) && r == Say(500, "Error deleting habit")
      ensures id.Castable? && Find(old(habits), id.id, caller).None? ==>
        habits == old(habits) && r == Say(404, "Habit not found or not authorized")
      ensures id.Castable? && Find(old(habits), id.id, caller).Some? ==>
        var k := Find(old(habits), id.id, caller).value;
        habits == old(habits)[..k] + old(habits)[k + 1..]
        && r == Say(200, "Habit deleted successfully")
      ensures id.Castable? ==> forall h <- old(habits) :: h.id != id.id ==> h in habits
      ensures id.Castable? ==> forall h <- habits :: !Matches(h, id.id, caller)
      ensures forall o :: o != caller ==> OwnedBy(habits, o) == OwnedBy(old(habits), o)
    {
      if id.NotCastable? {
        return Say(500, "Error deleting habit");
      }
      var found := Find(habits, id.id, caller);
      if found.None? {
        return Say(404, "Habit not found or not authorized");
      }
      var k := found.value;
      RemoveAt(habits, k);
      forall o | o != caller
        ensures OwnedBy(habits[..k] + habits[k + 1..], o) == OwnedBy(habits, o)
      {
        OtherOwnersRemove(habits, k, o);
      }
      habits := habits[..k] + habits[k + 1..];
      r := Say(200, "Habit deleted successfully");
    }
  }
}
