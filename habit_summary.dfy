/** The per-habit summary (`getHabitLogSummary`): the aggregation pipeline
    over the habit and log collections, stage by stage, and what it
    computes. Stages, in order:
      $match   the caller's habits;
      $lookup  each habit's logs (`logs.habit == habit._id`);
      $unwind  one document per log, or one with no log for a habit that
               has none (`preserveNullAndEmptyArrays`);
      $group   by (habit id, habit name, log status), counting documents;
      $group   by habit id: the first name, the sum of the counts whose status
               is "Completed", and the sum of those whose status is the
               missed key.
    The source's missed key is the lowercase "missed", while stored statuses
    are "Completed" or "Missed"; the key is a parameter here so that the
    pipeline as written and the corrected one share every stage. Groups are
    emitted in order of first appearance; MongoDB leaves that order open. */
module HabitSummary {
  import opened Common
  import opened HabitSchema
  import opened HabitLogSchema
  import opened HabitController

  const CompletedKey: string := "Completed"

  /** The missed key the source compares against. */
  const MissedKeyAsWritten: string := "missed"

  /** The missed key the status enum actually stores. */
  const MissedKeyStored: string := "Missed"

  /** A document after $unwind: its habit, and the status of its log, which
      is absent when the habit had no logs. */
  datatype Doc = Doc(habitId: Id, habitName: string, status: Option<string>)

  /** A document after the first $group. */
  datatype Group = Group(habitId: Id, habitName: string, status: Option<string>, count: nat)

  /** One entry of the reply. */
  datatype SummaryRow = SummaryRow(habitId: Id, habitName: string, doneCount: nat, missedCount: nat)

  // ---------------------------------------------------------------- stages

  /** $lookup: the logs whose `habit` is this habit's id, in storage order. */
  function LogsFor(logs: seq<HabitLog>, habitId: Id): seq<HabitLog> {
    if logs == [] then []
    else (if logs[0].habit == habitId then [logs[0]] else []) + LogsFor(logs[1..], habitId)
  }

  /** $unwind of a non-empty `logs` array. */
  function StatusDocs(h: Habit, ls: seq<HabitLog>): seq<Doc> {
    if ls == [] then []
    else [Doc(h.id, h.name, Some(ls[0].status))] + StatusDocs(h, ls[1..])
  }

  /** $unwind with `preserveNullAndEmptyArrays`: an empty array still gives
      one document. */
  function UnwindOne(h: Habit, ls: seq<HabitLog>): seq<Doc> {
    if ls == [] then [Doc(h.id, h.name, None)] else StatusDocs(h, ls)
  }

  /** $lookup then $unwind over the matched habits. */
  function LookupUnwind(hs: seq<Habit>, logs: seq<HabitLog>): seq<Doc> {
    if hs == [] then []
    else UnwindOne(hs[0], LogsFor(logs, hs[0].id)) + LookupUnwind(hs[1..], logs)
  }

  predicate SameKey(g: Group, d: Doc) {
    g.habitId == d.habitId && g.habitName == d.habitName && g.status == d.status
  }

  /** The first $group taking in one document. */
  function AddDoc(gs: seq<Group>, d: Doc): seq<Group> {
    if gs == [] then [Group(d.habitId, d.habitName, d.status, 1)]
    else if SameKey(gs[0], d) then [gs[0].(count := gs[0].count + 1)] + gs[1..]
    else [gs[0]] + AddDoc(gs[1..], d)
  }

  function GroupFrom(gs: seq<Group>, docs: seq<Doc>): seq<Group>
    decreases |docs|
  {
    if docs == [] then gs else GroupFrom(AddDoc(gs, docs[0]), docs[1..])
  }

  /** `$cond: [{ $eq: ['$_id.status', key] }, '$count', 0]`. */
  function Contribution(g: Group, key: string): nat {
    if g.status == Some(key) then g.count else 0
  }

  /** The second $group taking in one group. */
  function AddGroup(rows: seq<SummaryRow>, g: Group, missedKey: string): seq<SummaryRow> {
    if rows == [] then
      [SummaryRow(g.habitId, g.habitName, Contribution(g, CompletedKey), Contribution(g, missedKey))]
    else if rows[0].habitId == g.habitId then
      [rows[0].(doneCount := rows[0].doneCount + Contribution(g, CompletedKey),
                missedCount := rows[0].missedCount + Contribution(g, missedKey))] + rows[1..]
    else [rows[0]] + AddGroup(rows[1..], g, missedKey)
  }

  function RegroupFrom(rows: seq<SummaryRow>, gs: seq<Group>, missedKey: string): seq<SummaryRow>
    decreases |gs|
  {
    if gs == [] then rows else RegroupFrom(AddGroup(rows, gs[0], missedKey), gs[1..], missedKey)
  }

  /** The whole pipeline with a given missed key. */
  function SummaryPipeline(habits: seq<Habit>, logs: seq<HabitLog>, user: Id, missedKey: string): seq<SummaryRow> {
    RegroupFrom([], GroupFrom([], LookupUnwind(OwnedBy(habits, user), logs)), missedKey)
  }

  /** The summary as the source computes it. */
  function HabitLogSummary(habits: seq<Habit>, logs: seq<HabitLog>, user: Id): seq<SummaryRow> {
    SummaryPipeline(habits, logs, user, MissedKeyAsWritten)
  }

  /** The summary with the missed key spelled as the status enum stores it. */
  function CorrectedHabitLogSummary(habits: seq<Habit>, logs: seq<HabitLog>, user: Id): seq<SummaryRow> {
    SummaryPipeline(habits, logs, user, MissedKeyStored)
  }

  // --------------------------------------------------- reference definitions

  /** The number of logs of this habit with this status. */
  function CountStatus(logs: seq<HabitLog>, habitId: Id, status: string): nat {
    if logs == [] then 0
    else (if logs[0].habit == habitId && logs[0].status == status then 1 else 0)
         + CountStatus(logs[1..], habitId, status)
  }

  /** The number of logs of this habit. */
  function CountRefs(logs: seq<HabitLog>, habitId: Id): nat {
    if logs == [] then 0
    else (if logs[0].habit == habitId then 1 else 0) + CountRefs(logs[1..], habitId)
  }

  /** The entry the summary should hold for habit `h`. */
  function Expected(h: Habit, logs: seq<HabitLog>, missedKey: string): SummaryRow {
    SummaryRow(h.id, h.name, CountStatus(logs, h.id, CompletedKey), CountStatus(logs, h.id, missedKey))
  }

  // ------------------------------------------------------ stage observations

  function CountDocs(docs: seq<Doc>, x: Id, c: string): nat {
    if docs == [] then 0
    else (if docs[0].habitId == x && docs[0].status == Some(c) then 1 else 0) + CountDocs(docs[1..], x, c)
  }

  function FirstName(docs: seq<Doc>, x: Id): (r: Option<string>)
    ensures r.None? <==> forall d <- docs :: d.habitId != x
  {
    if docs == [] then None
    else if docs[0].habitId == x then Some(docs[0].habitName)
    else FirstName(docs[1..], x)
  }

  function SumIf(gs: seq<Group>, x: Id, c: string): nat {
    if gs == [] then 0
    else (if gs[0].habitId == x then Contribution(gs[0], c) else 0) + SumIf(gs[1..], x, c)
  }

  function GroupName(gs: seq<Group>, x: Id): Option<string> {
    if gs == [] then None
    else if gs[0].habitId == x then Some(gs[0].habitName)
    else GroupName(gs[1..], x)
  }

  /** The first entry for habit x. */
  function RowFor(rows: seq<SummaryRow>, x: Id): (r: Option<SummaryRow>)
    ensures r.Some? ==> r.value in rows && r.value.habitId == x
    ensures r.None? <==> forall row <- rows :: row.habitId != x
  {
    if rows == [] then None
    else if rows[0].habitId == x then Some(rows[0])
    else RowFor(rows[1..], x)
  }

  function Done(rows: seq<SummaryRow>, x: Id): nat {
    match RowFor(rows, x)
    case Some(r) => r.doneCount
    case None => 0
  }

  function Missed(rows: seq<SummaryRow>, x: Id): nat {
    match RowFor(rows, x)
    case Some(r) => r.missedCount
    case None => 0
  }

  function RowName(rows: seq<SummaryRow>, x: Id): Option<string> {
    match RowFor(rows, x)
    case Some(r) => Some(r.habitName)
    case None => None
  }

  ghost predicate DistinctRows(rows: seq<SummaryRow>) {
    forall i, j :: 0 <= i < j < |rows| ==> rows[i].habitId != rows[j].habitId
  }

  // ------------------------------------------------------- the first $group

  lemma {:induction false} AddDocSum(gs: seq<Group>, d: Doc, x: Id, c: string)
    ensures SumIf(AddDoc(gs, d), x, c)
            == SumIf(gs, x, c) + (if d.habitId == x && d.status == Some(c) then 1 else 0)
  {
    if gs != [] && !SameKey(gs[0], d) {
      AddDocSum(gs[1..], d, x, c);
    }
  }

  lemma {:induction false} AddDocName(gs: seq<Group>, d: Doc, x: Id)
    ensures GroupName(AddDoc(gs, d), x)
            == GroupName(gs, x).OrElse(if d.habitId == x then Some(d.habitName) else None)
  {
    if gs != [] && !SameKey(gs[0], d) {
      AddDocName(gs[1..], d, x);
    }
  }

  /** The first $group counts every document under its own key. */
  lemma {:induction false} GroupFromSum(gs: seq<Group>, docs: seq<Doc>, x: Id, c: string)
    ensures SumIf(GroupFrom(gs, docs), x, c) == SumIf(gs, x, c) + CountDocs(docs, x, c)
    decreases |docs|
  {
    if docs != [] {
      AddDocSum(gs, docs[0], x, c);
      GroupFromSum(AddDoc(gs, docs[0]), docs[1..], x, c);
    }
  }

  lemma {:induction false} GroupFromName(gs: seq<Group>, docs: seq<Doc>, x: Id)
    ensures GroupName(GroupFrom(gs, docs), x) == GroupName(gs, x).OrElse(FirstName(docs, x))
    decreases |docs|
  {
    if docs != [] {
      AddDocName(gs, docs[0], x);
      GroupFromName(AddDoc(gs, docs[0]), docs[1..], x);
    }
  }

  // ------------------------------------------------------ the second $group

  lemma {:induction false} AddGroupFacts(rows: seq<SummaryRow>, g: Group, missedKey: string, x: Id)
    ensures var rows' := AddGroup(rows, g, missedKey);
      && Done(rows', x) == Done(rows, x) + (if g.habitId == x then Contribution(g, CompletedKey) else 0)
      && Missed(rows', x) == Missed(rows, x) + (if g.habitId == x then Contribution(g, missedKey) else 0)
      && RowName(rows', x) == RowName(rows, x).OrElse(if g.habitId == x then Some(g.habitName) else None)
  {
    if rows != [] && rows[0].habitId != g.habitId {
      AddGroupFacts(rows[1..], g, missedKey, x);
    }
  }

  lemma {:induction false} AddGroupDistinct(rows: seq<SummaryRow>, g: Group, missedKey: string)
    requires DistinctRows(rows)
    ensures DistinctRows(AddGroup(rows, g, missedKey))
    ensures forall r <- AddGroup(rows, g, missedKey) :: r.habitId == g.habitId || exists q <- rows :: q.habitId == r.habitId
  {
    var rows' := AddGroup(rows, g, missedKey);
    if rows == [] {
    } else if rows[0].habitId == g.habitId {
      assert forall i :: 0 <= i < |rows'| ==> rows'[i].habitId == rows[i].habitId;
    } else {
      var tail := AddGroup(rows[1..], g, missedKey);
      assert DistinctRows(rows[1..]) by {
        forall i, j | 0 <= i < j < |rows[1..]| ensures rows[1..][i].habitId != rows[1..][j].habitId {
          assert rows[1..][i] == rows[i + 1] && rows[1..][j] == rows[j + 1];
        }
      }
      AddGroupDistinct(rows[1..], g, missedKey);
      assert rows' == [rows[0]] + tail;
      forall j | 0 <= j < |tail| ensures tail[j].habitId != rows[0].habitId {
        assert tail[j] in tail;
        if tail[j].habitId != g.habitId {
          var q :| q in rows[1..] && q.habitId == tail[j].habitId;
          var k :| 0 <= k < |rows[1..]| && rows[1..][k] == q;
          assert rows[k + 1] == q;
        }
      }
    }
  }

  lemma {:induction false} RegroupFromFacts(rows: seq<SummaryRow>, gs: seq<Group>, missedKey: string, x: Id)
    ensures var rows' := RegroupFrom(rows, gs, missedKey);
      && Done(rows', x) == Done(rows, x) + SumIf(gs, x, CompletedKey)
      && Missed(rows', x) == Missed(rows, x) + SumIf(gs, x, missedKey)
      && RowName(rows', x) == RowName(rows, x).OrElse(GroupName(gs, x))
    decreases |gs|
  {
    if gs != [] {
      AddGroupFacts(rows, gs[0], missedKey, x);
      RegroupFromFacts(AddGroup(rows, gs[0], missedKey), gs[1..], missedKey, x);
    }
  }

  lemma {:induction false} RegroupFromDistinct(rows: seq<SummaryRow>, gs: seq<Group>, missedKey: string)
    requires DistinctRows(rows)
    ensures DistinctRows(RegroupFrom(rows, gs, missedKey))
    decreases |gs|
  {
    if gs != [] {
      AddGroupDistinct(rows, gs[0], missedKey);
      RegroupFromDistinct(AddGroup(rows, gs[0], missedKey), gs[1..], missedKey);
    }
  }

  // ------------------------------------------------- $lookup and $unwind

  lemma {:induction false} CountDocsAppend(a: seq<Doc>, b: seq<Doc>, x: Id, c: string)
    ensures CountDocs(a + b, x, c) == CountDocs(a, x, c) + CountDocs(b, x, c)
  {
    if a != [] {
      assert (a + b)[0] == a[0] && (a + b)[1..] == a[1..] + b;
      CountDocsAppend(a[1..], b, x, c);
    } else {
      assert a + b == b;
    }
  }

  lemma {:induction false} FirstNameAppend(a: seq<Doc>, b: seq<Doc>, x: Id)
    ensures FirstName(a + b, x) == FirstName(a, x).OrElse(FirstName(b, x))
  {
    if a != [] {
      assert (a + b)[0] == a[0] && (a + b)[1..] == a[1..] + b;
      FirstNameAppend(a[1..], b, x);
    } else {
      assert a + b == b;
    }
  }

  lemma {:induction false} StatusDocsCount(h: Habit, logs: seq<HabitLog>, x: Id, c: string)
    ensures CountDocs(StatusDocs(h, LogsFor(logs, h.id)), x, c)
            == if h.id == x then CountStatus(logs, x, c) else 0
  {
    if logs != [] {
      StatusDocsCount(h, logs[1..], x, c);
      if logs[0].habit == h.id {
        var ls := LogsFor(logs, h.id);
        assert ls == [logs[0]] + LogsFor(logs[1..], h.id);
        assert ls[0] == logs[0] && ls[1..] == LogsFor(logs[1..], h.id);
        var ds := StatusDocs(h, ls);
        assert ds == [Doc(h.id, h.name, Some(logs[0].status))] + StatusDocs(h, ls[1..]);
        assert ds[1..] == StatusDocs(h, LogsFor(logs[1..], h.id));
      } else {
        assert LogsFor(logs, h.id) == LogsFor(logs[1..], h.id);
      }
    }
  }

  lemma UnwindOneCount(h: Habit, logs: seq<HabitLog>, x: Id, c: string)
    ensures CountDocs(UnwindOne(h, LogsFor(logs, h.id)), x, c)
            == if h.id == x then CountStatus(logs, x, c) else 0
  {
    StatusDocsCount(h, logs, x, c);
  }

  lemma {:induction false} StatusDocsName(h: Habit, ls: seq<HabitLog>, x: Id)
    requires ls != []
    ensures FirstName(StatusDocs(h, ls), x) == if h.id == x then Some(h.name) else None
  {
    if ls[1..] != [] {
      StatusDocsName(h, ls[1..], x);
    }
  }

  lemma UnwindOneName(h: Habit, ls: seq<HabitLog>, x: Id)
    ensures FirstName(UnwindOne(h, ls), x) == if h.id == x then Some(h.name) else None
  {
    if ls != [] {
      StatusDocsName(h, ls, x);
    }
  }

  lemma UniqueTail(hs: seq<Habit>)
    requires hs != [] && UniqueIds(hs)
    ensures UniqueIds(hs[1..])
    ensures forall g <- hs[1..] :: g.id != hs[0].id
  {
    forall g | g in hs[1..] ensures g.id != hs[0].id {
      var j :| 0 <= j < |hs[1..]| && hs[1..][j] == g;
      assert hs[j + 1] == g;
    }
  }

  /** Every matched habit contributes its own logs' statuses. */
  lemma {:induction false} LookupUnwindCount(hs: seq<Habit>, logs: seq<HabitLog>, x: Id, c: string)
    requires UniqueIds(hs)
    ensures CountDocs(LookupUnwind(hs, logs), x, c)
            == if LookupId(hs, x).Some? then CountStatus(logs, x, c) else 0
  {
    if hs != [] {
      UniqueTail(hs);
      LookupUnwindCount(hs[1..], logs, x, c);
      CountDocsAppend(UnwindOne(hs[0], LogsFor(logs, hs[0].id)), LookupUnwind(hs[1..], logs), x, c);
      UnwindOneCount(hs[0], logs, x, c);
      if hs[0].id == x {
        assert LookupId(hs[1..], x).None?;
      }
    }
  }

  /** The first document of a habit id carries that habit's name. */
  lemma {:induction false} LookupUnwindName(hs: seq<Habit>, logs: seq<HabitLog>, x: Id)
    ensures FirstName(LookupUnwind(hs, logs), x)
            == match LookupId(hs, x) case Some(h) => Some(h.name) case None => None
  {
    if hs != [] {
      LookupUnwindName(hs[1..], logs, x);
      FirstNameAppend(UnwindOne(hs[0], LogsFor(logs, hs[0].id)), LookupUnwind(hs[1..], logs), x);
      UnwindOneName(hs[0], LogsFor(logs, hs[0].id), x);
    }
  }

  lemma {:induction false} OwnedByUnique(hs: seq<Habit>, owner: Id)
    requires UniqueIds(hs)
    ensures UniqueIds(OwnedBy(hs, owner))
  {
    if hs != [] {
      UniqueTail(hs);
      OwnedByUnique(hs[1..], owner);
      OwnedByMeaning(hs[1..], owner);
      var tail := OwnedBy(hs[1..], owner);
      if hs[0].owner == owner {
        var r := [hs[0]] + tail;
        forall i, j | 0 <= i < j < |r| ensures r[i].id != r[j].id {
          if i == 0 {
            assert r[j] == tail[j - 1] && tail[j - 1] in tail;
          } else {
            assert r[i] == tail[i - 1] && r[j] == tail[j - 1];
          }
        }
      } else {
        assert OwnedBy(hs, owner) == tail;
      }
    }
  }

  lemma SameIdSameHabit(hs: seq<Habit>, a: Habit, b: Habit)
    requires UniqueIds(hs) && a in hs && b in hs && a.id == b.id
    ensures a == b
  {
    var i :| 0 <= i < |hs| && hs[i] == a;
    var j :| 0 <= j < |hs| && hs[j] == b;
    assert !(i < j) && !(j < i);
  }

  // ---------------------------------------------------------- the result

  /** What every row for a habit id x is, stage by stage. */
  lemma PipelineAt(habits: seq<Habit>, logs: seq<HabitLog>, user: Id, missedKey: string, x: Id)
    requires UniqueIds(habits)
    ensures var rows := SummaryPipeline(habits, logs, user, missedKey);
      var owned := OwnedBy(habits, user);
      && RowName(rows, x) == (match LookupId(owned, x) case Some(h) => Some(h.name) case None => None)
      && (LookupId(owned, x).Some? ==>
            Done(rows, x) == CountStatus(logs, x, CompletedKey)
            && Missed(rows, x) == CountStatus(logs, x, missedKey))
  {
    var owned := OwnedBy(habits, user);
    OwnedByUnique(habits, user);
    var docs := LookupUnwind(owned, logs);
    var gs := GroupFrom([], docs);
    GroupFromSum([], docs, x, CompletedKey);
    GroupFromSum([], docs, x, missedKey);
    GroupFromName([], docs, x);
    RegroupFromFacts([], gs, missedKey, x);
    LookupUnwindCount(owned, logs, x, CompletedKey);
    LookupUnwindCount(owned, logs, x, missedKey);
    LookupUnwindName(owned, logs, x);
  }

  lemma RowForDistinct(rows: seq<SummaryRow>, r: SummaryRow)
    requires DistinctRows(rows) && r in rows
    ensures RowFor(rows, r.habitId) == Some(r)
  {
    var q := RowFor(rows, r.habitId).value;
    var i :| 0 <= i < |rows| && rows[i] == r;
    var j :| 0 <= j < |rows| && rows[j] == q;
    assert !(i < j) && !(j < i);
  }

  /** The summary holds exactly one entry per habit the caller owns, with
      that habit's name, the number of its logs whose status is "Completed"
      and the number whose status equals the missed key, whoever the logs'
      own users are. */
  lemma SummaryMeaning(habits: seq<Habit>, logs: seq<HabitLog>, user: Id, missedKey: string)
    requires UniqueIds(habits)
    ensures var rows := SummaryPipeline(habits, logs, user, missedKey);
      && DistinctRows(rows)
      && (forall r <- rows :: exists h <- habits :: h.owner == user && r == Expected(h, logs, missedKey))
      && (forall h <- habits :: h.owner == user ==> Expected(h, logs, missedKey) in rows)
  {
    var rows := SummaryPipeline(habits, logs, user, missedKey);
    var owned := OwnedBy(habits, user);
    OwnedByMeaning(habits, user);
    RegroupFromDistinct([], GroupFrom([], LookupUnwind(owned, logs)), missedKey);
    forall r | r in rows
      ensures exists h <- habits :: h.owner == user && r == Expected(h, logs, missedKey)
    {
      RowForDistinct(rows, r);
      PipelineAt(habits, logs, user, missedKey, r.habitId);
      var h := LookupId(owned, r.habitId).value;
      assert h in habits && h.owner == user;
      assert r == Expected(h, logs, missedKey);
    }
    forall h | h in habits && h.owner == user
      ensures Expected(h, logs, missedKey) in rows
    {
      PipelineAt(habits, logs, user, missedKey, h.id);
      var h' := LookupId(owned, h.id).value;
      SameIdSameHabit(habits, h, h');
      var r := RowFor(rows, h.id).value;
      assert r == Expected(h, logs, missedKey);
    }
  }

  // -------------------------------------------------------- consequences

  lemma {:induction false} NoRefsNoCount(logs: seq<HabitLog>, x: Id, c: string)
    requires forall l <- logs :: l.habit != x
    ensures CountStatus(logs, x, c) == 0
  {
    if logs != [] {
      NoRefsNoCount(logs[1..], x, c);
    }
  }

  /** A habit no log refers to is listed with zero done and zero missed. */
  lemma HabitWithoutLogs(habits: seq<Habit>, logs: seq<HabitLog>, user: Id, missedKey: string, h: Habit)
    requires UniqueIds(habits) && h in habits && h.owner == user
    requires forall l <- logs :: l.habit != h.id
    ensures SummaryRow(h.id, h.name, 0, 0) in SummaryPipeline(habits, logs, user, missedKey)
  {
    SummaryMeaning(habits, logs, user, missedKey);
    NoRefsNoCount(logs, h.id, CompletedKey);
    NoRefsNoCount(logs, h.id, missedKey);
  }

  lemma {:induction false} NoStoredStatusIsLowercase(logs: seq<HabitLog>, x: Id)
    requires forall l <- logs :: ValidLog(l)
    ensures CountStatus(logs, x, MissedKeyAsWritten) == 0
  {
    if logs != [] {
      assert logs[0] in logs && ValidLog(logs[0]);
      assert logs[0].status == "Completed" || logs[0].status == "Missed";
      assert "Completed"[0] != MissedKeyAsWritten[0] && "Missed"[0] != MissedKeyAsWritten[0];
      NoStoredStatusIsLowercase(logs[1..], x);
    }
  }

  /** As written, the missed count is zero for every habit: no stored status
      is the lowercase "missed". */
  lemma MissedCountAlwaysZero(habits: seq<Habit>, logs: seq<HabitLog>, user: Id)
    requires UniqueIds(habits)
    requires forall l <- logs :: ValidLog(l)
    ensures forall r <- HabitLogSummary(habits, logs, user) :: r.missedCount == 0
  {
    SummaryMeaning(habits, logs, user, MissedKeyAsWritten);
    forall r | r in HabitLogSummary(habits, logs, user) ensures r.missedCount == 0 {
      NoStoredStatusIsLowercase(logs, r.habitId);
    }
  }

  lemma {:induction false} ValidStatusesSplit(logs: seq<HabitLog>, x: Id)
    requires forall l <- logs :: ValidLog(l)
    ensures CountStatus(logs, x, CompletedKey) + CountStatus(logs, x, MissedKeyStored) == CountRefs(logs, x)
  {
    if logs != [] {
      assert logs[0] in logs && ValidLog(logs[0]);
      assert logs[0].status == "Completed" || logs[0].status == "Missed";
      assert CompletedKey[0] != MissedKeyStored[0];
      ValidStatusesSplit(logs[1..], x);
    }
  }

  /** With the stored spelling, every log of a habit is counted once: as done
      or as missed. */
  lemma CorrectedCountsEveryLog(habits: seq<Habit>, logs: seq<HabitLog>, user: Id)
    requires UniqueIds(habits)
    requires forall l <- logs :: ValidLog(l)
    ensures forall r <- CorrectedHabitLogSummary(habits, logs, user) ::
      r.doneCount + r.missedCount == CountRefs(logs, r.habitId)
  {
    SummaryMeaning(habits, logs, user, MissedKeyStored);
    forall r | r in CorrectedHabitLogSummary(habits, logs, user)
      ensures r.doneCount + r.missedCount == CountRefs(logs, r.habitId)
    {
      ValidStatusesSplit(logs, r.habitId);
    }
  }

  lemma {:induction false} CountStatusAppend(logs: seq<HabitLog>, l: HabitLog, x: Id, c: string)
    ensures CountStatus(logs + [l], x, c)
            == CountStatus(logs, x, c) + (if l.habit == x && l.status == c then 1 else 0)
  {
    if logs == [] {
      assert logs + [l] == [l] && [l][1..] == [];
    } else {
      assert (logs + [l])[0] == logs[0] && (logs + [l])[1..] == logs[1..] + [l];
      CountStatusAppend(logs[1..], l, x, c);
    }
  }

  /** A newly stored log moves its own habit's entry by one: the done count
      when its status is "Completed", the missed count when its status is the
      missed key; every other habit's entry stays as it was. */
  lemma NewLogEntry(habits: seq<Habit>, logs: seq<HabitLog>, user: Id, missedKey: string,
                    h: Habit, l: HabitLog)
    requires UniqueIds(habits) && h in habits && h.owner == user
    ensures var before := Expected(h, logs, missedKey);
      var after := Expected(h, logs + [l], missedKey);
      && after in SummaryPipeline(habits, logs + [l], user, missedKey)
      && after.doneCount == before.doneCount + (if l.habit == h.id && l.status == CompletedKey then 1 else 0)
      && after.missedCount == before.missedCount + (if l.habit == h.id && l.status == missedKey then 1 else 0)
      && (l.habit != h.id ==> after == before)
  {
    SummaryMeaning(habits, logs + [l], user, missedKey);
    CountStatusAppend(logs, l, h.id, CompletedKey);
    CountStatusAppend(logs, l, h.id, missedKey);
  }

  /** One habit with two "Completed" logs and one "Missed" log: the source
      reports a missed count of 0, the corrected pipeline 1. */
  lemma MissedLogIsLost()
    ensures var h := Habit(1, 7, "Read Book", None, "Daily", 0);
      var logs := [HabitLog(10, 7, 1, 0, "Completed"), HabitLog(11, 7, 1, 0, "Completed"),
                   HabitLog(12, 7, 1, 0, "Missed")];
      && SummaryRow(1, "Read Book", 2, 0) in HabitLogSummary([h], logs, 7)
      && SummaryRow(1, "Read Book", 2, 1) in CorrectedHabitLogSummary([h], logs, 7)
  {
    var h := Habit(1, 7, "Read Book", None, "Daily", 0);
    var logs := [HabitLog(10, 7, 1, 0, "Completed"), HabitLog(11, 7, 1, 0, "Completed"),
                 HabitLog(12, 7, 1, 0, "Missed")];
    SummaryMeaning([h], logs, 7, MissedKeyAsWritten);
    SummaryMeaning([h], logs, 7, MissedKeyStored);
    assert CountStatus(logs, 1, CompletedKey) == 2;
    assert CountStatus(logs, 1, MissedKeyAsWritten) == 0;
    assert CountStatus(logs, 1, MissedKeyStored) == 1;
  }
}
