/** Attendance (attendance/views.py, attendance/models.py): one student record per
 *  (student, date) and one teacher record per (teacher, date); taking attendance for a
 *  classroom, editing it, taking teacher attendance, and the two per-date summaries. */
module Attendance {
  import opened Common

  /** (student or teacher id, date): the `unique_together` key of both tables. */
  type Key = (nat, int)

  datatype StudentRecord = StudentRecord(student: nat, classroom: nat, date: int, status: string, notes: string)
  datatype TeacherRecord = TeacherRecord(teacher: nat, date: int, status: string, sessions: nat, notes: string)

  function StudentKey(r: StudentRecord): Key { (r.student, r.date) }
  function TeacherKey(r: TeacherRecord): Key { (r.teacher, r.date) }

  const Present: string := "present"
  const Absent: string := "absent"

  /** `request.POST.get(f'…_{id}', default)` */
  function Submitted<V>(values: map<nat, V>, id: nat, default: V): (v: V)
    ensures id !in values ==> v == default
    ensures id in values ==> v == values[id]
  {
    if id in values then values[id] else default
  }

  // ---------------------------------------------------------------- tables

  /** The position of the record with key `k`, if any (the ORM lookup on the unique key). */
  function FindKey<R>(rs: seq<R>, key: R -> Key, k: Key): (r: Option<nat>)
    ensures r.Some? ==> r.value < |rs| && key(rs[r.value]) == k
    ensures r.None? ==> forall x :: 0 <= x < |rs| ==> key(rs[x]) != k
  {
    if rs == [] then None
    else if key(rs[|rs| - 1]) == k then Some(|rs| - 1)
    else FindKey(rs[..|rs| - 1], key, k)
  }

  /** The `unique_together` constraint. */
  predicate KeysUnique<R>(rs: seq<R>, key: R -> Key)
  {
    forall x, y :: 0 <= x < y < |rs| ==> key(rs[x]) != key(rs[y])
  }

  /** `objects.create(…)` when the key is free; when it is taken the unique constraint refuses
   *  the row and the table stays as it was. */
  function Insert<R>(rs: seq<R>, key: R -> Key, rec: R): (r: seq<R>)
    ensures FindKey(rs, key, key(rec)).Some? ==> r == rs
    ensures FindKey(rs, key, key(rec)).None? ==> r == rs + [rec]
    ensures KeysUnique(rs, key) ==> KeysUnique(r, key)
  {
    if FindKey(rs, key, key(rec)).Some? then rs else rs + [rec]
  }

  /** `update_or_create` (and `get_or_create` followed by an update) on the record's key: the
   *  record with that key is replaced, or the record is appended when there is none. */
  function Upsert<R>(rs: seq<R>, key: R -> Key, rec: R): (r: seq<R>)
    ensures |r| == |rs| || r == rs + [rec]
    ensures forall x :: 0 <= x < |rs| && key(rs[x]) != key(rec) ==> r[x] == rs[x]
    ensures FindKey(rs, key, key(rec)).Some? ==> r[FindKey(rs, key, key(rec)).value] == rec
    ensures KeysUnique(rs, key) ==> KeysUnique(r, key)
  {
    match FindKey(rs, key, key(rec))
    case Some(i) => rs[i := rec]
    case None => rs + [rec]
  }

  /** The table after inserting `recs` one after the other, skipping refused ones. */
  function InsertAll<R>(rs: seq<R>, key: R -> Key, recs: seq<R>): (r: seq<R>)
    ensures rs <= r && |r| <= |rs| + |recs|
    ensures KeysUnique(rs, key) ==> KeysUnique(r, key)
    ensures forall x :: |rs| <= x < |r| ==> r[x] in recs
  {
    if recs == [] then rs
    else
      var prev := InsertAll(rs, key, recs[..|recs| - 1]);
      Insert(prev, key, recs[|recs| - 1])
  }

  /** One more insert extends the table after the first `n` inserts. */
  lemma InsertAllStep<R>(rs: seq<R>, key: R -> Key, recs: seq<R>, n: nat)
    requires n < |recs|
    ensures InsertAll(rs, key, recs[..n + 1]) == Insert(InsertAll(rs, key, recs[..n]), key, recs[n])
  {
    assert recs[..n + 1][..n] == recs[..n] && recs[..n + 1][n] == recs[n];
  }

  /** Inserts `recs` one after the other, counting the ones the unique constraint lets through. */
  method InsertEach<R>(rs: seq<R>, key: R -> Key, recs: seq<R>) returns (out: seq<R>, created: nat)
    ensures out == InsertAll(rs, key, recs)
    ensures created == |out| - |rs|
  {
    out, created := rs, 0;
    var k := 0;
    while k < |recs|
      invariant 0 <= k <= |recs|
      invariant out == InsertAll(rs, key, recs[..k])
      invariant created == |out| - |rs|
    {
      InsertAllStep(rs, key, recs, k);
      var before := |out|;
      out := Insert(out, key, recs[k]);
      if |out| > before {
        created := created + 1;
      }
      k := k + 1;
    }
    assert recs[..k] == recs;
  }

  /** After the inserts, every listed record's key is present (its own row or an older one). */
  lemma {:induction false} InsertAllCovers<R>(rs: seq<R>, key: R -> Key, recs: seq<R>, x: nat)
    requires x < |recs|
    ensures FindKey(InsertAll(rs, key, recs), key, key(recs[x])).Some?
  {
    var n := |recs| - 1;
    var prev := InsertAll(rs, key, recs[..n]);
    var after := InsertAll(rs, key, recs);
    assert after == Insert(prev, key, recs[n]);
    if x < n {
      assert recs[..n][x] == recs[x];
      InsertAllCovers(rs, key, recs[..n], x);
      var i := FindKey(prev, key, key(recs[x])).value;
      assert after[i] == prev[i];
    } else if FindKey(prev, key, key(recs[x])).None? {
      assert after[|prev|] == recs[x];
    }
  }

  /** When no listed key is taken and the listed keys are distinct, every record is created. */
  lemma {:induction false} InsertAllFresh<R>(rs: seq<R>, key: R -> Key, recs: seq<R>)
    requires KeysUnique(recs, key)
    requires forall x, y :: 0 <= x < |rs| && 0 <= y < |recs| ==> key(rs[x]) != key(recs[y])
    ensures InsertAll(rs, key, recs) == rs + recs
  {
    if recs != [] {
      var n := |recs| - 1;
      InsertAllFresh(rs, key, recs[..n]);
      var prev := rs + recs[..n];
      forall x | 0 <= x < |prev|
        ensures key(prev[x]) != key(recs[n])
      {
        if x >= |rs| {
          assert prev[x] == recs[x - |rs|];
        }
      }
      assert prev + [recs[n]] == rs + recs;
    }
  }

  /** The table after `update_or_create` for each of `recs`, in order. */
  function UpsertAll<R>(rs: seq<R>, key: R -> Key, recs: seq<R>): (r: seq<R>)
    ensures |rs| <= |r| <= |rs| + |recs|
    ensures KeysUnique(rs, key) ==> KeysUnique(r, key)
  {
    if recs == [] then rs
    else Upsert(UpsertAll(rs, key, recs[..|recs| - 1]), key, recs[|recs| - 1])
  }

  /** One more upsert extends the table after the first `n` upserts. */
  lemma UpsertAllStep<R>(rs: seq<R>, key: R -> Key, recs: seq<R>, n: nat)
    requires n < |recs|
    ensures UpsertAll(rs, key, recs[..n + 1]) == Upsert(UpsertAll(rs, key, recs[..n]), key, recs[n])
  {
    assert recs[..n + 1][..n] == recs[..n] && recs[..n + 1][n] == recs[n];
  }

  /** Upserts `recs` one after the other, counting every one of them. */
  method UpsertEach<R>(rs: seq<R>, key: R -> Key, recs: seq<R>) returns (out: seq<R>, count: nat)
    ensures out == UpsertAll(rs, key, recs)
    ensures count == |recs|
  {
    out, count := rs, 0;
    while count < |recs|
      invariant count <= |recs|
      invariant out == UpsertAll(rs, key, recs[..count])
    {
      UpsertAllStep(rs, key, recs, count);
      out := Upsert(out, key, recs[count]);
      count := count + 1;
    }
    assert recs[..count] == recs;
  }

  /** Upserting `rec` keeps every record with another key, and holds `rec` itself; `i` is
   *  where the wanted record is. */
  lemma UpsertKeeps<R>(prev: seq<R>, key: R -> Key, rec: R, target: R) returns (i: nat)
    requires target == rec || (key(target) != key(rec) && exists i :: 0 <= i < |prev| && prev[i] == target)
    ensures i < |Upsert(prev, key, rec)| && Upsert(prev, key, rec)[i] == target
  {
    var r := Upsert(prev, key, rec);
    if target == rec {
      match FindKey(prev, key, key(rec))
      case Some(k) => i := k;
      case None => i := |prev|;
    } else {
      i :| 0 <= i < |prev| && prev[i] == target;
      assert r[i] == prev[i];
    }
  }

  /** No later record in `recs` overwrites `recs[x]` with other values. */
  predicate LastWord<R(==)>(recs: seq<R>, key: R -> Key, x: nat)
    requires x < |recs|
  {
    forall y :: x < y < |recs| && key(recs[y]) == key(recs[x]) ==> recs[y] == recs[x]
  }

  /** After the upserts the table holds `recs[x]`, unless a later record with its key
   *  replaced it by something else. */
  lemma {:induction false} UpsertAllHolds<R>(rs: seq<R>, key: R -> Key, recs: seq<R>, x: nat)
    requires x < |recs| && LastWord(recs, key, x)
    ensures exists i :: 0 <= i < |UpsertAll(rs, key, recs)| && UpsertAll(rs, key, recs)[i] == recs[x]
  {
    var n := |recs| - 1;
    var prev := UpsertAll(rs, key, recs[..n]);
    assert UpsertAll(rs, key, recs) == Upsert(prev, key, recs[n]);
    if x < n && recs[x] != recs[n] {
      assert recs[..n][x] == recs[x];
      assert LastWord(recs[..n], key, x) by {
        forall y | x < y < n && key(recs[..n][y]) == key(recs[..n][x])
          ensures recs[..n][y] == recs[..n][x]
        {
          assert recs[..n][y] == recs[y];
        }
      }
      UpsertAllHolds(rs, key, recs[..n], x);
    }
    var i := UpsertKeeps(prev, key, recs[n], recs[x]);
    assert UpsertAll(rs, key, recs)[i] == recs[x];
  }

  /** The upserts leave every record whose key is not listed as it was. */
  lemma {:induction false} UpsertAllKeepsOthers<R>(rs: seq<R>, key: R -> Key, recs: seq<R>, x: nat)
    requires x < |rs| && forall y :: 0 <= y < |recs| ==> key(recs[y]) != key(rs[x])
    ensures x < |UpsertAll(rs, key, recs)| && UpsertAll(rs, key, recs)[x] == rs[x]
  {
    if recs != [] {
      var n := |recs| - 1;
      assert key(recs[n]) != key(rs[x]);
      UpsertAllKeepsOthers(rs, key, recs[..n], x);
    }
  }

  // ---------------------------------------------------------------- student attendance

  /** The record of student `s` that the views store: the submitted status, 'present' when
   *  none was submitted, and the submitted notes. */
  function NewStudentRecord(classroom: nat, date: int, s: nat, statuses: map<nat, string>, notes: map<nat, string>): (r: StudentRecord)
    ensures StudentKey(r) == (s, date) && r.classroom == classroom
    ensures r.status == (if s in statuses then statuses[s] else Present)
  {
    StudentRecord(s, classroom, date, Submitted(statuses, s, Present), Submitted(notes, s, ""))
  }

  /** The records the views build for `students`, in order. */
  function StudentRecords(classroom: nat, date: int, students: seq<nat>, statuses: map<nat, string>, notes: map<nat, string>): (r: seq<StudentRecord>)
    ensures |r| == |students|
    ensures forall x :: 0 <= x < |r| ==> r[x] == NewStudentRecord(classroom, date, students[x], statuses, notes)
  {
    seq(|students|, x requires 0 <= x < |students| => NewStudentRecord(classroom, date, students[x], statuses, notes))
  }

  /** A student listed twice gets the same record twice, so no record of the list overwrites
   *  another with different values. */
  lemma StudentRecordsLastWord(classroom: nat, date: int, students: seq<nat>, statuses: map<nat, string>, notes: map<nat, string>, x: nat)
    requires x < |students|
    ensures LastWord(StudentRecords(classroom, date, students, statuses, notes), StudentKey, x)
  {
  }

  /** Whether attendance was already taken for `classroom` on `date`. */
  predicate TakenFor(rs: seq<StudentRecord>, classroom: nat, date: int)
  {
    exists x :: 0 <= x < |rs| && rs[x].classroom == classroom && rs[x].date == date
  }

  /** One row of the attendance list: a (classroom, date) and how many records it has. */
  datatype ClassDay = ClassDay(classroom: nat, date: int, studentCount: nat)

  function ClassDayKey(r: StudentRecord): (nat, int) { (r.classroom, r.date) }

  /** The distinct keys of `rs`, in the order they first occur (the keys of the Python `summary` dict). */
  function DistinctBy<R, K(==,!new)>(rs: seq<R>, key: R -> K): (ks: seq<K>)
    ensures forall i, j :: 0 <= i < j < |ks| ==> ks[i] != ks[j]
    ensures forall k :: k in ks <==> exists x :: 0 <= x < |rs| && key(rs[x]) == k
  {
    if rs == [] then []
    else
      var init := DistinctBy(rs[..|rs| - 1], key);
      var k := key(rs[|rs| - 1]);
      assert forall x :: 0 <= x < |rs| - 1 ==> rs[..|rs| - 1][x] == rs[x];
      if k in init then init else init + [k]
  }

  /** `Attendance.objects.filter(classroom=…, date=…).count()` */
  function CountClassDay(rs: seq<StudentRecord>, classroom: nat, date: int): (n: nat)
    ensures n <= |rs|
    ensures n == 0 <==> !TakenFor(rs, classroom, date)
  {
    if rs == [] then 0
    else
      var r := rs[|rs| - 1];
      assert forall x :: 0 <= x < |rs| - 1 ==> rs[..|rs| - 1][x] == rs[x];
      CountClassDay(rs[..|rs| - 1], classroom, date) + (if r.classroom == classroom && r.date == date then 1 else 0)
  }

  /** The attendance list's `summary`: one row per (classroom, date) present in `rs`, in the
   *  order first met, with the number of records for it. */
  method ClassDaySummary(rs: seq<StudentRecord>) returns (summary: seq<ClassDay>)
    ensures |summary| == |DistinctBy(rs, ClassDayKey)|
    ensures forall k :: 0 <= k < |summary| ==>
      var key := DistinctBy(rs, ClassDayKey)[k];
      summary[k] == ClassDay(key.0, key.1, CountClassDay(rs, key.0, key.1))
  {
    summary := [];
    var keys: seq<(nat, int)> := [];
    var i := 0;
    while i < |rs|
      invariant 0 <= i <= |rs| && keys == DistinctBy(rs[..i], ClassDayKey) && |summary| == |keys|
      invariant forall k :: 0 <= k < |summary| ==>
        summary[k] == ClassDay(keys[k].0, keys[k].1, CountClassDay(rs, keys[k].0, keys[k].1))
    {
      var r := rs[i];
      assert rs[..i + 1][..i] == rs[..i] && rs[..i + 1][i] == r;
      var key := ClassDayKey(r);
      if key !in keys {
        summary := summary + [ClassDay(r.classroom, r.date, CountClassDay(rs, r.classroom, r.date))];
        keys := keys + [key];
      }
      i := i + 1;
    }
    assert rs[..i] == rs;
  }

  // ---------------------------------------------------------------- teacher attendance

  /** The record of teacher `t` that `TakeTeacherAttendanceView` stores: the submitted status,
   *  'absent' by default, the submitted number of sessions, 1 by default, and the notes. */
  function NewTeacherRecord(date: int, t: nat, statuses: map<nat, string>, sessions: map<nat, nat>, notes: map<nat, string>): (r: TeacherRecord)
    ensures TeacherKey(r) == (t, date)
    ensures r.status == (if t in statuses then statuses[t] else Absent)
    ensures r.sessions == (if t in sessions then sessions[t] else 1)
  {
    TeacherRecord(t, date, Submitted(statuses, t, Absent), Submitted(sessions, t, 1), Submitted(notes, t, ""))
  }

  function TeacherRecords(date: int, teachers: seq<nat>, statuses: map<nat, string>, sessions: map<nat, nat>, notes: map<nat, string>): (r: seq<TeacherRecord>)
    ensures |r| == |teachers|
    ensures forall x :: 0 <= x < |r| ==> r[x] == NewTeacherRecord(date, teachers[x], statuses, sessions, notes)
  {
    seq(|teachers|, x requires 0 <= x < |teachers| => NewTeacherRecord(date, teachers[x], statuses, sessions, notes))
  }

  lemma TeacherRecordsLastWord(date: int, teachers: seq<nat>, statuses: map<nat, string>, sessions: map<nat, nat>, notes: map<nat, string>, x: nat)
    requires x < |teachers|
    ensures LastWord(TeacherRecords(date, teachers, statuses, sessions, notes), TeacherKey, x)
  {
  }

  /** One row of the teacher summary. */
  datatype DaySummary = DaySummary(date: int, presentCount: nat, absentCount: nat, totalSessions: nat)

  function TeacherDate(r: TeacherRecord): int { r.date }

  /** The records of `rs` on `date`. */
  function OnDate(rs: seq<TeacherRecord>, date: int): nat
  {
    if rs == [] then 0
    else OnDate(rs[..|rs| - 1], date) + (if rs[|rs| - 1].date == date then 1 else 0)
  }

  /** The records of `rs` on `date` with `status`. */
  function CountStatus(rs: seq<TeacherRecord>, date: int, status: string): nat
  {
    if rs == [] then 0
    else
      var r := rs[|rs| - 1];
      CountStatus(rs[..|rs| - 1], date, status) + (if r.date == date && r.status == status then 1 else 0)
  }

  /** The sessions of the records of `rs` present on `date`. */
  function PresentSessions(rs: seq<TeacherRecord>, date: int): nat
  {
    if rs == [] then 0
    else
      var r := rs[|rs| - 1];
      PresentSessions(rs[..|rs| - 1], date) + (if r.date == date && r.status == Present then r.sessions else 0)
  }

  /** The row the summary should hold for `date`. */
  function SummaryOf(rs: seq<TeacherRecord>, date: int): DaySummary
  {
    DaySummary(date, CountStatus(rs, date, Present), CountStatus(rs, date, Absent), PresentSessions(rs, date))
  }

  /** Only present and absent records are counted, so the two counts never exceed the records
   *  of the day; late and permission records are the difference. */
  lemma {:induction false} CountsBounded(rs: seq<TeacherRecord>, date: int)
    ensures CountStatus(rs, date, Present) + CountStatus(rs, date, Absent) <= OnDate(rs, date)
  {
    if rs != [] {
      CountsBounded(rs[..|rs| - 1], date);
    }
  }

  /** A date with no record has an empty row. */
  lemma {:induction false} SummaryOfAbsentDate(rs: seq<TeacherRecord>, date: int)
    requires forall x :: 0 <= x < |rs| ==> rs[x].date != date
    ensures SummaryOf(rs, date) == DaySummary(date, 0, 0, 0)
  {
    if rs != [] {
      SummaryOfAbsentDate(rs[..|rs| - 1], date);
    }
  }

  /** The loop body of the summary: a present record adds one and its sessions, an absent
   *  record adds one to the absences, any other status adds nothing. */
  function Tally(s: DaySummary, r: TeacherRecord): (t: DaySummary)
    ensures t.date == s.date && t.presentCount >= s.presentCount && t.absentCount >= s.absentCount
    ensures t.presentCount + t.absentCount <= s.presentCount + s.absentCount + 1
  {
    if r.status == Present then s.(presentCount := s.presentCount + 1, totalSessions := s.totalSessions + r.sessions)
    else if r.status == Absent then s.(absentCount := s.absentCount + 1)
    else s
  }

  /** One more record tallies into its own date's row and leaves the other rows alone. */
  lemma SummaryOfSnoc(rs: seq<TeacherRecord>, r: TeacherRecord, date: int)
    ensures SummaryOf(rs + [r], date) == if r.date == date then Tally(SummaryOf(rs, date), r) else SummaryOf(rs, date)
  {
    assert (rs + [r])[..|rs|] == rs;
  }

  /** The row of `summary` whose date is `date` (the dict lookup). */
  function DayIndex(summary: seq<DaySummary>, date: int): (r: Option<nat>)
    ensures r.Some? ==> r.value < |summary| && summary[r.value].date == date
    ensures r.None? ==> forall k :: 0 <= k < |summary| ==> summary[k].date != date
  {
    if summary == [] then None
    else if summary[|summary| - 1].date == date then Some(|summary| - 1)
    else DayIndex(summary[..|summary| - 1], date)
  }

  /** `TeacherAttendanceView.get_context_data`: one row per date met in `rs`, in the order
   *  first met, counting the present and absent records and the present sessions. */
  method TeacherSummary(rs: seq<TeacherRecord>) returns (summary: seq<DaySummary>)
    ensures |summary| == |DistinctBy(rs, TeacherDate)|
    ensures forall k :: 0 <= k < |summary| ==> summary[k] == SummaryOf(rs, DistinctBy(rs, TeacherDate)[k])
  {
    summary := [];
    var i := 0;
    while i < |rs|
      invariant 0 <= i <= |rs| && |summary| == |DistinctBy(rs[..i], TeacherDate)|
      invariant forall k :: 0 <= k < |summary| ==> summary[k] == SummaryOf(rs[..i], DistinctBy(rs[..i], TeacherDate)[k])
    {
      summary := TallyStep(rs[..i], rs[i], summary);
      assert rs[..i] + [rs[i]] == rs[..i + 1];
      i := i + 1;
    }
    assert rs[..i] == rs;
  }

  /** One iteration of the summary loop over the records `done` followed by `r`. */
  method TallyStep(done: seq<TeacherRecord>, r: TeacherRecord, summary: seq<DaySummary>) returns (next: seq<DaySummary>)
    requires |summary| == |DistinctBy(done, TeacherDate)|
    requires forall k :: 0 <= k < |summary| ==> summary[k] == SummaryOf(done, DistinctBy(done, TeacherDate)[k])
    ensures |next| == |DistinctBy(done + [r], TeacherDate)|
    ensures forall k :: 0 <= k < |next| ==> next[k] == SummaryOf(done + [r], DistinctBy(done + [r], TeacherDate)[k])
  {
    var all := done + [r];
    assert all[..|done|] == done;
    ghost var dates := DistinctBy(done, TeacherDate);
    assert DistinctBy(all, TeacherDate) == if r.date in dates then dates else dates + [r.date];
    forall k | 0 <= k < |summary|
      ensures summary[k].date == dates[k]
    {
    }
    match DayIndex(summary, r.date)
    case Some(j) =>
      next := summary[j := Tally(summary[j], r)];
      forall k | 0 <= k < |next|
        ensures next[k] == SummaryOf(all, dates[k])
      {
        SummaryOfSnoc(done, r, dates[k]);
      }
    case None =>
      assert r.date !in dates;
      SummaryOfAbsentDate(done, r.date);
      next := summary + [Tally(DaySummary(r.date, 0, 0, 0), r)];
      forall k | 0 <= k < |next|
        ensures next[k] == SummaryOf(all, (dates + [r.date])[k])
      {
        SummaryOfSnoc(done, r, (dates + [r.date])[k]);
      }
  }

  /** Every row of the summary counts at most the records of its day. */
  lemma SummaryRowsBounded(rs: seq<TeacherRecord>, k: nat)
    requires k < |DistinctBy(rs, TeacherDate)|
    ensures var s := SummaryOf(rs, DistinctBy(rs, TeacherDate)[k]);
      0 < OnDate(rs, s.date) && s.presentCount + s.absentCount <= OnDate(rs, s.date)
  {
    var d := DistinctBy(rs, TeacherDate)[k];
    CountsBounded(rs, d);
    OnDatePositive(rs, d);
  }

  lemma {:induction false} OnDatePositive(rs: seq<TeacherRecord>, date: int)
    ensures OnDate(rs, date) > 0 <==> exists x :: 0 <= x < |rs| && rs[x].date == date
  {
    if rs != [] {
      var n := |rs| - 1;
      OnDatePositive(rs[..n], date);
      assert forall x :: 0 <= x < n ==> rs[..n][x] == rs[x];
    }
  }

  // ---------------------------------------------------------------- the two tables

  datatype AttendanceError = MissingInput | AlreadyTaken

  /** The `Attendance` and `TeacherAttendance` tables. */
  class AttendanceRegister {
    var records: seq<StudentRecord>
    var teacherRecords: seq<TeacherRecord>

    ghost predicate Valid()
      reads this
    {
      KeysUnique(records, StudentKey) && KeysUnique(teacherRecords, TeacherKey)
    }

    constructor ()
      ensures Valid() && records == [] && teacherRecords == []
    {
      records := [];
      teacherRecords := [];
    }

    /** `TakeAttendanceView.post` for the enrolled `students`: without a date or a classroom
     *  nothing happens; when the classroom already has records for the date nothing happens;
     *  otherwise a record is created for each student, a student who already has a record for
     *  the date (in another classroom) being refused by the unique constraint. The result is
     *  the number created. */
    method TakeAttendance(date: Option<int>, classroom: Option<nat>, students: seq<nat>,
                          statuses: map<nat, string>, notes: map<nat, string>) returns (r: Result<nat, AttendanceError>)
      requires Valid()
      modifies this`records
      ensures Valid()
      ensures date.None? || classroom.None? ==> r == Err(MissingInput)
      ensures date.Some? && classroom.Some? && TakenFor(old(records), classroom.value, date.value) ==> r == Err(AlreadyTaken)
      ensures r.Err? ==> records == old(records)
      ensures r.Ok? ==>
        records == InsertAll(old(records), StudentKey, StudentRecords(classroom.value, date.value, students, statuses, notes)) &&
        r.value == |records| - |old(records)|
    {
      if date.None? || classroom.None? {
        return Err(MissingInput);
      }
      var d, c := date.value, classroom.value;
      if exists x :: 0 <= x < |records| && records[x].classroom == c && records[x].date == d {
        return Err(AlreadyTaken);
      }
      var successCount := CreateRecords(c, d, students, statuses, notes);
      r := Ok(successCount);
    }

    /** The loop of `TakeAttendanceView.post`: `objects.create` for each student, counting
     *  the records the unique constraint lets through. */
    method CreateRecords(classroom: nat, date: int, students: seq<nat>,
                         statuses: map<nat, string>, notes: map<nat, string>) returns (successCount: nat)
      requires Valid()
      modifies this`records
      ensures Valid()
      ensures records == InsertAll(old(records), StudentKey, StudentRecords(classroom, date, students, statuses, notes))
      ensures successCount == |records| - |old(records)|
    {
      var recs := StudentRecords(classroom, date, students, statuses, notes);
      records, successCount := InsertEach(records, StudentKey, recs);
    }

    /** `UpdateAttendanceView.post`: `update_or_create` on (student, date) for each enrolled
     *  student, with the classroom, the submitted status ('present' by default) and notes.
     *  Every student is counted. */
    method UpdateAttendance(classroom: nat, date: int, students: seq<nat>,
                            statuses: map<nat, string>, notes: map<nat, string>) returns (successCount: nat)
      requires Valid()
      modifies this`records
      ensures Valid()
      ensures records == UpsertAll(old(records), StudentKey, StudentRecords(classroom, date, students, statuses, notes))
      ensures successCount == |students|
    {
      var recs := StudentRecords(classroom, date, students, statuses, notes);
      records, successCount := UpsertEach(records, StudentKey, recs);
    }

    /** `TakeTeacherAttendanceView.post` over all `teachers`: without a date nothing happens;
     *  otherwise each teacher's record for the date is created or overwritten with the
     *  submitted status ('absent' by default), sessions (1 by default) and notes. */
    method TakeTeacherAttendance(date: Option<int>, teachers: seq<nat>, statuses: map<nat, string>,
                                 sessions: map<nat, nat>, notes: map<nat, string>) returns (r: Result<nat, AttendanceError>)
      requires Valid()
      modifies this`teacherRecords
      ensures Valid()
      ensures date.None? <==> r == Err(MissingInput)
      ensures r.Err? ==> teacherRecords == old(teacherRecords)
      ensures r.Ok? ==>
        teacherRecords == UpsertAll(old(teacherRecords), TeacherKey, TeacherRecords(date.value, teachers, statuses, sessions, notes)) &&
        r.value == |teachers|
    {
      if date.None? {
        return Err(MissingInput);
      }
      var successCount := UpsertTeacherRecords(date.value, teachers, statuses, sessions, notes);
      r := Ok(successCount);
    }
 
    /** The loop of `TakeTeacherAttendanceView.post`: `get_or_create` then update for each
     *  teacher; every teacher is counted. */
    method UpsertTeacherRecords(date: int, teachers: seq<nat>, statuses: map<nat, string>,
                                sessions: map<nat, nat>, notes: map<nat, string>) returns (successCount: nat)
      requires Valid()
      modifies this`teacherRecords
      ensures Valid()
      ensures teacherRecords == UpsertAll(old(teacherRecords), TeacherKey, TeacherRecords(date, teachers, statuses, sessions, notes))
      ensures successCount == |teachers|
    {
      var recs := TeacherRecords(date, teachers, statuses, sessions, notes);
      teacherRecords, successCount := UpsertEach(teacherRecords, TeacherKey, recs);
    }
  }

  /** After taking attendance every listed student has a record for the date. */
  lemma TakenCovers(rs: seq<StudentRecord>, classroom: nat, date: int, students: seq<nat>,
                    statuses: map<nat, string>, notes: map<nat, string>, x: nat)
    requires x < |students|
    ensures FindKey(InsertAll(rs, StudentKey, StudentRecords(classroom, date, students, statuses, notes)), StudentKey, (students[x], date)).Some?
  {
    InsertAllCovers(rs, StudentKey, StudentRecords(classroom, date, students, statuses, notes), x);
  }

  /** After an edit, each listed student has a record for the date holding the submitted
   *  values and this classroom; the keys stay unique, so it is the student's only one. */
  lemma UpdatedHolds(rs: seq<StudentRecord>, classroom: nat, date: int, students: seq<nat>,
                     statuses: map<nat, string>, notes: map<nat, string>, x: nat)
    requires x < |students|
    ensures var r := UpsertAll(rs, StudentKey, StudentRecords(classroom, date, students, statuses, notes));
      exists i :: 0 <= i < |r| && r[i] == NewStudentRecord(classroom, date, students[x], statuses, notes)
  {
    StudentRecordsLastWord(classroom, date, students, statuses, notes, x);
    UpsertAllHolds(rs, StudentKey, StudentRecords(classroom, date, students, statuses, notes), x);
  }

  /** After taking teacher attendance each listed teacher has a record for the date holding
   *  the submitted values, and it is the teacher's only one for the date. */
  lemma TeacherTakenHolds(rs: seq<TeacherRecord>, date: int, teachers: seq<nat>, statuses: map<nat, string>,
                          sessions: map<nat, nat>, notes: map<nat, string>, x: nat)
    requires x < |teachers|
    ensures var r := UpsertAll(rs, TeacherKey, TeacherRecords(date, teachers, statuses, sessions, notes));
      exists i :: 0 <= i < |r| && r[i] == NewTeacherRecord(date, teachers[x], statuses, sessions, notes)
  {
    TeacherRecordsLastWord(date, teachers, statuses, sessions, notes, x);
    UpsertAllHolds(rs, TeacherKey, TeacherRecords(date, teachers, statuses, sessions, notes), x);
  }

  /** An edit touches only records of the listed students on that date. */
  lemma UpdateKeepsOthers(rs: seq<StudentRecord>, classroom: nat, date: int, students: seq<nat>,
                          statuses: map<nat, string>, notes: map<nat, string>, x: nat)
    requires x < |rs| && (rs[x].date != date || rs[x].student !in students)
    ensures var r := UpsertAll(rs, StudentKey, StudentRecords(classroom, date, students, statuses, notes));
      x < |r| && r[x] == rs[x]
  {
    UpsertAllKeepsOthers(rs, StudentKey, StudentRecords(classroom, date, students, statuses, notes), x);
  }
}
