/** The access table: the current variant keeps one summary record per
    (user, course) pair and updates it in place on every view
    (user/usuario.py `ver_cursos`); the older variant appends one line per
    visit to the catalogue (usuario.py `ver_cursos`). The measured duration
    and the ISO timestamp are parameters. */
module Access {
  import opened Base
  import opened Records

  predicate Matches(r: AccessRecord, user: string, course: string) {
    r.user == user && r.course == course
  }

  /** At most one record per (user, course) pair. */
  predicate OnePerPair(records: seq<AccessRecord>) {
    forall i, j :: 0 <= i < j < |records| ==>
      !(records[i].user == records[j].user && records[i].course == records[j].course)
  }

  /** The `next(...)` scan: the position of the first record of the pair. */
  method FindAccess(records: seq<AccessRecord>, user: string, course: string) returns (found: Option<nat>)
    ensures found == FirstMatch(records, user, course)
  {
    var i := 0;
    while i < |records|
      invariant 0 <= i <= |records|
      invariant forall j :: 0 <= j < i ==> !Matches(records[j], user, course)
    {
      if Matches(records[i], user, course) {
        FirstMatchAt(records, user, course, i);
        return Some(i);
      }
      i := i + 1;
    }
    return None;
  }

  /** The first record of the pair, if any. */
  function FirstMatch(records: seq<AccessRecord>, user: string, course: string): (r: Option<nat>)
    ensures r.Some? ==> r.value < |records| && Matches(records[r.value], user, course)
    ensures r.Some? ==> forall j :: 0 <= j < r.value ==> !Matches(records[j], user, course)
    ensures r.None? <==> forall j :: 0 <= j < |records| ==> !Matches(records[j], user, course)
    decreases |records|
  {
    if |records| == 0 then None
    else if Matches(records[0], user, course) then Some(0)
    else
      match FirstMatch(records[1..], user, course)
      case None => None
      case Some(k) => Some(k + 1)
  }

  /** The first record of the pair is the one FirstMatch finds. */
  lemma FirstMatchAt(records: seq<AccessRecord>, user: string, course: string, k: nat)
    requires k < |records| && Matches(records[k], user, course)
    requires forall j :: 0 <= j < k ==> !Matches(records[j], user, course)
    ensures FirstMatch(records, user, course) == Some(k)
  {
    var r := FirstMatch(records, user, course);
    assert r.Some?;
    assert !(r.value < k) && !(k < r.value);
  }

  /** The record of a first view of `course`: one visit, the measured time,
      the course's level, and `now` as both first and last access. */
  function FirstView(user: string, course: Course, duration: real, now: string): AccessRecord {
    AccessRecord(user, course.name, course.level, 1, duration, now, now)
  }

  /** The access table after `user` viewed `course` for `duration` seconds
      at time `now`. */
  function Viewed(records: seq<AccessRecord>, user: string, course: Course, duration: real, now: string)
    : (r: seq<AccessRecord>)
    ensures FirstMatch(records, user, course.name).Some? ==>
              var k := FirstMatch(records, user, course.name).value;
              && |r| == |records|
              && (forall j :: 0 <= j < |r| && j != k ==> r[j] == records[j])
              && r[k].visits == records[k].visits + 1
              && r[k].time == records[k].time + duration
              && r[k].lastAccess == now
              && r[k] == records[k].(visits := r[k].visits, time := r[k].time, lastAccess := now)
    ensures FirstMatch(records, user, course.name).None? ==>
              r == records + [FirstView(user, course, duration, now)]
  {
    match FirstMatch(records, user, course.name)
    case Some(k) =>
      var old_ := records[k];
      records[k := old_.(visits := old_.visits + 1, time := old_.time + duration, lastAccess := now)]
    case None =>
      records + [FirstView(user, course, duration, now)]
  }

  /** Visits recorded in the table, summed. */
  function TotalVisits(records: seq<AccessRecord>): int {
    if |records| == 0 then 0 else TotalVisits(records[..|records| - 1]) + records[|records| - 1].visits
  }

  lemma {:induction false} TotalVisitsUpdate(records: seq<AccessRecord>, k: nat, x: AccessRecord)
    requires k < |records|
    ensures TotalVisits(records[k := x]) == TotalVisits(records) - records[k].visits + x.visits
  {
    var n := |records|;
    if k < n - 1 {
      assert records[k := x][..n - 1] == records[..n - 1][k := x];
      TotalVisitsUpdate(records[..n - 1], k, x);
    } else {
      assert records[k := x][..n - 1] == records[..n - 1];
    }
  }

  /** Every view counts exactly one visit. */
  lemma ViewAddsOneVisit(records: seq<AccessRecord>, user: string, course: Course, duration: real, now: string)
    ensures TotalVisits(Viewed(records, user, course, duration, now)) == TotalVisits(records) + 1
  {
    match FirstMatch(records, user, course.name)
    case Some(k) =>
      var r := Viewed(records, user, course, duration, now);
      assert r == records[k := r[k]];
      TotalVisitsUpdate(records, k, r[k]);
    case None =>
      var r := Viewed(records, user, course, duration, now);
      assert r[..|records|] == records;
  }

  /** A view never creates a second record for a pair. */
  lemma ViewKeepsOnePerPair(records: seq<AccessRecord>, user: string, course: Course, duration: real, now: string)
    requires OnePerPair(records)
    ensures OnePerPair(Viewed(records, user, course, duration, now))
  {
    var r := Viewed(records, user, course, duration, now);
    match FirstMatch(records, user, course.name)
    case Some(k) =>
      assert forall j :: 0 <= j < |r| ==> r[j].user == records[j].user && r[j].course == records[j].course;
    case None =>
      assert forall j :: 0 <= j < |records| ==> r[j] == records[j];
  }

  /** After a view the table holds a record of the pair. */
  lemma ViewLeavesRecord(records: seq<AccessRecord>, user: string, course: Course, duration: real, now: string)
    ensures FirstMatch(Viewed(records, user, course, duration, now), user, course.name).Some?
  {
    var r := Viewed(records, user, course, duration, now);
    match FirstMatch(records, user, course.name)
    case Some(k) =>
      assert Matches(r[k], user, course.name);
    case None =>
      assert Matches(r[|records|], user, course.name);
  }

  /** Two views of a course the user had never opened leave one record: two
      visits, the two durations added, the first time kept and the second
      time as the last access. */
  lemma TwoViews(records: seq<AccessRecord>, user: string, course: Course, d1: real, d2: real, t1: string, t2: string)
    requires FirstMatch(records, user, course.name).None?
    ensures Viewed(Viewed(records, user, course, d1, t1), user, course, d2, t2)
         == records + [AccessRecord(user, course.name, course.level, 2, d1 + d2, t1, t2)]
  {
    var once := Viewed(records, user, course, d1, t1);
    var n := |records|;
    FirstMatchAt(once, user, course.name, n);
  }

  /** The current variant's access table. */
  class AccessTracker {
    var records: seq<AccessRecord>

    constructor(records0: seq<AccessRecord>)
      ensures records == records0
    {
      records := records0;
    }

    /** The access bookkeeping after each course view in `ver_cursos`: bump
        the pair's record in place, or append a first one. */
    method RecordView(user: string, course: Course, duration: real, now: string)
      modifies this
      ensures records == Viewed(old(records), user, course, duration, now)
      ensures OnePerPair(old(records)) ==> OnePerPair(records)
      ensures TotalVisits(records) == TotalVisits(old(records)) + 1
    {
      var table := records;
      ViewAddsOneVisit(table, user, course, duration, now);
      if OnePerPair(table) {
        ViewKeepsOnePerPair(table, user, course, duration, now);
      }
      var found := FindAccess(table, user, course.name);
      match found {
        case Some(k) =>
          var r := table[k];
          table := table[k := r.(visits := r.visits + 1, time := r.time + duration, lastAccess := now)];
        case None =>
          table := table + [FirstView(user, course, duration, now)];
      }
      records := table;
    }
  }

  /** The older variant's access log. */
  class AccessLog {
    var entries: seq<AccessEntry>

    constructor(entries0: seq<AccessEntry>)
      ensures entries == entries0
    {
      entries := entries0;
    }

    /** Leaving the catalogue screen: nothing when the catalogue is empty
        (the screen returns at once), otherwise one line with the number of
        courses offered. */
    method LeaveCatalogue(user: string, courses: seq<Course>)
      modifies this
      ensures |courses| == 0 ==> entries == old(entries)
      ensures |courses| > 0 ==> entries == old(entries) + [CatalogueView(user, |courses|)]
    {
      if |courses| == 0 {
        return;
      }
      entries := entries + [CatalogueView(user, |courses|)];
    }
  }
}
