/** The statistics screens of utils/estatisticas.py: the lists the screens
    extract from the user, access and rating tables, the gender tally
    (`collections.Counter`), and the per-course grouping and summary of
    ratings. */
module UsageStatistics {
  import opened Base
  import opened Records
  import opened Numbers

  function ToReals(s: seq<int>): (r: seq<real>)
    ensures |r| == |s|
    ensures forall i :: 0 <= i < |s| ==> r[i] == s[i] as real
  {
    if |s| == 0 then [] else ToReals(s[..|s| - 1]) + [s[|s| - 1] as real]
  }

  /** What a statistics screen shows for one list of values. */
  datatype Summary = Summary(mean: real, mode: Option<real>, median: real)

  /** Mean, mode and median of a list, or None when the screen reports that
      there is nothing to show. */
  function Describe(values: seq<real>): (r: Option<Summary>)
    ensures r.None? <==> |values| == 0
    ensures r.Some? ==> r.value == Summary(Mean(values), Mode(values), Median(values))
    ensures r.Some? ==> r.value.mode.Some? && r.value.mode.value in values
    ensures forall lo, hi :: r.Some? && Between(values, lo, hi) ==>
              lo <= r.value.mean <= hi && lo <= r.value.median <= hi
  {
    if |values| == 0 then None
    else
      assert forall lo, hi :: Between(values, lo, hi) ==> lo <= Mean(values) <= hi && lo <= Median(values) <= hi by {
        forall lo, hi | Between(values, lo, hi) ensures lo <= Mean(values) <= hi && lo <= Median(values) <= hi {
          MeanBetween(values, lo, hi);
          MedianBetween(values, lo, hi);
        }
      }
      Some(Summary(Mean(values), Mode(values), Median(values)))
  }

  // ---------------------------------------------------------------------
  // User statistics

  /** `[user['idade'] for user in usuarios if 'idade' in user]` */
  function Ages(users: seq<User>): (r: seq<int>)
    ensures |r| <= |users|
    ensures forall x :: x in r <==> exists u :: u in users && u.age == Some(x)
  {
    if |users| == 0 then []
    else
      var last := users[|users| - 1];
      assert users == users[..|users| - 1] + [last];
      Ages(users[..|users| - 1]) + (if last.age.Some? then [last.age.value] else [])
  }

  /** `[user['genero'] for user in usuarios if 'genero' in user]` */
  function Genders(users: seq<User>): (r: seq<string>)
    ensures |r| <= |users|
    ensures forall g :: g in r <==> exists u :: u in users && u.gender == Some(g)
  {
    if |users| == 0 then []
    else
      var last := users[|users| - 1];
      assert users == users[..|users| - 1] + [last];
      Genders(users[..|users| - 1]) + (if last.gender.Some? then [last.gender.value] else [])
  }

  /** The extracted lists keep the table's order: extracting from two
      consecutive parts of a table is extracting from each and concatenating. */
  lemma {:induction false} ExtractionKeepsOrder(a: seq<User>, b: seq<User>)
    ensures Ages(a + b) == Ages(a) + Ages(b)
    ensures Genders(a + b) == Genders(a) + Genders(b)
    decreases |b|
  {
    if |b| > 0 {
      var n := |b|;
      assert (a + b)[..|a + b| - 1] == a + b[..n - 1];
      assert (a + b)[|a + b| - 1] == b[n - 1];
      ExtractionKeepsOrder(a, b[..n - 1]);
    } else {
      assert a + b == a;
    }
  }

  // Counter: a list of (key, count) pairs in order of first appearance.

  function CountOf(t: seq<(string, nat)>, key: string): nat {
    if |t| == 0 then 0 else if t[0].0 == key then t[0].1 else CountOf(t[1..], key)
  }

  function TallyTotal(t: seq<(string, nat)>): nat {
    if |t| == 0 then 0 else t[0].1 + TallyTotal(t[1..])
  }

  predicate DistinctKeys(t: seq<(string, nat)>) {
    forall i, j :: 0 <= i < j < |t| ==> t[i].0 != t[j].0
  }

  /** One more occurrence of `x`: raise its count, or add it with count 1 at the end. */
  function Bump(t: seq<(string, nat)>, x: string): (r: seq<(string, nat)>)
    requires DistinctKeys(t) && forall i :: 0 <= i < |t| ==> t[i].1 > 0
    ensures DistinctKeys(r) && forall i :: 0 <= i < |r| ==> r[i].1 > 0
    ensures forall key :: CountOf(r, key) == CountOf(t, key) + (if key == x then 1 else 0)
    ensures TallyTotal(r) == TallyTotal(t) + 1
  {
    if |t| == 0 then [(x, 1)]
    else if t[0].0 == x then
      assert forall key :: key != x ==> CountOf(t, key) == CountOf(t[1..], key);
      assert forall i :: 1 <= i < |t| ==> t[i].0 != x;
      NotInTallyCountsZero(t[1..], x);
      [(x, t[0].1 + 1)] + t[1..]
    else
      var rest := Bump(t[1..], x);
      assert forall i :: 0 <= i < |t| - 1 ==> t[1..][i] == t[i + 1];
      assert forall j :: 0 <= j < |rest| ==> rest[j].0 != t[0].0 by {
        forall j | 0 <= j < |rest| ensures rest[j].0 != t[0].0 {
          if rest[j].0 == t[0].0 {
            assert CountOf(rest, t[0].0) == CountOf(t[1..], t[0].0);
            NotInTallyCountsZero(t[1..], t[0].0);
            KeyInTallyCountsPositive(rest, j);
          }
        }
      }
      [t[0]] + rest
  }

  lemma {:induction false} NotInTallyCountsZero(t: seq<(string, nat)>, key: string)
    requires forall i :: 0 <= i < |t| ==> t[i].0 != key
    ensures CountOf(t, key) == 0
  {
    if |t| > 0 {
      NotInTallyCountsZero(t[1..], key);
    }
  }

  lemma {:induction false} KeyInTallyCountsPositive(t: seq<(string, nat)>, j: nat)
    requires j < |t| && DistinctKeys(t) && forall i :: 0 <= i < |t| ==> t[i].1 > 0
    ensures CountOf(t, t[j].0) > 0
  {
    if j > 0 {
      KeyInTallyCountsPositive(t[1..], j - 1);
    }
  }

  lemma {:induction false} CountedKeyPresent(t: seq<(string, nat)>, key: string)
    requires CountOf(t, key) > 0
    ensures exists j :: 0 <= j < |t| && t[j].0 == key
  {
    if t[0].0 != key {
      CountedKeyPresent(t[1..], key);
      var j :| 0 <= j < |t| - 1 && t[1..][j].0 == key;
      assert t[j + 1].0 == key;
    }
  }

  /** `Counter(values)`: every value of the list with its number of
      occurrences, each value once, absent values counting zero. */
  function Tally(values: seq<string>): (r: seq<(string, nat)>)
    ensures DistinctKeys(r)
    ensures forall i :: 0 <= i < |r| ==> r[i].1 > 0
    ensures forall key :: CountOf(r, key) == Occurrences(values, key)
    ensures forall x :: x in values ==> exists j :: 0 <= j < |r| && r[j].0 == x
    ensures TallyTotal(r) == |values|
  {
    if |values| == 0 then []
    else
      var n := |values|;
      var prefix := values[..n - 1];
      assert values == prefix + [values[n - 1]];
      var t := Tally(prefix);
      var r := Bump(t, values[n - 1]);
      assert forall key :: CountOf(r, key) == Occurrences(values, key) by {
        forall key ensures CountOf(r, key) == Occurrences(values, key) {
          OccurrencesSnoc(prefix, key, values[n - 1]);
        }
      }
      assert forall x :: x in values ==> exists j :: 0 <= j < |r| && r[j].0 == x by {
        forall x | x in values ensures exists j :: 0 <= j < |r| && r[j].0 == x {
          assert CountOf(r, x) == Occurrences(values, x) > 0;
          CountedKeyPresent(r, x);
        }
      }
      r
  }

  lemma AgesEmpty(users: seq<User>)
    ensures |Ages(users)| == 0 <==> forall u :: u in users ==> u.age.None?
  {
    if |Ages(users)| > 0 {
      assert Ages(users)[0] in Ages(users);
    }
  }

  lemma GendersEmpty(users: seq<User>)
    ensures |Genders(users)| == 0 <==> forall u :: u in users ==> u.gender.None?
  {
    if |Genders(users)| > 0 {
      assert Genders(users)[0] in Genders(users);
    }
  }

  datatype UserReport = UserReport(ages: Option<Summary>, genders: Option<seq<(string, nat)>>)

  /** `gerar_estatisticas_usuarios`: the age screen and the gender screen,
      each None where it reports that there is nothing to show. */
  function UserStatistics(users: seq<User>): (r: UserReport)
    ensures r.ages.None? <==> forall u :: u in users ==> u.age.None?
    ensures r.genders.None? <==> forall u :: u in users ==> u.gender.None?
    ensures r.ages == Describe(ToReals(Ages(users)))
    ensures r.genders.Some? ==> r.genders.value == Tally(Genders(users))
    ensures r.genders.Some? ==> forall g :: CountOf(r.genders.value, g) == Occurrences(Genders(users), g)
    ensures r.genders.Some? ==> TallyTotal(r.genders.value) <= |users|
  {
    var ages := Ages(users);
    var genders := Genders(users);
    AgesEmpty(users);
    GendersEmpty(users);
    UserReport(Describe(ToReals(ages)), if |genders| == 0 then None else Some(Tally(genders)))
  }

  // ---------------------------------------------------------------------
  // Access statistics

  /** `[acesso['quantidade'] for acesso in acessos if 'quantidade' in acesso]` */
  function VisitCounts(entries: seq<AccessEntry>): (r: seq<int>)
    ensures |r| <= |entries|
    ensures forall x :: x in r <==> exists e :: e in entries && e.Visit? && e.record.visits == x
  {
    if |entries| == 0 then []
    else
      var last := entries[|entries| - 1];
      assert entries == entries[..|entries| - 1] + [last];
      VisitCounts(entries[..|entries| - 1]) + (if last.Visit? then [last.record.visits] else [])
  }

  /** `[acesso['tempo'] for acesso in acessos if 'tempo' in acesso]` */
  function VisitTimes(entries: seq<AccessEntry>): (r: seq<real>)
    ensures |r| == |VisitCounts(entries)|
    ensures forall x :: x in r <==> exists e :: e in entries && e.Visit? && e.record.time == x
  {
    if |entries| == 0 then []
    else
      var last := entries[|entries| - 1];
      assert entries == entries[..|entries| - 1] + [last];
      VisitTimes(entries[..|entries| - 1]) + (if last.Visit? then [last.record.time] else [])
  }

  /** For a table of per-course summaries, every record contributes one visit
      count and one duration, in table order. */
  lemma {:induction false} SummaryTableFeedsEveryRecord(records: seq<AccessRecord>)
    ensures VisitCounts(seq(|records|, i requires 0 <= i < |records| => Visit(records[i])))
         == seq(|records|, i requires 0 <= i < |records| => records[i].visits)
  {
    if |records| > 0 {
      var n := |records|;
      var entries := seq(n, i requires 0 <= i < n => Visit(records[i]));
      SummaryTableFeedsEveryRecord(records[..n - 1]);
      assert entries[..n - 1] == seq(n - 1, i requires 0 <= i < n - 1 => Visit(records[..n - 1][i]));
    }
  }

  lemma {:induction false} NoVisitsNoCounts(entries: seq<AccessEntry>)
    ensures |VisitCounts(entries)| == 0 <==> forall i :: 0 <= i < |entries| ==> !entries[i].Visit?
  {
    if |entries| > 0 {
      var n := |entries|;
      NoVisitsNoCounts(entries[..n - 1]);
      assert forall i :: 0 <= i < n - 1 ==> entries[..n - 1][i] == entries[i];
    }
  }

  datatype AccessReport =
    | NoAccessData
    | AccessReport(visits: Option<Summary>, times: Option<Summary>)

  /** `gerar_estatisticas_acessos`: nothing is computed when neither list has
      a value; otherwise each screen summarises its own list. */
  function AccessStatistics(entries: seq<AccessEntry>): (r: AccessReport)
    ensures r.NoAccessData? <==> forall i :: 0 <= i < |entries| ==> !entries[i].Visit?
    ensures r.AccessReport? ==> r.visits.Some? && r.times.Some?
    ensures r.AccessReport? ==>
              r.visits == Describe(ToReals(VisitCounts(entries))) && r.times == Describe(VisitTimes(entries))
  {
    var counts := VisitCounts(entries);
    var times := VisitTimes(entries);
    NoVisitsNoCounts(entries);
    if |counts| == 0 && |times| == 0 then NoAccessData
    else AccessReport(Describe(ToReals(counts)), Describe(times))
  }

  // ---------------------------------------------------------------------
  // Rating statistics

  /** A rating as the statistics screen reads it: `curso` and `nota` may be missing. */
  datatype RatingRow = RatingRow(course: Option<string>, score: Option<int>)

  function RowOf(r: Rating): RatingRow {
    RatingRow(Some(r.course), Some(r.score))
  }

  const UnknownCourse: string := "Desconhecido"

  /** `av.get("curso", "Desconhecido")` */
  function GroupKey(row: RatingRow): string {
    row.course.GetOr(UnknownCourse)
  }

  /** The scores grouped under `course`, in table order. */
  function ScoresFor(rows: seq<RatingRow>, course: string): seq<int> {
    if |rows| == 0 then []
    else
      var last := rows[|rows| - 1];
      ScoresFor(rows[..|rows| - 1], course) +
        (if last.score.Some? && GroupKey(last) == course then [last.score.value] else [])
  }

  /** Number of rows whose `nota` is present. */
  function ScoredCount(rows: seq<RatingRow>): nat {
    if |rows| == 0 then 0
    else ScoredCount(rows[..|rows| - 1]) + (if rows[|rows| - 1].score.Some? then 1 else 0)
  }

  function GroupsTotal(groups: seq<(string, seq<int>)>): nat {
    if |groups| == 0 then 0 else GroupsTotal(groups[..|groups| - 1]) + |groups[|groups| - 1].1|
  }

  lemma {:induction false} GroupsTotalUpdate(groups: seq<(string, seq<int>)>, k: nat, g: (string, seq<int>))
    requires k < |groups|
    ensures GroupsTotal(groups[k := g]) == GroupsTotal(groups) - |groups[k].1| + |g.1|
  {
    var n := |groups|;
    if k < n - 1 {
      assert groups[k := g][..n - 1] == groups[..n - 1][k := g];
      GroupsTotalUpdate(groups[..n - 1], k, g);
    } else {
      assert groups[k := g][..n - 1] == groups[..n - 1];
    }
  }

  predicate DistinctGroupKeys(groups: seq<(string, seq<int>)>) {
    forall i, j :: 0 <= i < j < |groups| ==> groups[i].0 != groups[j].0
  }

  /** Position of `key` among the group keys. */
  function GroupIndex(groups: seq<(string, seq<int>)>, key: string): (r: Option<nat>)
    ensures r.Some? ==> r.value < |groups| && groups[r.value].0 == key
    ensures r.None? ==> forall i :: 0 <= i < |groups| ==> groups[i].0 != key
  {
    if |groups| == 0 then None
    else if groups[|groups| - 1].0 == key then Some(|groups| - 1)
    else GroupIndex(groups[..|groups| - 1], key)
  }

  /** `groups` is the grouping of `rows`: one group per course key, holding
      exactly that course's present scores in table order, every scored row
      has its group, and the group sizes add up to the number of scored rows. */
  ghost predicate Grouped(rows: seq<RatingRow>, groups: seq<(string, seq<int>)>) {
    && DistinctGroupKeys(groups)
    && (forall k :: 0 <= k < |groups| ==> groups[k].1 == ScoresFor(rows, groups[k].0) && |groups[k].1| > 0)
    && (forall j :: 0 <= j < |rows| && rows[j].score.Some? ==> GroupIndex(groups, GroupKey(rows[j])).Some?)
    && GroupsTotal(groups) == ScoredCount(rows)
  }

  lemma SnocPrefix<T>(rows: seq<T>, row: T)
    ensures (rows + [row])[..|rows|] == rows && (rows + [row])[|rows|] == row
  {
  }

  /** A row without a score changes no group. */
  lemma GroupSkip(rows: seq<RatingRow>, groups: seq<(string, seq<int>)>, row: RatingRow)
    requires Grouped(rows, groups) && row.score.None?
    ensures Grouped(rows + [row], groups)
  {
    SnocPrefix(rows, row);
  }

  /** A scored row whose course already has group `k` joins the end of it. */
  lemma GroupJoin(rows: seq<RatingRow>, groups: seq<(string, seq<int>)>, row: RatingRow, k: nat)
    requires Grouped(rows, groups) && row.score.Some?
    requires k < |groups| && groups[k].0 == GroupKey(row)
    ensures Grouped(rows + [row], groups[k := (GroupKey(row), groups[k].1 + [row.score.value])])
  {
    SnocPrefix(rows, row);
    var g := groups[k := (GroupKey(row), groups[k].1 + [row.score.value])];
    GroupsTotalUpdate(groups, k, g[k]);
    forall key ensures GroupIndex(g, key).Some? == GroupIndex(groups, key).Some? {
      if GroupIndex(groups, key).Some? {
        var m := GroupIndex(groups, key).value;
        assert g[m].0 == key;
      }
      if GroupIndex(g, key).Some? {
        var m := GroupIndex(g, key).value;
        assert groups[m].0 == key;
      }
    }
  }

  /** A scored row of a course without a group opens a new group at the end. */
  lemma GroupOpen(rows: seq<RatingRow>, groups: seq<(string, seq<int>)>, row: RatingRow)
    requires Grouped(rows, groups) && row.score.Some?
    requires GroupIndex(groups, GroupKey(row)).None?
    ensures Grouped(rows + [row], groups + [(GroupKey(row), [row.score.value])])
  {
    OpenedGroupsShape(rows, groups, row);
    OpenedGroupsHoldScores(rows, groups, row);
    OpenedGroupsCoverRows(rows, groups, row);
  }

  lemma OpenedGroupsShape(rows: seq<RatingRow>, groups: seq<(string, seq<int>)>, row: RatingRow)
    requires Grouped(rows, groups) && row.score.Some?
    requires GroupIndex(groups, GroupKey(row)).None?
    ensures var g := groups + [(GroupKey(row), [row.score.value])];
            && DistinctGroupKeys(g)
            && (forall k :: 0 <= k < |g| ==> |g[k].1| > 0)
            && GroupsTotal(g) == ScoredCount(rows + [row])
  {
    var g := groups + [(GroupKey(row), [row.score.value])];
    assert g[..|groups|] == groups;
    SnocPrefix(rows, row);
  }

  lemma OpenedGroupsHoldScores(rows: seq<RatingRow>, groups: seq<(string, seq<int>)>, row: RatingRow)
    requires Grouped(rows, groups) && row.score.Some?
    requires GroupIndex(groups, GroupKey(row)).None?
    ensures var g := groups + [(GroupKey(row), [row.score.value])];
            forall k :: 0 <= k < |g| ==> g[k].1 == ScoresFor(rows + [row], g[k].0)
  {
    var g := groups + [(GroupKey(row), [row.score.value])];
    forall k | 0 <= k < |g| ensures g[k].1 == ScoresFor(rows + [row], g[k].0) {
      ScoresForSnoc(rows, row, g[k].0);
      if k == |groups| {
        NoGroupNoScores(rows, GroupKey(row));
      }
    }
  }

  /** One more row adds its score, if any, to the end of its course's list. */
  lemma ScoresForSnoc(rows: seq<RatingRow>, row: RatingRow, course: string)
    ensures ScoresFor(rows + [row], course)
         == ScoresFor(rows, course) + (if row.score.Some? && GroupKey(row) == course then [row.score.value] else [])
  {
    SnocPrefix(rows, row);
  }

  lemma OpenedGroupsCoverRows(rows: seq<RatingRow>, groups: seq<(string, seq<int>)>, row: RatingRow)
    requires Grouped(rows, groups) && row.score.Some?
    requires GroupIndex(groups, GroupKey(row)).None?
    ensures var g := groups + [(GroupKey(row), [row.score.value])];
            forall j :: 0 <= j < |rows| + 1 && (rows + [row])[j].score.Some? ==>
              GroupIndex(g, GroupKey((rows + [row])[j])).Some?
  {
    SnocPrefix(rows, row);
    var g := groups + [(GroupKey(row), [row.score.value])];
    forall j | 0 <= j < |rows| + 1 && (rows + [row])[j].score.Some?
      ensures GroupIndex(g, GroupKey((rows + [row])[j])).Some?
    {
      if j < |rows| {
        var m := GroupIndex(groups, GroupKey(rows[j])).value;
        assert g[m].0 == GroupKey(rows[j]);
      } else {
        assert g[|groups|].0 == GroupKey(row);
      }
    }
  }

  /** `groups.setdefault(key, []).append(score)` */
  function AddScore(groups: seq<(string, seq<int>)>, key: string, score: int): seq<(string, seq<int>)> {
    match GroupIndex(groups, key)
    case Some(k) => groups[k := (key, groups[k].1 + [score])]
    case None => groups + [(key, [score])]
  }

  /** Adding a scored row to the grouping of the rows before it gives the
      grouping of the longer table. */
  lemma GroupAdd(rows: seq<RatingRow>, groups: seq<(string, seq<int>)>, row: RatingRow)
    requires Grouped(rows, groups) && row.score.Some?
    ensures Grouped(rows + [row], AddScore(groups, GroupKey(row), row.score.value))
  {
    match GroupIndex(groups, GroupKey(row))
    case Some(k) => GroupJoin(rows, groups, row, k);
    case None => GroupOpen(rows, groups, row);
  }

  /** The group keys, in group order. */
  function Keys(groups: seq<(string, seq<int>)>): seq<string> {
    seq(|groups|, k requires 0 <= k < |groups| => groups[k].0)
  }

  /** The course keys of the scored rows, each once, in order of first
      appearance: the order in which a Python dict receives its keys. */
  function FirstSeen(rows: seq<RatingRow>): (r: seq<string>)
    ensures forall a, b :: 0 <= a < b < |r| ==> r[a] != r[b]
    ensures forall key :: key in r <==> exists j :: 0 <= j < |rows| && rows[j].score.Some? && GroupKey(rows[j]) == key
  {
    if |rows| == 0 then []
    else
      var n := |rows|;
      var last := rows[n - 1];
      var prefix := FirstSeen(rows[..n - 1]);
      assert rows == rows[..n - 1] + [last];
      if last.score.Some? && GroupKey(last) !in prefix then prefix + [GroupKey(last)] else prefix
  }

  /** Adding a score keeps the keys in place, or appends a new key at the end. */
  lemma AddScoreKeys(groups: seq<(string, seq<int>)>, key: string, score: int)
    ensures key in Keys(groups) <==> GroupIndex(groups, key).Some?
    ensures Keys(AddScore(groups, key, score))
         == if key in Keys(groups) then Keys(groups) else Keys(groups) + [key]
  {
    if key in Keys(groups) {
      var k :| 0 <= k < |groups| && Keys(groups)[k] == key;
      assert groups[k].0 == key;
    }
    if GroupIndex(groups, key).Some? {
      assert Keys(groups)[GroupIndex(groups, key).value] == key;
    }
  }

  /** The grouping loop over the rating table, group keys in order of first
      appearance. */
  method GroupByCourse(rows: seq<RatingRow>) returns (groups: seq<(string, seq<int>)>)
    ensures Grouped(rows, groups)
    ensures Keys(groups) == FirstSeen(rows)
  {
    groups := [];
    var i := 0;
    while i < |rows|
      invariant 0 <= i <= |rows|
      invariant Grouped(rows[..i], groups)
      invariant Keys(groups) == FirstSeen(rows[..i])
    {
      assert rows[..i + 1] == rows[..i] + [rows[i]];
      assert rows[..i + 1][..i] == rows[..i];
      var row := rows[i];
      if row.score.Some? {
        GroupAdd(rows[..i], groups, row);
        AddScoreKeys(groups, GroupKey(row), row.score.value);
        groups := AddScore(groups, GroupKey(row), row.score.value);
      } else {
        GroupSkip(rows[..i], groups, row);
      }
      i := i + 1;
    }
    assert rows[..i] == rows;
  }

  lemma {:induction false} NoGroupNoScores(rows: seq<RatingRow>, key: string)
    requires forall j :: 0 <= j < |rows| && rows[j].score.Some? ==> GroupKey(rows[j]) != key
    ensures ScoresFor(rows, key) == []
  {
    if |rows| > 0 {
      NoGroupNoScores(rows[..|rows| - 1], key);
    }
  }

  function MinOf(s: seq<int>): (m: int)
    requires |s| > 0
    ensures m in s && forall i :: 0 <= i < |s| ==> m <= s[i]
  {
    if |s| == 1 then s[0]
    else
      var rest := MinOf(s[..|s| - 1]);
      assert forall i :: 0 <= i < |s| - 1 ==> s[..|s| - 1][i] == s[i];
      if s[|s| - 1] < rest then s[|s| - 1] else rest
  }

  function MaxOf(s: seq<int>): (m: int)
    requires |s| > 0
    ensures m in s && forall i :: 0 <= i < |s| ==> s[i] <= m
  {
    if |s| == 1 then s[0]
    else
      var rest := MaxOf(s[..|s| - 1]);
      assert forall i :: 0 <= i < |s| - 1 ==> s[..|s| - 1][i] == s[i];
      if s[|s| - 1] > rest then s[|s| - 1] else rest
  }

  datatype CourseSummary = CourseSummary(course: string, count: nat, mean: real, max: int, min: int)

  /** `c` is the summary line of a non-empty list of scores: their number,
      their mean, and the lowest and highest of them, with the mean between. */
  ghost predicate Summarizes(scores: seq<int>, c: CourseSummary) {
    && c.count == |scores| > 0
    && c.mean == Mean(ToReals(scores))
    && c.min in scores && c.max in scores
    && (forall j :: 0 <= j < |scores| ==> c.min <= scores[j] <= c.max)
    && c.min as real <= c.mean <= c.max as real
  }

  /** The summary loop: one line per group, in group order. */
  method SummarizeGroups(groups: seq<(string, seq<int>)>) returns (summaries: seq<CourseSummary>)
    requires forall k :: 0 <= k < |groups| ==> |groups[k].1| > 0
    ensures |summaries| == |groups|
    ensures forall k :: 0 <= k < |groups| ==>
              summaries[k].course == groups[k].0 && Summarizes(groups[k].1, summaries[k])
  {
    summaries := [];
    for k := 0 to |groups|
      invariant |summaries| == k
      invariant forall m :: 0 <= m < k ==>
                  summaries[m].course == groups[m].0 && Summarizes(groups[m].1, summaries[m])
    {
      var (course, scores) := groups[k];
      var mean := Mean(ToReals(scores));
      var hi := MaxOf(scores);
      var lo := MinOf(scores);
      MeanBetween(ToReals(scores), lo as real, hi as real);
      summaries := summaries + [CourseSummary(course, |scores|, mean, hi, lo)];
    }
  }

  /** What the rating statistics screen promises about its lines: one line per
      course key, each summarising exactly the scores given to that course,
      every scored rating shown under its course, and nothing counted twice. */
  ghost predicate ReportsRatings(rows: seq<RatingRow>, courses: seq<CourseSummary>) {
    && (forall a, b :: 0 <= a < b < |courses| ==> courses[a].course != courses[b].course)
    && (forall k :: 0 <= k < |courses| ==> Summarizes(ScoresFor(rows, courses[k].course), courses[k]))
    && (forall i :: 0 <= i < |rows| && rows[i].score.Some? ==>
          exists k :: 0 <= k < |courses| && courses[k].course == GroupKey(rows[i]))
    && SummariesTotal(courses) == ScoredCount(rows)
  }

  lemma ReportFromGroups(rows: seq<RatingRow>, groups: seq<(string, seq<int>)>, summaries: seq<CourseSummary>)
    requires Grouped(rows, groups)
    requires |summaries| == |groups|
    requires forall k :: 0 <= k < |groups| ==>
               summaries[k].course == groups[k].0 && Summarizes(groups[k].1, summaries[k])
    ensures ReportsRatings(rows, summaries)
  {
    SummariesMatchGroups(groups, summaries);
    forall i | 0 <= i < |rows| && rows[i].score.Some?
      ensures exists k :: 0 <= k < |summaries| && summaries[k].course == GroupKey(rows[i])
    {
      var k := GroupIndex(groups, GroupKey(rows[i])).value;
      assert summaries[k].course == GroupKey(rows[i]);
    }
  }

  datatype RatingReport =
    | NoRatings                              // the table is empty
    | NoValidRatings                         // no rating has a score
    | RatingReport(courses: seq<CourseSummary>)

  /** `gerar_estatisticas_avaliacoes` */
  method RatingStatistics(rows: seq<RatingRow>) returns (report: RatingReport)
    ensures report.NoRatings? <==> |rows| == 0
    ensures report.NoValidRatings? <==> |rows| > 0 && forall i :: 0 <= i < |rows| ==> rows[i].score.None?
    ensures report.RatingReport? ==> ReportsRatings(rows, report.courses)
    ensures report.RatingReport? ==> CourseNames(report.courses) == FirstSeen(rows)
  {
    if |rows| == 0 {
      return NoRatings;
    }
    var groups := GroupByCourse(rows);
    if |groups| == 0 {
      assert forall i :: 0 <= i < |rows| ==> rows[i].score.None? by {
        forall i | 0 <= i < |rows| ensures rows[i].score.None? {
          if rows[i].score.Some? {
            assert false;
          }
        }
      }
      return NoValidRatings;
    }
    assert |groups[0].1| > 0;
    ScoredRowExists(rows, groups[0].0);
    var summaries := SummarizeGroups(groups);
    ReportFromGroups(rows, groups, summaries);
    SummaryNamesAreKeys(groups, summaries);
    report := RatingReport(summaries);
  }

  /** The course of each summary line, in line order. */
  function CourseNames(courses: seq<CourseSummary>): seq<string> {
    seq(|courses|, k requires 0 <= k < |courses| => courses[k].course)
  }

  lemma SummaryNamesAreKeys(groups: seq<(string, seq<int>)>, summaries: seq<CourseSummary>)
    requires |summaries| == |groups|
    requires forall k :: 0 <= k < |groups| ==> summaries[k].course == groups[k].0
    ensures CourseNames(summaries) == Keys(groups)
  {
  }

  lemma {:induction false} ScoredRowExists(rows: seq<RatingRow>, key: string)
    requires |ScoresFor(rows, key)| > 0
    ensures exists i :: 0 <= i < |rows| && rows[i].score.Some?
  {
    var n := |rows|;
    if !(rows[n - 1].score.Some? && GroupKey(rows[n - 1]) == key) {
      ScoredRowExists(rows[..n - 1], key);
      var i :| 0 <= i < n - 1 && rows[..n - 1][i].score.Some?;
      assert rows[i] == rows[..n - 1][i];
    }
  }

  function SummariesTotal(summaries: seq<CourseSummary>): nat {
    if |summaries| == 0 then 0
    else SummariesTotal(summaries[..|summaries| - 1]) + summaries[|summaries| - 1].count
  }

  lemma {:induction false} SummariesMatchGroups(groups: seq<(string, seq<int>)>, summaries: seq<CourseSummary>)
    requires |summaries| == |groups|
    requires forall k :: 0 <= k < |groups| ==> summaries[k].count == |groups[k].1|
    ensures SummariesTotal(summaries) == GroupsTotal(groups)
  {
    var n := |groups|;
    if n > 0 {
      SummariesMatchGroups(groups[..n - 1], summaries[..n - 1]);
    }
  }
}
