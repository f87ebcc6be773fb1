/** The older administrator screens of admin.py: the general statistics
    (`ver_estatisticas`), the mean score per course (`ver_avaliacoes`) and per
    level (`ver_avaliacoes_por_nivel`). */
module AdminReports {
  import opened Base
  import opened Records
  import opened Numbers
  import Users
  import UsageStatistics
  import Ratings

  /** Users whose stored gender is `g`. */
  function GenderCount(users: seq<User>, g: string): nat {
    if |users| == 0 then 0
    else GenderCount(users[..|users| - 1], g) + (if users[|users| - 1].gender == Some(g) then 1 else 0)
  }

  /** The counting loop of `ver_estatisticas`: only "masculino" and
      "feminino" are counted. */
  method CountGenders(users: seq<User>) returns (male: nat, female: nat)
    ensures male == GenderCount(users, Users.Male) && female == GenderCount(users, Users.Female)
  {
    male, female := 0, 0;
    for i := 0 to |users|
      invariant male == GenderCount(users[..i], Users.Male)
      invariant female == GenderCount(users[..i], Users.Female)
    {
      assert users[..i + 1][..i] == users[..i];
      if users[i].gender == Some(Users.Male) {
        male := male + 1;
      } else if users[i].gender == Some(Users.Female) {
        female := female + 1;
      }
    }
    assert users[..|users|] == users;
  }

  /** The two counts never exceed the number of users. */
  lemma {:induction false} GenderCountsBounded(users: seq<User>)
    ensures GenderCount(users, Users.Male) + GenderCount(users, Users.Female) <= |users|
  {
    if |users| > 0 {
      GenderCountsBounded(users[..|users| - 1]);
    }
  }

  /** The older count agrees with the current screen's tally of the gender list. */
  lemma {:induction false} GenderCountIsTally(users: seq<User>, g: string)
    ensures GenderCount(users, g) == Occurrences(UsageStatistics.Genders(users), g)
  {
    if |users| > 0 {
      var n := |users|;
      var last := users[n - 1];
      GenderCountIsTally(users[..n - 1], g);
      var prefix := UsageStatistics.Genders(users[..n - 1]);
      if last.gender.Some? {
        OccurrencesSnoc(prefix, g, last.gender.value);
      } else {
        assert UsageStatistics.Genders(users) == prefix;
      }
    }
  }

  datatype SystemStatistics = SystemStatistics(totalAccesses: nat, male: nat, female: nat)

  /** `ver_estatisticas`: every entry of the access table counts as one access. */
  method GeneralStatistics(entries: seq<AccessEntry>, users: seq<User>) returns (s: SystemStatistics)
    ensures s.totalAccesses == |entries|
    ensures s.male == GenderCount(users, Users.Male) && s.female == GenderCount(users, Users.Female)
    ensures s.male + s.female <= |users|
  {
    var male, female := CountGenders(users);
    GenderCountsBounded(users);
    s := SystemStatistics(|entries|, male, female);
  }

  // ---------------------------------------------------------------------
  // Mean scores

  /** `[a["nota"] for a in avaliacoes if a["curso"] == nome]` */
  function ScoresOf(ratings: seq<Rating>, course: string): (r: seq<int>)
    ensures |r| <= |ratings|
    ensures forall x :: x in r <==> exists i :: 0 <= i < |ratings| && ratings[i].course == course && ratings[i].score == x
  {
    if |ratings| == 0 then []
    else
      var last := ratings[|ratings| - 1];
      var prefix := ScoresOf(ratings[..|ratings| - 1], course);
      assert ratings == ratings[..|ratings| - 1] + [last];
      prefix + (if last.course == course then [last.score] else [])
  }

  /** The per-course list is the group the current statistics screen builds
      for that course. */
  lemma {:induction false} ScoresOfIsGroup(ratings: seq<Rating>, course: string)
    ensures ScoresOf(ratings, course) == UsageStatistics.ScoresFor(Ratings.Rows(ratings), course)
  {
    if |ratings| > 0 {
      var n := |ratings|;
      ScoresOfIsGroup(ratings[..n - 1], course);
      assert Ratings.Rows(ratings)[..n - 1] == Ratings.Rows(ratings[..n - 1]);
    }
  }

  /** The mean of a list of scores, or None where the screen reports that
      there is no rating; it lies between the lowest and the highest score. */
  function MeanScore(scores: seq<int>): (r: Option<real>)
    ensures r.None? <==> |scores| == 0
    ensures r.Some? ==> r.value == Mean(UsageStatistics.ToReals(scores))
    ensures r.Some? ==> r.value == Sum(UsageStatistics.ToReals(scores)) / (|scores| as real)
    ensures r.Some? ==> UsageStatistics.MinOf(scores) as real <= r.value <= UsageStatistics.MaxOf(scores) as real
  {
    if |scores| == 0 then None
    else
      var values := UsageStatistics.ToReals(scores);
      var lo, hi := UsageStatistics.MinOf(scores), UsageStatistics.MaxOf(scores);
      MeanBetween(values, lo as real, hi as real);
      Some(Mean(values))
  }

  /** Scores all within 1..5 have a mean within 1..5. */
  lemma MeanScoreInRange(scores: seq<int>)
    requires forall i :: 0 <= i < |scores| ==> 1 <= scores[i] <= 5
    ensures MeanScore(scores).Some? ==> 1.0 <= MeanScore(scores).value <= 5.0
  {
    if |scores| > 0 {
      var lo, hi := UsageStatistics.MinOf(scores), UsageStatistics.MaxOf(scores);
      assert lo in scores && hi in scores;
    }
  }

  datatype CourseAverage = CourseAverage(course: string, count: nat, mean: Option<real>)

  /** `ver_avaliacoes`: one line per course, in catalogue order; None when
      there is no course. */
  function CourseAverages(courses: seq<Course>, ratings: seq<Rating>): (r: Option<seq<CourseAverage>>)
    ensures r.None? <==> |courses| == 0
    ensures r.Some? ==> |r.value| == |courses|
    ensures r.Some? ==> forall i :: 0 <= i < |courses| ==>
              r.value[i].course == courses[i].name
              && r.value[i].count == |ScoresOf(ratings, courses[i].name)|
              && (r.value[i].mean.None? <==> forall j :: 0 <= j < |ratings| ==> ratings[j].course != courses[i].name)
              && r.value[i].mean == MeanScore(ScoresOf(ratings, courses[i].name))
  {
    if |courses| == 0 then None
    else
      var lines := seq(|courses|, i requires 0 <= i < |courses| =>
        var scores := ScoresOf(ratings, courses[i].name);
        CourseAverage(courses[i].name, |scores|, MeanScore(scores)));
      assert forall i :: 0 <= i < |courses| ==>
               (lines[i].mean.None? <==> forall j :: 0 <= j < |ratings| ==> ratings[j].course != courses[i].name) by {
        forall i | 0 <= i < |courses|
          ensures lines[i].mean.None? <==> forall j :: 0 <= j < |ratings| ==> ratings[j].course != courses[i].name
        {
          NoScoresOf(ratings, courses[i].name);
        }
      }
      Some(lines)
  }

  lemma {:induction false} NoScoresOf(ratings: seq<Rating>, course: string)
    ensures |ScoresOf(ratings, course)| == 0 <==> forall j :: 0 <= j < |ratings| ==> ratings[j].course != course
  {
    if |ratings| > 0 {
      var n := |ratings|;
      NoScoresOf(ratings[..n - 1], course);
      assert forall j :: 0 <= j < n - 1 ==> ratings[..n - 1][j] == ratings[j];
    }
  }

  /** On a sound rating table every reported course mean lies between 1 and 5. */
  lemma CourseMeanInRange(ratings: seq<Rating>, course: string)
    requires Ratings.Sound(ratings)
    ensures MeanScore(ScoresOf(ratings, course)).Some? ==> 1.0 <= MeanScore(ScoresOf(ratings, course)).value <= 5.0
  {
    var scores := ScoresOf(ratings, course);
    forall i | 0 <= i < |scores| ensures 1 <= scores[i] <= 5 {
      assert scores[i] in scores;
    }
    MeanScoreInRange(scores);
  }

  /** On a sound rating table every mean line of `ver_avaliacoes` lies between 1 and 5. */
  lemma CourseAveragesInRange(courses: seq<Course>, ratings: seq<Rating>)
    requires Ratings.Sound(ratings)
    ensures var r := CourseAverages(courses, ratings);
            r.Some? ==> forall i :: 0 <= i < |r.value| && r.value[i].mean.Some? ==> 1.0 <= r.value[i].mean.value <= 5.0
  {
    var r := CourseAverages(courses, ratings);
    if r.Some? {
      forall i | 0 <= i < |r.value| && r.value[i].mean.Some? ensures 1.0 <= r.value[i].mean.value <= 5.0 {
        CourseMeanInRange(ratings, courses[i].name);
      }
    }
  }

  /** `[a["nota"] for a in avaliacoes if a.get("nivel") == nivel]`: the level
      the rating stored when it was made. */
  function ScoresAtLevel(ratings: seq<Rating>, level: string): (r: seq<int>)
    ensures |r| <= |ratings|
    ensures forall x :: x in r <==> exists i :: 0 <= i < |ratings| && ratings[i].level == level && ratings[i].score == x
  {
    if |ratings| == 0 then []
    else
      var last := ratings[|ratings| - 1];
      assert ratings == ratings[..|ratings| - 1] + [last];
      ScoresAtLevel(ratings[..|ratings| - 1], level) + (if last.level == level then [last.score] else [])
  }

  datatype LevelAverage = LevelAverage(level: string, count: nat, mean: Option<real>)

  /** `ver_avaliacoes_por_nivel`: one line per level of the fixed list; None
      when there is no rating. */
  function LevelAverages(ratings: seq<Rating>): (r: Option<seq<LevelAverage>>)
    ensures r.None? <==> |ratings| == 0
    ensures r.Some? ==> |r.value| == |Levels|
    ensures r.Some? ==> forall i :: 0 <= i < |Levels| ==>
              r.value[i].level == Levels[i] && r.value[i].count == |ScoresAtLevel(ratings, Levels[i])|
              && (r.value[i].mean.None? <==> |ScoresAtLevel(ratings, Levels[i])| == 0)
              && r.value[i].mean == MeanScore(ScoresAtLevel(ratings, Levels[i]))
  {
    if |ratings| == 0 then None
    else
      Some(seq(|Levels|, i requires 0 <= i < |Levels| =>
        var scores := ScoresAtLevel(ratings, Levels[i]);
        LevelAverage(Levels[i], |scores|, MeanScore(scores))))
  }

  /** On a sound rating table every mean line of `ver_avaliacoes_por_nivel`
      lies between 1 and 5. */
  lemma LevelAveragesInRange(ratings: seq<Rating>)
    requires Ratings.Sound(ratings)
    ensures var r := LevelAverages(ratings);
            r.Some? ==> forall i :: 0 <= i < |r.value| && r.value[i].mean.Some? ==> 1.0 <= r.value[i].mean.value <= 5.0
  {
    var r := LevelAverages(ratings);
    if r.Some? {
      forall i | 0 <= i < |r.value| && r.value[i].mean.Some? ensures 1.0 <= r.value[i].mean.value <= 5.0 {
        var scores := ScoresAtLevel(ratings, Levels[i]);
        forall j | 0 <= j < |scores| ensures 1 <= scores[j] <= 5 {
          assert scores[j] in scores;
        }
        MeanScoreInRange(scores);
      }
    }
  }

  /** Every rating is counted under the level it stored, whatever the
      course's level is now: the three level lines together count exactly the
      ratings whose stored level is one of the three. */
  lemma {:induction false} LevelCountsPartition(ratings: seq<Rating>)
    ensures |ScoresAtLevel(ratings, Beginner)| + |ScoresAtLevel(ratings, Intermediate)| + |ScoresAtLevel(ratings, Advanced)|
         == |ratings| - OtherLevels(ratings)
  {
    if |ratings| > 0 {
      LevelCountsPartition(ratings[..|ratings| - 1]);
    }
  }

  /** Ratings whose stored level is none of the three. */
  function OtherLevels(ratings: seq<Rating>): nat {
    if |ratings| == 0 then 0
    else
      var last := ratings[|ratings| - 1];
      OtherLevels(ratings[..|ratings| - 1])
        + (if last.level in Levels then 0 else 1)
  }
}
