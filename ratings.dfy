/** The rating table: the current rating screen (user/usuario.py
    `avaliar_curso`), which reaches a course through the level menu and
    stamps the rating with the time, and the older one (usuario.py
    `avaliar_curso`), which numbers the whole catalogue. A score is an integer
    from 1 to 5, and a user rates a course name at most once. */
module Ratings {
  import opened Base
  import opened Records
  import opened Selection
  import UsageStatistics

  const MinScore: int := 1
  const MaxScore: int := 5

  /** `any(av["usuario"] == usuario and av["curso"] == nome for av in avaliacoes)` */
  predicate Rated(ratings: seq<Rating>, user: string, course: string) {
    exists i :: 0 <= i < |ratings| && ratings[i].user == user && ratings[i].course == course
  }

  /** Every score is in range and no user rated a course name twice. */
  predicate Sound(ratings: seq<Rating>) {
    && (forall i :: 0 <= i < |ratings| ==> MinScore <= ratings[i].score <= MaxScore)
    && (forall i, j :: 0 <= i < j < |ratings| ==>
          !(ratings[i].user == ratings[j].user && ratings[i].course == ratings[j].course))
  }

  /** The older screen's duplicate scan: a loop that stops at the first
      rating of the pair. */
  method HasRated(ratings: seq<Rating>, user: string, course: string) returns (found: bool)
    ensures found <==> Rated(ratings, user, course)
  {
    var i := 0;
    while i < |ratings|
      invariant 0 <= i <= |ratings|
      invariant forall j :: 0 <= j < i ==> !(ratings[j].user == user && ratings[j].course == course)
    {
      if ratings[i].user == user && ratings[i].course == course {
        return true;
      }
      i := i + 1;
    }
    return false;
  }

  datatype RatingError =
    | NoCourses        // the catalogue is empty
    | NotSelected      // the menus went back or refused the answer
    | AlreadyRated     // the user already rated that course name
    | ScoreNotInteger  // `int()` refuses the text
    | ScoreOutOfRange  // outside 1..5

  /** `int(text)` within 1..5. */
  predicate ValidScore(text: string) {
    ParseInt(text).Some? && MinScore <= ParseInt(text).value <= MaxScore
  }

  /** The checks after a course is chosen: the duplicate check, then the
      score; on success the rating to append, carrying the course's level at
      this moment. */
  function RateChosen(ratings: seq<Rating>, user: string, course: Course, scoreText: string,
                      timestamp: Option<string>): (r: Result<Rating, RatingError>)
    ensures r.Ok? <==> !Rated(ratings, user, course.name) && ValidScore(scoreText)
    ensures r == Err(AlreadyRated) <==> Rated(ratings, user, course.name)
    ensures r.Ok? ==> r.value == Rating(user, course.name, course.level, ParseInt(scoreText).value, timestamp)
    ensures r.Ok? && Sound(ratings) ==> Sound(ratings + [r.value])
  {
    if Rated(ratings, user, course.name) then Err(AlreadyRated)
    else match ParseInt(scoreText)
      case None => Err(ScoreNotInteger)
      case Some(score) =>
        if score < MinScore || score > MaxScore then Err(ScoreOutOfRange)
        else
          var rating := Rating(user, course.name, course.level, score, timestamp);
          assert forall i :: 0 <= i < |ratings| ==> (ratings + [rating])[i] == ratings[i];
          Ok(rating)
  }

  /** The current screen: level option, course answer, score, stamped with `now`. */
  function Rate(ratings: seq<Rating>, courses: seq<Course>, user: string,
                levelOption: string, courseAnswer: string, scoreText: string, now: string)
    : (r: Result<Rating, RatingError>)
    ensures r == Err(NoCourses) <==> |courses| == 0
    ensures r.Ok? <==> |courses| > 0 && SelectCourse(courses, levelOption, courseAnswer).Some?
                       && !Rated(ratings, user, SelectCourse(courses, levelOption, courseAnswer).value.name)
                       && ValidScore(scoreText)
    ensures r.Ok? ==> var c := SelectCourse(courses, levelOption, courseAnswer).value;
                      c in courses && r.value == Rating(user, c.name, c.level, ParseInt(scoreText).value, Some(now))
  {
    if |courses| == 0 then Err(NoCourses)
    else match SelectCourse(courses, levelOption, courseAnswer)
      case None => Err(NotSelected)
      case Some(c) => RateChosen(ratings, user, c, scoreText, Some(now))
  }

  /** The older screen's course answer: `int(text)` between 1 and the number
      of courses picks that course of the whole catalogue. */
  function ChooseLegacy(courses: seq<Course>, answer: string): (r: Option<nat>)
    ensures r.Some? <==> ParseInt(answer).Some? && 1 <= ParseInt(answer).value <= |courses|
    ensures r.Some? ==> r.value < |courses| && ParseInt(answer).value == r.value + 1
  {
    match ParseInt(answer)
    case None => None
    case Some(n) => if 1 <= n <= |courses| then Some(n - 1) else None
  }

  /** The older screen: course number, duplicate check, score; no timestamp. */
  function RateLegacy(ratings: seq<Rating>, courses: seq<Course>, user: string,
                      courseAnswer: string, scoreText: string): (r: Result<Rating, RatingError>)
    ensures r == Err(NoCourses) <==> |courses| == 0
    ensures r.Ok? <==> |courses| > 0 && ChooseLegacy(courses, courseAnswer).Some?
                       && !Rated(ratings, user, courses[ChooseLegacy(courses, courseAnswer).value].name)
                       && ValidScore(scoreText)
    ensures |courses| > 0 && ChooseLegacy(courses, courseAnswer).Some? ==>
              r == RateChosen(ratings, user, courses[ChooseLegacy(courses, courseAnswer).value], scoreText, None)
    ensures r.Ok? ==> var c := courses[ChooseLegacy(courses, courseAnswer).value];
                      r.value == Rating(user, c.name, c.level, ParseInt(scoreText).value, None)
    ensures r.Ok? ==> MinScore <= r.value.score <= MaxScore
  {
    if |courses| == 0 then Err(NoCourses)
    else match ChooseLegacy(courses, courseAnswer)
      case None => Err(NotSelected)
      case Some(k) => RateChosen(ratings, user, courses[k], scoreText, None)
  }

  // ---------------------------------------------------------------------
  // What the statistics screen sees of the rating table

  function Rows(ratings: seq<Rating>): (r: seq<UsageStatistics.RatingRow>)
    ensures |r| == |ratings|
  {
    if |ratings| == 0 then []
    else Rows(ratings[..|ratings| - 1]) + [UsageStatistics.RowOf(ratings[|ratings| - 1])]
  }

  /** A new rating adds its score to its course's group, at the end, and
      leaves every other course's group as it was. */
  lemma RatingFeedsStatistics(ratings: seq<Rating>, r: Rating, course: string)
    ensures UsageStatistics.ScoresFor(Rows(ratings + [r]), course)
         == UsageStatistics.ScoresFor(Rows(ratings), course) + (if course == r.course then [r.score] else [])
  {
    assert (ratings + [r])[..|ratings|] == ratings;
  }

  /** The rating table. */
  class RatingLedger {
    var ratings: seq<Rating>

    constructor(ratings0: seq<Rating>)
      ensures ratings == ratings0
    {
      ratings := ratings0;
    }

    /** `avaliar_curso` (current variant). */
    method Submit(courses: seq<Course>, user: string, levelOption: string, courseAnswer: string,
                  scoreText: string, now: string) returns (r: Result<Rating, RatingError>)
      modifies this
      ensures r == Rate(old(ratings), courses, user, levelOption, courseAnswer, scoreText, now)
      ensures r.Ok? ==> ratings == old(ratings) + [r.value]
      ensures r.Err? ==> ratings == old(ratings)
      ensures Sound(old(ratings)) ==> Sound(ratings)
    {
      r := Rate(ratings, courses, user, levelOption, courseAnswer, scoreText, now);
      if r.Ok? {
        ratings := ratings + [r.value];
      }
    }

    /** `avaliar_curso` (older variant): the duplicate scan is a loop. */
    method SubmitLegacy(courses: seq<Course>, user: string, courseAnswer: string, scoreText: string)
      returns (r: Result<Rating, RatingError>)
      modifies this
      ensures r == RateLegacy(old(ratings), courses, user, courseAnswer, scoreText)
      ensures r.Ok? ==> ratings == old(ratings) + [r.value]
      ensures r.Err? ==> ratings == old(ratings)
      ensures Sound(old(ratings)) ==> Sound(ratings)
    {
      if |courses| == 0 {
        return Err(NoCourses);
      }
      var choice := ChooseLegacy(courses, courseAnswer);
      if choice.None? {
        return Err(NotSelected);
      }
      var course := courses[choice.value];
      var seen := HasRated(ratings, user, course.name);
      if seen {
        return Err(AlreadyRated);
      }
      r := RateChosen(ratings, user, course, scoreText, None);
      if r.Ok? {
        ratings := ratings + [r.value];
      }
    }
  }
}
