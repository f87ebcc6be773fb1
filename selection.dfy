/** The numbered menus through which the operator picks a level and then a
    course: the level's course list and the reading of a menu answer. */
module Selection {
  import opened Base
  import opened Records

  /** `[c for c in cursos if c["nivel"] == nivel]` */
  function CoursesAtLevel(courses: seq<Course>, level: string): (r: seq<Course>)
    ensures |r| <= |courses|
    ensures forall c :: c in r <==> c in courses && c.level == level
  {
    if |courses| == 0 then []
    else
      var last := courses[|courses| - 1];
      assert courses == courses[..|courses| - 1] + [last];
      CoursesAtLevel(courses[..|courses| - 1], level) + (if last.level == level then [last] else [])
  }

  /** The number of courses at a level. */
  function CountAtLevel(courses: seq<Course>, level: string): nat {
    |CoursesAtLevel(courses, level)|
  }

  lemma {:induction false} CountAtLevelAppend(courses: seq<Course>, c: Course, level: string)
    ensures CountAtLevel(courses + [c], level) == CountAtLevel(courses, level) + (if c.level == level then 1 else 0)
  {
    assert (courses + [c])[..|courses|] == courses;
  }

  datatype Pick = Back | Invalid | Picked(index: nat)

  /** A numbered menu of `count` entries followed by a "back" entry: the
      answer `str(count + 1)` goes back; an answer that is not all digits or
      not between 1 and `count` is refused; otherwise it picks entry
      `int(answer) - 1`. */
  function MenuChoice(answer: string, count: nat): (r: Pick)
    ensures r.Back? <==> answer == NatToString(count + 1)
    ensures r.Picked? <==> (answer != NatToString(count + 1) && ParseNat(answer).Some?
                            && 1 <= ParseNat(answer).value <= count)
    ensures r.Picked? ==> r.index < count && ParseNat(answer) == Some(r.index + 1)
  {
    if answer == NatToString(count + 1) then Back
    else match ParseNat(answer)
      case None => Invalid
      case Some(n) => if 1 <= n <= count then Picked(n - 1) else Invalid
  }

  /** Typing an entry's number picks that entry. */
  lemma MenuChoiceOfNumber(k: nat, count: nat)
    requires 1 <= k <= count
    ensures MenuChoice(NatToString(k), count) == Picked(k - 1)
  {
    ParseNatToString(k);
    ParseNatToString(count + 1);
  }

  /** The course the operator reaches through the level menu and then the
      numbered course list: None when the level option is refused, the level
      has no course, or the course answer goes back or is refused. */
  function SelectCourse(courses: seq<Course>, levelOption: string, answer: string): (r: Option<Course>)
    ensures r.Some? ==> r.value in courses && LevelForOption(levelOption) == Some(r.value.level)
  {
    match LevelForOption(levelOption)
    case None => None
    case Some(level) =>
      var listed := CoursesAtLevel(courses, level);
      match MenuChoice(answer, |listed|)
      case Picked(k) => assert listed[k] in listed; Some(listed[k])
      case _ => None
  }

  /** Typing the number of a listed course reaches that course: entry `k` of
      the level's list, in catalogue order. */
  lemma SelectCourseByNumber(courses: seq<Course>, levelOption: string, level: string, k: nat)
    requires LevelForOption(levelOption) == Some(level)
    requires 1 <= k <= CountAtLevel(courses, level)
    ensures SelectCourse(courses, levelOption, NatToString(k)) == Some(CoursesAtLevel(courses, level)[k - 1])
  {
    MenuChoiceOfNumber(k, CountAtLevel(courses, level));
  }
}
