/** The course catalogue as the administrator maintains it: creating a course
    (admins/admin.py `cadastrar_curso`, capped at 7 courses per level with
    content limited to 5000 characters, and the older admin.py
    `cadastrar_curso`, capped at 5 with unlimited content), editing one in
    place (`editar_curso`) and deleting one by position (`excluir_curso`).
    Course names are unique up to case. */
module Catalogue {
  import opened Base
  import opened Records
  import opened Selection

  const Sentinel: string := "salvar curso"
  const MaxContent: nat := 5000
  const LevelCap: nat := 7
  const LegacyLevelCap: nat := 5

  // ---------------------------------------------------------------------
  // Reading course content

  /** The content lines the current reader keeps: the lines typed before the
      sentinel, stopping before the first line that would bring the summed
      line lengths above `budget`. */
  function ContentLines(lines: seq<string>, budget: nat): (r: seq<string>)
    ensures r <= lines
    ensures Sentinel !in r
    ensures TotalLength(r) <= budget
    ensures |r| < |lines| ==> lines[|r|] == Sentinel || TotalLength(r) + |lines[|r|]| > budget
  {
    if |lines| == 0 || lines[0] == Sentinel || |lines[0]| > budget then []
    else
      var rest := ContentLines(lines[1..], budget - |lines[0]|);
      TotalLengthCons(lines[0], rest);
      assert lines == [lines[0]] + lines[1..];
      [lines[0]] + rest
  }

  /** One step of the reader over the unread lines. */
  lemma ContentLinesStep(lines: seq<string>, i: nat, budget: nat)
    requires i < |lines|
    ensures lines[i] == Sentinel || |lines[i]| > budget ==> ContentLines(lines[i..], budget) == []
    ensures lines[i] != Sentinel && |lines[i]| <= budget ==>
              ContentLines(lines[i..], budget) == [lines[i]] + ContentLines(lines[i + 1..], budget - |lines[i]|)
  {
    assert lines[i..][0] == lines[i];
    assert lines[i..][1..] == lines[i + 1..];
  }

  lemma ConcatAssoc<T>(a: seq<T>, b: seq<T>, c: seq<T>)
    ensures a + (b + c) == (a + b) + c
  {
  }

  /** A line the reader keeps moves from the unread part to the kept part. */
  lemma KeepLine(lines: seq<string>, i: nat, budget: nat, kept: seq<string>)
    requires i < |lines| && lines[i] != Sentinel && |lines[i]| <= budget
    requires ContentLines(lines, MaxContent) == kept + ContentLines(lines[i..], budget)
    ensures ContentLines(lines, MaxContent) == (kept + [lines[i]]) + ContentLines(lines[i + 1..], budget - |lines[i]|)
  {
    ContentLinesStep(lines, i, budget);
    ConcatAssoc(kept, [lines[i]], ContentLines(lines[i + 1..], budget - |lines[i]|));
  }

  /** A line the reader stops at ends the kept part. */
  lemma StopAt(lines: seq<string>, i: nat, budget: nat, kept: seq<string>)
    requires i <= |lines| && (i == |lines| || lines[i] == Sentinel || |lines[i]| > budget)
    requires ContentLines(lines, MaxContent) == kept + ContentLines(lines[i..], budget)
    ensures ContentLines(lines, MaxContent) == kept
  {
    if i < |lines| {
      ContentLinesStep(lines, i, budget);
    }
  }

  /** The reading loop of the current `cadastrar_curso` and `editar_curso`:
      `lines` is what the operator types, one line per `input()`; reading
      also stops when the lines run out. */
  method ReadContent(lines: seq<string>) returns (kept: seq<string>)
    ensures kept == ContentLines(lines, MaxContent)
  {
    kept := [];
    var total := 0;
    var budget: nat := MaxContent;   // what is left of the limit
    var i := 0;
    assert lines[0..] == lines;
    while i < |lines|
      invariant 0 <= i <= |lines|
      invariant total + budget == MaxContent
      invariant ContentLines(lines, MaxContent) == kept + ContentLines(lines[i..], budget)
    {
      var line := lines[i];
      if line == Sentinel {
        StopAt(lines, i, budget, kept);
        return;
      }
      total := total + |line|;
      if total > MaxContent {
        StopAt(lines, i, budget, kept);
        return;
      }
      KeepLine(lines, i, budget, kept);
      budget := budget - |line|;
      kept := kept + [line];
      i := i + 1;
    }
    StopAt(lines, i, budget, kept);
  }

  /** What is stored holds at most 5000 characters besides the separators. */
  lemma StoredContentWithinLimit(lines: seq<string>)
    requires forall i :: 0 <= i < |lines| ==> NoNewline(lines[i])
    ensures CountNonNewline(Join(ContentLines(lines, MaxContent))) <= MaxContent
  {
    var kept := ContentLines(lines, MaxContent);
    assert forall i :: 0 <= i < |kept| ==> kept[i] == lines[i];
    JoinCharacters(kept);
  }

  /** The older reader: every line before the sentinel, however long. */
  function LinesBefore(lines: seq<string>): (r: seq<string>)
    ensures r <= lines
    ensures Sentinel !in r
    ensures |r| < |lines| ==> lines[|r|] == Sentinel
  {
    if |lines| == 0 || lines[0] == Sentinel then []
    else
      assert lines == [lines[0]] + lines[1..];
      [lines[0]] + LinesBefore(lines[1..])
  }

  lemma LinesBeforeStep(lines: seq<string>, i: nat)
    requires i < |lines|
    ensures lines[i] == Sentinel ==> LinesBefore(lines[i..]) == []
    ensures lines[i] != Sentinel ==> LinesBefore(lines[i..]) == [lines[i]] + LinesBefore(lines[i + 1..])
  {
    assert lines[i..][0] == lines[i];
    assert lines[i..][1..] == lines[i + 1..];
  }

  lemma KeepLineLegacy(lines: seq<string>, i: nat, kept: seq<string>)
    requires i < |lines| && lines[i] != Sentinel
    requires LinesBefore(lines) == kept + LinesBefore(lines[i..])
    ensures LinesBefore(lines) == (kept + [lines[i]]) + LinesBefore(lines[i + 1..])
  {
    LinesBeforeStep(lines, i);
    ConcatAssoc(kept, [lines[i]], LinesBefore(lines[i + 1..]));
  }

  lemma StopAtLegacy(lines: seq<string>, i: nat, kept: seq<string>)
    requires i <= |lines| && (i == |lines| || lines[i] == Sentinel)
    requires LinesBefore(lines) == kept + LinesBefore(lines[i..])
    ensures LinesBefore(lines) == kept
  {
    if i < |lines| {
      LinesBeforeStep(lines, i);
    }
  }

  /** The reading loop of the older `cadastrar_curso`. */
  method ReadContentLegacy(lines: seq<string>) returns (kept: seq<string>)
    ensures kept == LinesBefore(lines)
  {
    kept := [];
    var i := 0;
    assert lines[0..] == lines;
    while i < |lines|
      invariant 0 <= i <= |lines|
      invariant LinesBefore(lines) == kept + LinesBefore(lines[i..])
    {
      if lines[i] == Sentinel {
        StopAtLegacy(lines, i, kept);
        return;
      }
      KeepLineLegacy(lines, i, kept);
      kept := kept + [lines[i]];
      i := i + 1;
    }
    StopAtLegacy(lines, i, kept);
  }

  // ---------------------------------------------------------------------
  // Catalogue invariants

  /** `any(c["nome"].lower() == nome.lower() for c in cursos)` */
  predicate TitleTaken(courses: seq<Course>, name: string) {
    exists i :: 0 <= i < |courses| && Lower(courses[i].name) == Lower(name)
  }

  predicate DistinctTitles(courses: seq<Course>) {
    forall i, j :: 0 <= i < j < |courses| ==> Lower(courses[i].name) != Lower(courses[j].name)
  }

  ghost predicate WithinCap(courses: seq<Course>, cap: nat) {
    forall level :: CountAtLevel(courses, level) <= cap
  }

  /** Names unique up to case and at most `cap` courses at any level. */
  ghost predicate CatalogueSound(courses: seq<Course>, cap: nat) {
    DistinctTitles(courses) && WithinCap(courses, cap)
  }

  lemma {:induction false} CoursesAtLevelConcat(a: seq<Course>, b: seq<Course>, level: string)
    ensures CoursesAtLevel(a + b, level) == CoursesAtLevel(a, level) + CoursesAtLevel(b, level)
    decreases |b|
  {
    if |b| > 0 {
      var n := |b|;
      assert (a + b)[..|a + b| - 1] == a + b[..n - 1];
      assert (a + b)[|a + b| - 1] == b[n - 1];
      CoursesAtLevelConcat(a, b[..n - 1], level);
    } else {
      assert a + b == a;
    }
  }

  /** Overwriting one course moves at most one unit of count between levels. */
  lemma CountAtLevelUpdate(courses: seq<Course>, k: nat, x: Course, level: string)
    requires k < |courses|
    ensures CountAtLevel(courses[k := x], level)
         == CountAtLevel(courses, level) - (if courses[k].level == level then 1 else 0)
                                         + (if x.level == level then 1 else 0)
  {
    var a, b := courses[..k], courses[k + 1..];
    assert courses == a + [courses[k]] + b;
    assert courses[k := x] == a + [x] + b;
    CoursesAtLevelConcat(a + [courses[k]], b, level);
    CoursesAtLevelConcat(a, [courses[k]], level);
    CoursesAtLevelConcat(a + [x], b, level);
    CoursesAtLevelConcat(a, [x], level);
    assert CoursesAtLevel([courses[k]], level) == CoursesAtLevel([], level) + (if courses[k].level == level then [courses[k]] else []);
    assert CoursesAtLevel([x], level) == CoursesAtLevel([], level) + (if x.level == level then [x] else []);
  }

  /** Removing one course lowers its level's count by one and no other. */
  lemma CountAtLevelRemove(courses: seq<Course>, k: nat, level: string)
    requires k < |courses|
    ensures CountAtLevel(courses[..k] + courses[k + 1..], level)
         == CountAtLevel(courses, level) - (if courses[k].level == level then 1 else 0)
  {
    var a, b := courses[..k], courses[k + 1..];
    assert courses == a + [courses[k]] + b;
    CoursesAtLevelConcat(a + [courses[k]], b, level);
    CoursesAtLevelConcat(a, [courses[k]], level);
    CoursesAtLevelConcat(a, b, level);
    assert CoursesAtLevel([courses[k]], level) == CoursesAtLevel([], level) + (if courses[k].level == level then [courses[k]] else []);
  }

  // ---------------------------------------------------------------------
  // Creating a course

  datatype CourseError = InvalidLevel | LevelFull | DuplicateName

  /** The checks of `cadastrar_curso`, in order, with the level cap `cap`;
      on success the level of the new course. */
  function CheckNewCourse(courses: seq<Course>, levelOption: string, name: string, cap: nat)
    : (r: Result<string, CourseError>)
    ensures r == Err(InvalidLevel) <==> LevelForOption(levelOption).None?
    ensures r.Ok? <==> LevelForOption(levelOption).Some?
                       && CountAtLevel(courses, LevelForOption(levelOption).value) < cap
                       && !TitleTaken(courses, name)
    ensures r.Ok? ==> r.value == LevelForOption(levelOption).value && r.value in Levels
  {
    match LevelForOption(levelOption)
    case None => Err(InvalidLevel)
    case Some(level) =>
      if CountAtLevel(courses, level) >= cap then Err(LevelFull)
      else if TitleTaken(courses, name) then Err(DuplicateName)
      else Ok(level)
  }

  /** A course that passes the checks keeps the catalogue sound. */
  lemma NewCourseKeepsSound(courses: seq<Course>, c: Course, cap: nat)
    requires CatalogueSound(courses, cap)
    requires CountAtLevel(courses, c.level) < cap && !TitleTaken(courses, c.name)
    ensures CatalogueSound(courses + [c], cap)
  {
    forall level ensures CountAtLevel(courses + [c], level) <= cap {
      CountAtLevelAppend(courses, c, level);
    }
    var cs := courses + [c];
    forall i, j | 0 <= i < j < |cs| ensures Lower(cs[i].name) != Lower(cs[j].name) {
      if j == |courses| {
        assert cs[i] == courses[i];
      } else {
        assert cs[i] == courses[i] && cs[j] == courses[j];
      }
    }
  }

  // ---------------------------------------------------------------------
  // Editing a course

  /** Another course, not equal to the chosen one, has the new name up to case. */
  predicate RenameClash(courses: seq<Course>, k: nat, newName: string)
    requires k < |courses|
  {
    exists j :: 0 <= j < |courses| && Lower(courses[j].name) == Lower(newName) && courses[j] != courses[k]
  }

  /** `[c for c in cursos if c["nivel"] == nivel and c != curso]`, counted. */
  function CountOthers(courses: seq<Course>, level: string, c: Course): nat {
    if |courses| == 0 then 0
    else
      var last := courses[|courses| - 1];
      CountOthers(courses[..|courses| - 1], level, c) + (if last.level == level && last != c then 1 else 0)
  }

  /** When `c` occurs once in the list, the others at a level are the level's
      count less `c` itself. */
  lemma {:induction false} CountOthersOnce(courses: seq<Course>, level: string, k: nat)
    requires k < |courses|
    requires forall j :: 0 <= j < |courses| && j != k ==> courses[j] != courses[k]
    ensures CountOthers(courses, level, courses[k]) + (if courses[k].level == level then 1 else 0)
         == CountAtLevel(courses, level)
  {
    var n := |courses|;
    var prefix := courses[..n - 1];
    assert courses == prefix + [courses[n - 1]];
    CountAtLevelAppend(prefix, courses[n - 1], level);
    if k < n - 1 {
      CountOthersOnce(prefix, level, k);
    } else {
      CountOthersAbsent(prefix, level, courses[k]);
    }
  }

  lemma {:induction false} CountOthersAbsent(courses: seq<Course>, level: string, c: Course)
    requires forall j :: 0 <= j < |courses| ==> courses[j] != c
    ensures CountOthers(courses, level, c) == CountAtLevel(courses, level)
  {
    if |courses| > 0 {
      var n := |courses|;
      var prefix := courses[..n - 1];
      assert courses == prefix + [courses[n - 1]];
      CountAtLevelAppend(prefix, courses[n - 1], level);
      CountOthersAbsent(prefix, level, c);
    }
  }

  /** The course as `editar_curso` leaves it, given the chosen position, the
      new name ("" keeps it), the content lines kept by the reader (none keeps
      the old content) and the level option ("" keeps the level); None when
      the rename is refused and nothing is saved. An unknown level option, or
      a level already holding 7 other courses, keeps the level. */
  function EditedCourse(courses: seq<Course>, k: nat, newName: string, kept: seq<string>, levelOption: string)
    : (r: Option<Course>)
    requires k < |courses|
    ensures r.None? <==> newName != "" && RenameClash(courses, k, newName)
    ensures r.Some? ==> r.value.name == (if newName == "" then courses[k].name else newName)
    ensures r.Some? ==> r.value.content == (if kept == [] then courses[k].content else Join(kept))
    ensures r.Some? && r.value.level != courses[k].level ==>
              LevelForOption(levelOption) == Some(r.value.level)
              && CountOthers(courses[k := r.value.(level := courses[k].level)], r.value.level,
                             r.value.(level := courses[k].level)) < LevelCap
    ensures r.Some? && LevelForOption(levelOption).None? ==> r.value.level == courses[k].level
    ensures r.Some? && LevelForOption(levelOption).Some? ==>
              var same := r.value.(level := courses[k].level);
              var level := LevelForOption(levelOption).value;
              r.value.level == (if CountOthers(courses[k := same], level, same) < LevelCap then level else courses[k].level)
  {
    var c := courses[k];
    if newName != "" && RenameClash(courses, k, newName) then None
    else
      var named := if newName != "" then c.(name := newName) else c;
      var filled := if kept != [] then named.(content := Join(kept)) else named;
      match LevelForOption(levelOption)
      case None => Some(filled)
      case Some(level) =>
        if CountOthers(courses[k := filled], level, filled) >= LevelCap then Some(filled)
        else Some(filled.(level := level))
  }

  /** The two checks of `editar_curso` keep the catalogue sound. */
  lemma EditKeepsSound(courses: seq<Course>, k: nat, newName: string, kept: seq<string>, levelOption: string)
    requires k < |courses| && CatalogueSound(courses, LevelCap)
    requires EditedCourse(courses, k, newName, kept, levelOption).Some?
    ensures CatalogueSound(courses[k := EditedCourse(courses, k, newName, kept, levelOption).value], LevelCap)
  {
    var e := EditedCourse(courses, k, newName, kept, levelOption).value;
    var cs := courses[k := e];
    // the new name clashes with no other course
    forall j | 0 <= j < |courses| && j != k ensures Lower(courses[j].name) != Lower(e.name) {
      assert Lower(courses[j].name) != Lower(courses[k].name) by {
        if j < k { } else { }
      }
      if newName != "" {
        assert !RenameClash(courses, k, newName);
      }
    }
    forall i, j | 0 <= i < j < |cs| ensures Lower(cs[i].name) != Lower(cs[j].name) {
      if i != k && j != k {
        assert cs[i] == courses[i] && cs[j] == courses[j];
      }
    }
    forall level ensures CountAtLevel(cs, level) <= LevelCap {
      CountAtLevelUpdate(courses, k, e, level);
      if e.level != courses[k].level && level == e.level {
        var filled := e.(level := courses[k].level);
        var fs := courses[k := filled];
        forall j | 0 <= j < |fs| && j != k ensures fs[j] != fs[k] {
          assert Lower(fs[j].name) != Lower(filled.name);
        }
        CountOthersOnce(fs, level, k);
        CountAtLevelUpdate(courses, k, filled, level);
      }
    }
  }

  // ---------------------------------------------------------------------
  // Removing a course

  lemma RemoveKeepsSound(courses: seq<Course>, k: nat, cap: nat)
    requires k < |courses| && CatalogueSound(courses, cap)
    ensures CatalogueSound(courses[..k] + courses[k + 1..], cap)
  {
    var cs := courses[..k] + courses[k + 1..];
    forall level ensures CountAtLevel(cs, level) <= cap {
      CountAtLevelRemove(courses, k, level);
    }
    forall i, j | 0 <= i < j < |cs| ensures Lower(cs[i].name) != Lower(cs[j].name) {
      var i' := if i < k then i else i + 1;
      var j' := if j < k then j else j + 1;
      assert cs[i] == courses[i'] && cs[j] == courses[j'];
    }
  }

  // ---------------------------------------------------------------------
  // The catalogue table

  datatype EditError = NothingToEdit | EditCancelled | InvalidChoice | NameInUse
  datatype DeleteError = NothingToDelete | DeleteCancelled | NotAChoice

  class CourseCatalogue {
    var courses: seq<Course>

    constructor(courses0: seq<Course>)
      ensures courses == courses0
    {
      courses := courses0;
    }

    /** `cadastrar_curso` (admins/admin.py): level, cap of 7, name unique up
        to case, then the content reader. */
    method Create(levelOption: string, name: string, lines: seq<string>) returns (r: Result<Course, CourseError>)
      modifies this
      ensures r.Ok? <==> CheckNewCourse(old(courses), levelOption, name, LevelCap).Ok?
      ensures r.Err? ==> r.error == CheckNewCourse(old(courses), levelOption, name, LevelCap).error
                         && courses == old(courses)
      ensures r.Ok? ==> r.value == Course(name, Join(ContentLines(lines, MaxContent)),
                                          LevelForOption(levelOption).value)
                        && courses == old(courses) + [r.value]
      ensures CatalogueSound(old(courses), LevelCap) ==> CatalogueSound(courses, LevelCap)
    {
      var check := CheckNewCourse(courses, levelOption, name, LevelCap);
      if check.Err? {
        return Err(check.error);
      }
      var kept := ReadContent(lines);
      var c := Course(name, Join(kept), check.value);
      if CatalogueSound(courses, LevelCap) {
        NewCourseKeepsSound(courses, c, LevelCap);
      }
      courses := courses + [c];
      r := Ok(c);
    }

    /** `cadastrar_curso` (older admin.py): cap of 5 and no content limit. */
    method CreateLegacy(levelOption: string, name: string, lines: seq<string>) returns (r: Result<Course, CourseError>)
      modifies this
      ensures r.Ok? <==> CheckNewCourse(old(courses), levelOption, name, LegacyLevelCap).Ok?
      ensures r.Err? ==> r.error == CheckNewCourse(old(courses), levelOption, name, LegacyLevelCap).error
                         && courses == old(courses)
      ensures r.Ok? ==> r.value == Course(name, Join(LinesBefore(lines)), LevelForOption(levelOption).value)
                        && courses == old(courses) + [r.value]
      ensures CatalogueSound(old(courses), LegacyLevelCap) ==> CatalogueSound(courses, LegacyLevelCap)
    {
      var check := CheckNewCourse(courses, levelOption, name, LegacyLevelCap);
      if check.Err? {
        return Err(check.error);
      }
      var kept := ReadContentLegacy(lines);
      var c := Course(name, Join(kept), check.value);
      if CatalogueSound(courses, LegacyLevelCap) {
        NewCourseKeepsSound(courses, c, LegacyLevelCap);
      }
      courses := courses + [c];
      r := Ok(c);
    }

    /** `editar_curso`: the numbered choice, the rename check, the content
        reader and the guarded level change; returns the edited position. */
    method Edit(choice: string, newName: string, lines: seq<string>, levelOption: string)
      returns (r: Result<nat, EditError>)
      modifies this
      ensures |old(courses)| == 0 ==> r == Err(NothingToEdit)
      ensures r.Ok? <==> |old(courses)| > 0 && MenuChoice(choice, |old(courses)|).Picked?
                         && EditedCourse(old(courses), MenuChoice(choice, |old(courses)|).index, newName,
                                         ContentLines(lines, MaxContent), levelOption).Some?
      ensures r.Ok? ==> MenuChoice(choice, |old(courses)|) == Picked(r.value)
                        && courses == old(courses)[r.value := EditedCourse(old(courses), r.value, newName,
                                                         ContentLines(lines, MaxContent), levelOption).value]
      ensures r.Err? ==> courses == old(courses)
      ensures CatalogueSound(old(courses), LevelCap) ==> CatalogueSound(courses, LevelCap)
    {
      if |courses| == 0 {
        return Err(NothingToEdit);
      }
      match MenuChoice(choice, |courses|)
      case Back =>
        return Err(EditCancelled);
      case Invalid =>
        return Err(InvalidChoice);
      case Picked(k) =>
        var kept := ReadContent(lines);
        var edited := EditedCourse(courses, k, newName, kept, levelOption);
        if edited.None? {
          return Err(NameInUse);
        }
        if CatalogueSound(courses, LevelCap) {
          EditKeepsSound(courses, k, newName, kept, levelOption);
        }
        courses := courses[k := edited.value];
        r := Ok(k);
    }

    /** `excluir_curso`: the numbered choice, a confirmation ("s", any case),
        then `pop` of that position; returns the removed position. */
    method Delete(choice: string, confirm: string) returns (r: Result<nat, DeleteError>)
      modifies this
      ensures |old(courses)| == 0 ==> r == Err(NothingToDelete)
      ensures r.Ok? <==> |old(courses)| > 0 && MenuChoice(choice, |old(courses)|).Picked? && Lower(confirm) == "s"
      ensures r.Ok? ==> MenuChoice(choice, |old(courses)|) == Picked(r.value)
                        && courses == old(courses)[..r.value] + old(courses)[r.value + 1..]
      ensures r.Err? ==> courses == old(courses)
      ensures forall cap :: CatalogueSound(old(courses), cap) ==> CatalogueSound(courses, cap)
    {
      if |courses| == 0 {
        return Err(NothingToDelete);
      }
      match MenuChoice(choice, |courses|)
      case Back =>
        return Err(DeleteCancelled);
      case Invalid =>
        return Err(NotAChoice);
      case Picked(k) =>
        if Lower(confirm) != "s" {
          return Err(DeleteCancelled);
        }
        forall cap | CatalogueSound(courses, cap) ensures CatalogueSound(courses[..k] + courses[k + 1..], cap) {
          RemoveKeepsSound(courses, k, cap);
        }
        courses := courses[..k] + courses[k + 1..];
        r := Ok(k);
    }
  }
}
