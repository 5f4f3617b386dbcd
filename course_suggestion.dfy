/** The quiz's course matcher (school_management/course_suggestion_logic.py):
    a fixed table of courses per age group, narrowed by age group, then by
    experience level, then by any shared learning goal; the first survivor's
    name is the suggestion. */
module CourseSuggestion {
  import opened Basics

  datatype Course = Course(name: string, experience: seq<string>, goals: seq<string>)

  /** One entry of the table: an age group and its courses, in order. */
  datatype AgeEntry = AgeEntry(ageGroup: string, courses: seq<Course>)

  const NoSuitableCourse := "No suitable course found."

  /** The shipped `courses` table. */
  const CourseTable: seq<AgeEntry> := [
    AgeEntry("6-8", [
      Course("Robot Explorers", ["Beginner", "Learner"],
             ["Creative Fun", "Future Education", "Innovation Exploration"])]),
    AgeEntry("9-12", [
      Course("Junior Robotics Innovators", ["Beginner", "Learner"],
             ["Creative Fun", "Innovation Exploration"]),
      Course("Robotics Project Designers", ["Learner", "Builder"],
             ["Future Education", "Innovation Exploration"])]),
    AgeEntry("13-15", [
      Course("Teen Robotics Fundamentals", ["Learner", "Builder"], ["Creative Fun"]),
      Course("Robotics Engineering Essentials", ["Builder", "Inventor"],
             ["Future Education", "Innovation Exploration"])]),
    AgeEntry("16-18", [
      Course("Advanced Robotics and AI", ["Inventor", "Builder"],
             ["Creative Fun", "Innovation Exploration"]),
      Course("Robotics Innovations and Careers", ["Inventor", "Builder"], ["Future Education"])])
  ]

  /** The courses of the first entry for `ageGroup`; none when there is no entry. */
  function FilterByAge(table: seq<AgeEntry>, ageGroup: string): (r: seq<Course>)
    ensures (forall i :: 0 <= i < |table| ==> table[i].ageGroup != ageGroup) ==> r == []
    ensures r == [] || exists i :: 0 <= i < |table| && table[i].ageGroup == ageGroup && r == table[i].courses
  {
    if table == [] then []
    else if table[0].ageGroup == ageGroup then table[0].courses
    else
      var rest := FilterByAge(table[1..], ageGroup);
      assert forall i :: 1 <= i < |table| ==> table[i] == table[1..][i - 1];
      rest
  }

  /** The courses come from the first entry whose age group matches. */
  lemma {:induction false} FilterByAgeFirstEntry(table: seq<AgeEntry>, ageGroup: string, i: nat)
    requires i < |table| && table[i].ageGroup == ageGroup
    requires forall j :: 0 <= j < i ==> table[j].ageGroup != ageGroup
    ensures FilterByAge(table, ageGroup) == table[i].courses
  {
    if i > 0 {
      var tail := table[1..];
      forall j | 0 <= j < i - 1 ensures tail[j].ageGroup != ageGroup {
        assert tail[j] == table[j + 1];
      }
      FilterByAgeFirstEntry(tail, ageGroup, i - 1);
    }
  }

  /** `experience in course["experience"]`. */
  function HasExperience(experience: string): Course -> bool
  {
    (c: Course) => experience in c.experience
  }

  /** `any(goal in course["goals"] for goal in learning_goals)`. */
  predicate SharesGoal(c: Course, goals: seq<string>)
  {
    exists g :: g in goals && g in c.goals
  }

  function SharesAnyGoal(goals: seq<string>): Course -> bool
  {
    (c: Course) => SharesGoal(c, goals)
  }

  function FilterByExperience(courses: seq<Course>, experience: string): (r: seq<Course>)
    ensures IsSubsequence(r, courses)
    ensures forall i :: 0 <= i < |r| ==> experience in r[i].experience
    ensures forall i :: 0 <= i < |courses| && experience in courses[i].experience ==> courses[i] in r
  {
    FilterIsSubsequence(courses, HasExperience(experience));
    Filter(courses, HasExperience(experience))
  }

  function FilterByGoals(courses: seq<Course>, goals: seq<string>): (r: seq<Course>)
    ensures IsSubsequence(r, courses)
    ensures forall i :: 0 <= i < |r| ==> SharesGoal(r[i], goals)
    ensures forall i :: 0 <= i < |courses| && SharesGoal(courses[i], goals) ==> courses[i] in r
    ensures goals == [] ==> r == []
  {
    FilterIsSubsequence(courses, SharesAnyGoal(goals));
    Filter(courses, SharesAnyGoal(goals))
  }

  /** The three filters in the order `select_course` applies them: the courses
      of the age group that have the level and share a goal, in table order. */
  function Matches(table: seq<AgeEntry>, ageGroup: string, experience: string, goals: seq<string>): (r: seq<Course>)
    ensures r == Filter(FilterByAge(table, ageGroup), SuitsRequest(experience, goals))
  {
    FilterFuse(FilterByAge(table, ageGroup), HasExperience(experience), SharesAnyGoal(goals),
               SuitsRequest(experience, goals));
    FilterByGoals(FilterByExperience(FilterByAge(table, ageGroup), experience), goals)
  }

  /** A course suits the request when it has the experience level and a goal. */
  predicate Suits(c: Course, experience: string, goals: seq<string>)
  {
    experience in c.experience && SharesGoal(c, goals)
  }

  function SuitsRequest(experience: string, goals: seq<string>): Course -> bool
  {
    (c: Course) => Suits(c, experience, goals)
  }

  predicate NoneSuitable(group: seq<Course>, experience: string, goals: seq<string>)
  {
    forall j :: 0 <= j < |group| ==> !Suits(group[j], experience, goals)
  }

  /** `group[i]` suits the request and no course before it does. */
  predicate FirstSuitableAt(group: seq<Course>, i: int, experience: string, goals: seq<string>)
  {
    && 0 <= i < |group| && Suits(group[i], experience, goals)
    && forall j :: 0 <= j < i ==> !Suits(group[j], experience, goals)
  }

  /** The suitable courses of a list are none exactly when none suits, and
      otherwise start with the first suitable course. */
  lemma SuitableCourses(group: seq<Course>, experience: string, goals: seq<string>)
    ensures Filter(group, SuitsRequest(experience, goals)) == [] <==> NoneSuitable(group, experience, goals)
    ensures forall i :: FirstSuitableAt(group, i, experience, goals) ==>
      Filter(group, SuitsRequest(experience, goals)) != [] && Filter(group, SuitsRequest(experience, goals))[0] == group[i]
    ensures Filter(group, SuitsRequest(experience, goals)) != [] ==>
      exists i :: FirstSuitableAt(group, i, experience, goals) && Filter(group, SuitsRequest(experience, goals))[0] == group[i]
  {
    var keep := SuitsRequest(experience, goals);
    FilterEmptyIff(group, keep);
    FilterFirst(group, keep);
    if Filter(group, keep) != [] {
      var i := FilterHead(group, keep);
      assert FirstSuitableAt(group, i, experience, goals);
    }
  }

  /** `select_course`: the name of the first course of the age group that has
      the level and shares a goal; the fallback text when there is none. */
  function SelectCourse(table: seq<AgeEntry>, ageGroup: string, experience: string, goals: seq<string>): (r: string)
    ensures NoneSuitable(FilterByAge(table, ageGroup), experience, goals) ==> r == NoSuitableCourse
    ensures forall i :: FirstSuitableAt(FilterByAge(table, ageGroup), i, experience, goals) ==>
      r == FilterByAge(table, ageGroup)[i].name
    ensures r != NoSuitableCourse ==>
      exists i :: FirstSuitableAt(FilterByAge(table, ageGroup), i, experience, goals) && r == FilterByAge(table, ageGroup)[i].name
  {
    SuitableCourses(FilterByAge(table, ageGroup), experience, goals);
    var matched := Matches(table, ageGroup, experience, goals);
    if matched != [] then matched[0].name else NoSuitableCourse
  }

  // ------------------------------------------------------------------ lemmas

  /** The experience filter keeps a course as often as the input has it when
      the course has the level, and drops it otherwise. */
  lemma ExperienceFilterExact(courses: seq<Course>, experience: string, c: Course)
    ensures multiset(FilterByExperience(courses, experience))[c]
      == if experience in c.experience then multiset(courses)[c] else 0
  {
    FilterMultiplicity(courses, HasExperience(experience), c);
  }

  lemma GoalFilterExact(courses: seq<Course>, goals: seq<string>, c: Course)
    ensures multiset(FilterByGoals(courses, goals))[c]
      == if SharesGoal(c, goals) then multiset(courses)[c] else 0
  {
    FilterMultiplicity(courses, SharesAnyGoal(goals), c);
  }

  lemma ExperienceFilterIdempotent(courses: seq<Course>, experience: string)
    ensures FilterByExperience(FilterByExperience(courses, experience), experience)
      == FilterByExperience(courses, experience)
  {
    FilterIdempotent(courses, HasExperience(experience));
  }

  lemma GoalFilterIdempotent(courses: seq<Course>, goals: seq<string>)
    ensures FilterByGoals(FilterByGoals(courses, goals), goals) == FilterByGoals(courses, goals)
  {
    FilterIdempotent(courses, SharesAnyGoal(goals));
  }

  /** The experience and goal filters commute. */
  lemma FiltersCommute(courses: seq<Course>, experience: string, goals: seq<string>)
    ensures FilterByGoals(FilterByExperience(courses, experience), goals)
      == FilterByExperience(FilterByGoals(courses, goals), experience)
  {
    FilterCommutes(courses, HasExperience(experience), SharesAnyGoal(goals));
  }

  /** Swapping the experience and goal filters in `select_course` does not
      change the suggestion. */
  lemma SelectCourseFilterOrderIrrelevant(table: seq<AgeEntry>, ageGroup: string, experience: string, goals: seq<string>)
    ensures var swapped := FilterByExperience(FilterByGoals(FilterByAge(table, ageGroup), goals), experience);
      SelectCourse(table, ageGroup, experience, goals)
        == if swapped != [] then swapped[0].name else NoSuitableCourse
  {
    FiltersCommute(FilterByAge(table, ageGroup), experience, goals);
  }

  /** No course of the table is named like the fallback text. */
  predicate NoCourseNamedFallback(table: seq<AgeEntry>)
  {
    forall i, j :: 0 <= i < |table| && 0 <= j < |table[i].courses| ==> table[i].courses[j].name != NoSuitableCourse
  }

  /** When no course is itself named like the fallback text, the fallback is
      returned exactly when nothing matches. */
  lemma SelectCourseFallbackIff(table: seq<AgeEntry>, ageGroup: string, experience: string, goals: seq<string>)
    requires NoCourseNamedFallback(table)
    ensures SelectCourse(table, ageGroup, experience, goals) == NoSuitableCourse
      <==> Matches(table, ageGroup, experience, goals) == []
  {
    var matched := Matches(table, ageGroup, experience, goals);
    var group := FilterByAge(table, ageGroup);
    if matched != [] {
      var exp := FilterByExperience(group, experience);
      assert matched[0] in exp;
      assert matched[0] in group;
      var i :| 0 <= i < |table| && table[i].ageGroup == ageGroup && group == table[i].courses;
      var j :| 0 <= j < |group| && group[j] == matched[0];
      assert table[i].courses[j].name != NoSuitableCourse;
    }
  }

  /** The shipped table meets the precondition of SelectCourseFallbackIff. */
  lemma ShippedTableHasNoFallbackName()
    ensures NoCourseNamedFallback(CourseTable)
  {
  }

  /** The worked example on the shipped table. */
  lemma ShippedTableExample()
    ensures SelectCourse(CourseTable, "6-8", "Beginner", ["Creative Fun"]) == "Robot Explorers"
  {
    var group := FilterByAge(CourseTable, "6-8");
    assert group == CourseTable[0].courses;
    var c := group[0];
    assert "Creative Fun" in c.goals;
    assert SharesGoal(c, ["Creative Fun"]);
    assert FilterByExperience(group, "Beginner") == group;
    assert FilterByGoals(group, ["Creative Fun"]) != [];
  }
}
