# School management: decision and string routines, in Dafny

This project models the small self-contained routines of the
`it-school-management` Django application, and proves properties of them:

- **Course suggestion.** This is the quiz matcher. It holds a fixed table of
  robotics courses per age group. It narrows the table by age group, then by
  experience level, then by any shared learning goal. The first course left is
  the suggestion; if none is left, the suggestion is the fallback text
  `No suitable course found.` (`CourseSuggestion`, built on the generic
  order-preserving `Basics.Filter`).
- **Phone number.** Three pieces in three files handle a phone number:
  - the browser field formatter, which keeps at most ten digits and renders
    `(XXX) XXX-XX-XX`, together with its Backspace handler (`PhoneFormat`,
    with a class `PhoneInput` holding the field value);
  - the server pattern `^\(\d{3}\) \d{3}-\d{2}-\d{2}$` (`PhoneValidator`);
  - the contact form's `clean_phone` length check (`ContactForm`).

  `PhonePipeline` proves how the three fit together.
- **Role classification.** Two modules give the role of a signed-in user,
  checking student, then teacher, then education manager, then program
  manager (`RoleChecking`, `RoleAccessChecking`, over the user record of
  `Users`). `RoleMismatch` exhibits how the two modules disagree.
- **Enumerations.** These are the three enumerations and the
  `(code, label)` lists their `choices()` methods build (`Enums`).
- **Model-level logic** (`Models`):
  - the user manager's guards: `create_user` demands an email;
    `create_superuser` fills in the `is_staff`/`is_superuser` flags and checks
    them;
  - the manager's display string;
  - the group-size bounds;
  - the default contact-message status.

The course table, the messages and the codes are copied exactly from the
source. Python's and JavaScript's exceptions and `None` become `Result`,
`Option` and the outcome datatypes.

## Model

| member | source | states |
|---|---|---|
| `CourseSuggestion.FilterByAge` | school_management/course_suggestion_logic.py:60-64 | Returns an empty list when no entry has the age group. Otherwise it returns an empty list or the courses of some entry with that age group. |
| `CourseSuggestion.FilterByAgeFirstEntry` | school_management/course_suggestion_logic.py:60-64 | When entry `i` is the first with the age group, the result is exactly that entry's courses. |
| `CourseSuggestion.HasExperience` | school_management/course_suggestion_logic.py:68 | No contract of its own: the test `experience in course["experience"]`. `FilterByExperience` and `ExperienceFilterExact` state what it keeps. |
| `CourseSuggestion.SharesGoal` | school_management/course_suggestion_logic.py:72 | No contract of its own: `any(goal in course["goals"] for goal in learning_goals)`. `FilterByGoals` and `GoalFilterExact` state what it keeps. |
| `CourseSuggestion.FilterByExperience` | school_management/course_suggestion_logic.py:67-68 | The result is a subsequence of the input (original order kept). Every kept course lists the level. Every input course that lists the level is kept. |
| `CourseSuggestion.ExperienceFilterExact` | school_management/course_suggestion_logic.py:67-68 | A course with the level occurs in the result exactly as often as in the input; a course without it never occurs. |
| `CourseSuggestion.FilterByGoals` | school_management/course_suggestion_logic.py:71-72 | The result is a subsequence of the input. A course is kept iff one of the requested goals is among its goals. An empty goal list yields an empty list. |
| `CourseSuggestion.GoalFilterExact` | school_management/course_suggestion_logic.py:71-72 | A course sharing a goal occurs in the result as often as in the input; any other course never occurs. |
| `CourseSuggestion.ExperienceFilterIdempotent` | school_management/course_suggestion_logic.py:67-68 | Applying the experience filter twice equals applying it once. |
| `CourseSuggestion.GoalFilterIdempotent` | school_management/course_suggestion_logic.py:71-72 | Applying the goal filter twice equals applying it once. |
| `CourseSuggestion.FiltersCommute` | school_management/course_suggestion_logic.py:67-72 | The experience filter and the goal filter commute. |
| `CourseSuggestion.SelectCourseFilterOrderIrrelevant` | school_management/course_suggestion_logic.py:75-82 | `select_course` gives the same answer when it applies the goal filter before the experience filter. |
| `CourseSuggestion.Matches` | school_management/course_suggestion_logic.py:76-78 | The triple-filtered list equals the age group's courses that have the level and share a goal, filtered in one pass in table order. |
| `CourseSuggestion.SuitableCourses` | school_management/course_suggestion_logic.py:76-81 | On any course list, the suitable courses are empty iff none suits. Otherwise they start with the first suitable course, and their head is a first suitable course. |
| `CourseSuggestion.SelectCourse` | school_management/course_suggestion_logic.py:75-82 | With no course of the age group suiting the request, the answer is the fallback text. When course `i` is the first that suits, the answer is its name, with no precondition on names. Any other answer than the fallback is the name of the first suitable course. |
| `CourseSuggestion.SelectCourseFallbackIff` | school_management/course_suggestion_logic.py:80-82 | Provided no course is itself named like the fallback text, the fallback is returned iff the triple-filtered list is empty. |
| `CourseSuggestion.ShippedTableHasNoFallbackName` | school_management/course_suggestion_logic.py:1-57 | No course of the shipped table is named `No suitable course found.`, so `SelectCourseFallbackIff` applies to it. |
| `CourseSuggestion.ShippedTableExample` | school_management/course_suggestion_logic.py:1-57 | On the shipped table, age `6-8`, level `Beginner` and goal `Creative Fun` give `Robot Explorers`. |
| `PhoneFormat.PhoneInput.OnInput` | static/js/scripts.js:16-28 | The field's new value is `Format` of its old value: digits stripped out, cut to ten, rendered. |
| `PhoneFormat.PhoneInput.OnKeyDown` | static/js/scripts.js:30-35 | Backspace on a value ending in a non-digit removes exactly the last character and keeps the prefix. Any other key or value leaves the field unchanged. |
| `PhoneFormat.Substring` | static/js/scripts.js:20-27 | For bounds 0 <= start <= end, `substring` is the slice with both bounds cut to the length. |
| `PhoneFormat.Digits` | static/js/scripts.js:17 | The result is no longer than the input, is made only of digits, and holds every digit of the input. |
| `PhoneFormat.WorkingDigits` | static/js/scripts.js:17-20 | At most ten characters, all digits. |
| `PhoneFormat.Render` | static/js/scripts.js:23-27 | Empty iff there are no digits; otherwise it starts with `(`. |
| `PhoneFormat.Format` | static/js/scripts.js:17-27 | No contract of its own: the value the input handler writes. `FormatLength`, `FormatSeparators`, `TenDigitShape` and `FormatIdempotent` state its properties. |
| `PhoneFormat.EndsWithNonDigit` | static/js/scripts.js:32 | No contract of its own: `value.match(/\D$/)`. `OnKeyDown` states what it guards. |
| `PhoneFormat.WorkingDigitsSpec` | static/js/scripts.js:17-20 | The working digit string is made only of digits and is a subsequence of the input. It is the prefix of the input's digits of length min(count, 10). |
| `PhoneFormat.DigitsMultiplicity` | static/js/scripts.js:17 | The digit strip keeps every digit as often as it occurs in the input, and no other character. |
| `PhoneFormat.NoDigitsFormatsEmpty` | static/js/scripts.js:23-27 | An input without digits formats to the empty string. |
| `PhoneFormat.FormatLength` | static/js/scripts.js:20-27 | The formatted length is fixed by the digit count n (0 for n = 0, else 1 + n + separators). It is at most 15. It is exactly 15 iff n = 10. |
| `PhoneFormat.FormatOccurrences` | static/js/scripts.js:23-27 | A non-digit occurs in the formatted value only through the inserted literals: `(` for any digit, `) ` from 4 digits, `-` from 7 and again from 9. |
| `PhoneFormat.FormatSeparators` | static/js/scripts.js:23-27 | `(` occurs once iff there is a digit. `)` and the space occur once iff there are at least 4 digits. `-` occurs once from 7 digits and twice from 9. |
| `PhoneFormat.TenDigitShape` | static/js/scripts.js:23-27 | With at least ten digits in the input, the value is `(ddd) ddd-dd-dd` built from the first ten. |
| `PhoneFormat.DigitsOfRender` | static/js/scripts.js:23-27 | Rendering inserts only non-digits: stripping a rendered string of at most ten digits gives the digits back. |
| `PhoneFormat.FormatIdempotent` | static/js/scripts.js:17-27 | Re-formatting a formatted value leaves it unchanged. |
| `PhoneValidator.FullMatchPositionwise` | school_management/utils/validators.py:4 | An anchored match of single-character atoms succeeds iff the lengths agree and every position matches its atom. |
| `PhoneValidator.IsPhoneNumber` | school_management/utils/validators.py:4 | No contract of its own: a full match of the pattern's atom list `PhonePattern`. `PhoneNumberShape` characterizes it. |
| `PhoneValidator.ValidatePhone` | school_management/utils/validators.py:3-6 | The validator raises nothing iff the string has the phone shape. When it raises, its message is "Phone number must be in the format (XXX) XXX-XX-XX.". |
| `PhoneValidator.PhoneNumberShape` | school_management/utils/validators.py:4 | The pattern accepts `s` iff `s` has 15 characters; `(` at 0, `)` at 4, space at 5 and `-` at 9 and 12; and ASCII digits at all other positions. |
| `PhoneValidator.AcceptedLength` | school_management/utils/validators.py:4 | Every accepted string has length 15. |
| `PhoneValidator.RejectsNonDigit` | school_management/utils/validators.py:4 | A non-digit at any digit position is rejected. |
| `PhoneValidator.RejectsLeadingCharacters` | school_management/utils/validators.py:4 | Characters in front of an accepted number make it rejected. |
| `PhoneValidator.RejectsTrailingCharacters` | school_management/utils/validators.py:4 | Characters after an accepted number make it rejected. |
| `PhoneValidator.ExampleAccepted` | school_management/utils/validators.py:3-6 | `(050) 123-45-67` is accepted; `050 123-45-67` is not. |
| `ContactForm.CleanPhone` | school_management/forms.py:61-69 | A missing phone raises "Phone number is required.". A length other than 15 raises the invalid-number message. An accepted phone is returned unchanged. |
| `PhonePipeline.ValidatedPhonePassesCleanPhone` | school_management/forms.py:66-69 | Every string the server pattern accepts passes `clean_phone` unchanged. |
| `PhonePipeline.CleanPhoneWeakerThanPattern` | school_management/forms.py:66 | The converse fails: fifteen letters pass `clean_phone` but not the pattern. |
| `PhonePipeline.AssembledShape` | school_management/utils/validators.py:4 | A digit string of length at least 10, laid out as `(` + 3 digits + `) ` + 3 + `-` + 2 + `-` + 2, has the pattern's shape. |
| `PhonePipeline.FullNumberMatchesPattern` | static/js/scripts.js:20-27 | With ten or more digits typed, the formatted value matches the server pattern. |
| `PhonePipeline.ShortNumberFailsPattern` | static/js/scripts.js:20-27 | With fewer than ten digits typed, the formatted value does not match it. |
| `PhonePipeline.FormattedMatchesPatternIff` | static/js/scripts.js:17-27 | The formatted field value matches the server pattern iff the typed value held at least ten digits. |
| `PhonePipeline.FormattedFullNumberAccepted` | static/js/scripts.js:23-27 | An entry with ten or more digits formats to a value `clean_phone` accepts unchanged. |
| `PhonePipeline.FormattedShortNumberRejected` | school_management/forms.py:66-67 | An entry with fewer than ten digits formats to a value `clean_phone` rejects. |
| `RoleChecking.GetUserRole` | school_management/utils/role_checking.py:20-29 | A returned role is in the priority list student > teacher > education_manager > program_manager. Its predicate holds and no higher-priority predicate does. The result is `None` iff no predicate holds. |
| `Users.IsStudent` | school_management/utils/role_checking.py:4-5 | No contract of its own: `hasattr(user, "student")`. The `StudentWins` lemmas of both role modules use it. |
| `Users.IsTeacher` | school_management/utils/role_checking.py:8-9 | No contract of its own: `hasattr(user, "teacher")`. |
| `Users.ManagerRoleIs` | school_management/utils/role_checking.py:13 | No contract of its own: `hasattr(user, "manager") and user.manager.role == code`. |
| `RoleChecking.IsEducationManager` | school_management/utils/role_checking.py:12-13 | No contract of its own: a manager row with role `EDU_MANAGER`. `StoredCodesNeverMatch` states that no stored code satisfies it. |
| `RoleChecking.IsProgramManager` | school_management/utils/role_checking.py:16-17 | No contract of its own: a manager row with role `PROG_MANAGER`. `StoredCodesNeverMatch` covers it too. |
| `RoleChecking.StudentWins` | school_management/utils/role_checking.py:20-22 | A user with a student row is `student`, whatever else holds. |
| `RoleChecking.ManagerPredicatesExclusive` | school_management/utils/role_checking.py:12-17 | No user is both education and program manager. |
| `RoleChecking.StoredCodesNeverMatch` | school_management/utils/role_checking.py:12-17 | A manager whose role is a stored `ManagerRole` code satisfies neither manager predicate. |
| `RoleChecking.StoredManagerGetsNoRole` | school_management/utils/role_checking.py:20-29 | A manager with a stored code and no student or teacher row gets no role. |
| `RoleAccessChecking.GetUserRole` | school_management/utils/role_access_checking.py:24-33 | Same priority order and `None` iff no predicate holds, as in `RoleChecking.GetUserRole`. |
| `RoleAccessChecking.IsStudentOrTeacher` | school_management/utils/role_access_checking.py:12-13 | No contract of its own. `StudentOrTeacherIsDisjunction` states it. |
| `RoleAccessChecking.IsEducationManager` | school_management/utils/role_access_checking.py:16-17 | No contract of its own: a manager row with role `Education`. `ManagerPredicatesUseStoredCodes` ties it to the first `ManagerRole` code. |
| `RoleAccessChecking.IsProgramManager` | school_management/utils/role_access_checking.py:20-21 | No contract of its own: a manager row with role `Program`. `ManagerPredicatesUseStoredCodes` ties it to the second code. |
| `RoleAccessChecking.StudentOrTeacherIsDisjunction` | school_management/utils/role_access_checking.py:12-13 | `user_is_student_or_teacher` is the disjunction of the student and teacher predicates. |
| `RoleAccessChecking.StudentWins` | school_management/utils/role_access_checking.py:24-26 | A user with a student row is `student`. |
| `RoleAccessChecking.ManagerPredicatesExclusive` | school_management/utils/role_access_checking.py:16-21 | No user is both education and program manager. |
| `RoleAccessChecking.ManagerPredicatesUseStoredCodes` | school_management/utils/role_access_checking.py:16-21 | The education predicate tests the first code of `ManagerRole.choices()`; the program predicate tests the second. |
| `RoleAccessChecking.StoredManagerRecognised` | school_management/utils/role_access_checking.py:24-33 | A manager with a stored code and no student or teacher row gets the manager role that code names. |
| `RoleMismatch.EducationManagerMisclassified` | school_management/utils/role_checking.py:12-13 | A stored education manager gets no role from `role_checking`, but gets `education_manager` from `role_access_checking`. |
| `Enums.AgeGroupChoices` | school_management/utils/enums.py:4-12 | The list is exactly (`6-8`, 6-8 y.o.), (`9-12`, …), (`13-15`, …), (`16-18`, 16-18 y.o.) in declaration order. Every member's value is in it, and the codes are distinct. |
| `Enums.ContactMessageStatusChoices` | school_management/utils/enums.py:15-22 | The list is exactly (`PND`, Pending), (`INP`, In Process), (`CMP`, Completed). Every member appears as (its name, its value), and the codes are distinct. |
| `Enums.ManagerRoleChoices` | school_management/utils/enums.py:25-31 | The list is exactly (`Education`, Education Manager), (`Program`, Program Manager). Every member's value is in it, and the codes are distinct. |
| `Enums.ManagerRoleCodesExactly` | school_management/utils/enums.py:25-31 | A string is a `ManagerRole` code iff it is `Education` or `Program`. |
| `Models.CreateUser` | school_management/models.py:19-26 | The extra fields never hold `email` or `password`, because Python binds those keywords to the named parameters. A missing or empty email raises "The Email field must be set" and builds nothing. With an email, any extra keyword that names no field of the user model raises the constructor's `TypeError`, carrying exactly the unexpected names. Otherwise the user gets the normalised email, the password and the extra fields. Creation happens iff the email is truthy and every extra keyword is a field. |
| `Models.SetDefault` | school_management/models.py:29-30 | `setdefault` adds the key. It keeps a present value, otherwise stores the default, and changes no other key. |
| `Models.CreateSuperuser` | school_management/models.py:28-37 | A caller-supplied non-`True` `is_staff` raises the staff message first. A non-`True` `is_superuser` raises the superuser message next. Then `create_user`'s email check applies, then the constructor's `TypeError` for field names outside the model, counting the two defaulted flags. Success happens iff all four pass; then both flags are `True` and every caller-supplied field keeps its value. |
| `Models.ChoicesDict` | school_management/models.py:94 | `dict(choices)` has exactly the choice codes as keys. |
| `Models.ChoicesDictLookup` | school_management/models.py:94 | With distinct codes, the dictionary maps each code to its own label. |
| `Models.ManagerRoleLabels` | school_management/models.py:94 | `dict(ManagerRole.choices())` is exactly {`Education`: Education Manager, `Program`: Program Manager}. |
| `Models.RoleDisplay` | school_management/models.py:94 | `Education`/`Program` show their labels. A `None` or unknown role falls back to `Manager`. |
| `Models.ManagerString` | school_management/models.py:93-95 | No contract of its own: the f-string of line 95. `ManagerStringLabels` states it for each kind of role. |
| `Models.ManagerStringLabels` | school_management/models.py:93-95 | The string is first name, space, last name, then the label in parentheses: Education Manager, Program Manager, or `Manager` for a `None` or unknown role. |
| `Models.ValidateGroupSize` | school_management/models.py:146-148 | There are no validator errors iff the size is 2 to 20. There is at most one error, and it names the limit that was crossed. |
| `Models.DefaultGroupSizeValid` | school_management/models.py:146-148 | The default size 10 passes both validators. |
| `Models.DefaultContactStatus` | school_management/models.py:160-164 | The default status is the first `ContactMessageStatus` code, `PND`, which is one of the choice codes. |

The two role modules define `user_is_student` and `user_is_teacher` in the same
words (role_checking.py:4-9, role_access_checking.py:4-9). They are modelled
once, as `Users.IsStudent` and `Users.IsTeacher`.

## Findings

| source | as written | input that shows it | evidently intended | confidence | as-written member | corrected member |
|---|---|---|---|---|---|---|
| school_management/utils/role_checking.py:12-17 | Compares `user.manager.role` with `"EDU_MANAGER"` / `"PROG_MANAGER"`, the enum member names. The `Manager.role` column stores the member values (models.py:85-89, enums.py:26-27). The dashboards (views.py:90) and the template tags use this module. | A user with only a manager row whose role is `"Education"` gets role `None`, so no manager dashboard. | Compare with the stored codes `"Education"` / `"Program"`, as role_access_checking.py:16-21 does. | not executed; high: every manager with a valid role gets no role | `RoleMismatch.EducationManagerMisclassified` | `RoleAccessChecking.StoredManagerRecognised` |

## Left out

- The group enrolment, capacity and status-transition logic is not among the modelled files. Only the `group_size` bounds (models.py:146-148) are modelled.
- `GroupStatus` is imported by models.py but is not defined in the enums.py shown. The `Group.status` default is not part of this model.
- The views, URL routing, admin, template tags, decorators, the search, sorting and pagination helpers, and the django-filter configuration are not modelled. They are framework plumbing.
- course_filtering.py is not modelled. It is the ORM-backed `select_course` that views.py actually imports; its semantics (many-to-many joins, `distinct()`, unordered `first()`) live in the ORM.
- ORM field declarations are not modelled (lengths, `null`/`blank`, choices enforcement), and neither are the model's own defaults for fields `create_user` is not given.
- `normalize_email` is library code. It is a parameter `normalize` of `Models.CreateUser` and `Models.CreateSuperuser`.
- Models.CreateUser and Models.CreateSuperuser require `KeywordsOnly`: `**extra_fields` holds neither `email` nor `password`. Python binds those keywords to the named parameters, and a second one is a `TypeError` at the call, before the body runs. That call-time error is not modelled.
- Models.CreateUser and Models.CreateSuperuser take the names the `CustomUser(...)` constructor accepts as a parameter `fieldNames`. The model does not derive that set from the field declarations, the inherited fields and settable properties. Other constructor errors are not modelled either, such as assigning a many-to-many field directly. `Created` means only that the manager's guards and the keyword check passed. `save`'s `IntegrityError` for a duplicate `email` (`unique=True`, models.py:41) is not modelled, because persistence is outside the model.
- `set_password` (hashing) and `save` (persistence) are not modelled. The new user carries the password as given.
- `Models.FieldValue` covers bool, int, string and `None` keyword values only.
- `PhoneValidator.IsPhoneNumber` reads `\d` as ASCII `0`-`9`, but Python's `\d` also matches other Unicode decimal digits.
- `PhoneValidator.IsPhoneNumber` is a full match. Python's `$` would also accept one trailing newline, which the model rejects.
- The JavaScript side is not modelled beyond the two handlers:
  - the DOM event wiring;
  - the browser's own deletion that follows the Backspace handler;
  - the `experience-option` click highlighting (scripts.js:1-11).
- Strings are sequences of Dafny characters. Python `len` counts code points and JavaScript slices count UTF-16 units; the two agree for the ASCII inputs these routines are meant for.
- `ContactForm.CleanPhone` takes the phone as an optional string. A non-string value is not modelled.
- `SuggestionForm`, its static experience and learning-goal choice lists, and the `ContactForm.Meta` field list (forms.py:7-58) are not modelled. They are form declarations.
