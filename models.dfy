/** The non-declarative parts of school_management/models.py: the user
    manager's guards, the manager's display string, the group-size bounds
    and the default contact-message status. */
module Models {
  import opened Basics
  import Enums

  // ------------------------------------------------------ CustomUserManager

  /** A keyword-argument value passed in `**extra_fields`. */
  datatype FieldValue = BoolValue(b: bool) | IntValue(i: int) | StrValue(s: string) | NoneValue

  /** Python's `True` as a keyword-argument value. */
  const PyTrue := BoolValue(true)

  /** The user the manager builds (before hashing and saving). */
  datatype NewUser = NewUser(email: string, password: Option<string>, fields: map<string, FieldValue>)

  /** What the manager raises: its own `ValueError`s, and the `TypeError`
      the model constructor raises for keywords naming no field. */
  datatype UserError = ValueError(message: string) | TypeError(unexpected: set<string>)

  datatype UserOutcome = Created(user: NewUser) | Raised(error: UserError)

  const EmailRequired := "The Email field must be set"
  const StaffRequired := "Superuser must have is_staff=True."
  const SuperuserRequired := "Superuser must have is_superuser=True."

  /** Python truthiness of the `email` argument (a string or `None`). */
  predicate Truthy(email: Option<string>)
  {
    email.Some? && email.value != ""
  }

  /** Python binds an `email=` or `password=` keyword to the named parameter,
      so `**extra_fields` never holds either key. */
  predicate KeywordsOnly(extraFields: map<string, FieldValue>)
  {
    "email" !in extraFields && "password" !in extraFields
  }

  /** `create_user`; `normalize` stands for `normalize_email`, and
      `fieldNames` for the keyword names `CustomUser(...)` accepts. */
  function CreateUser(normalize: string -> string, fieldNames: set<string>, email: Option<string>,
                      password: Option<string>, extraFields: map<string, FieldValue>): (r: UserOutcome)
    requires KeywordsOnly(extraFields)
    ensures !Truthy(email) ==> r == Raised(ValueError(EmailRequired))
    ensures Truthy(email) && !(extraFields.Keys <= fieldNames)
      ==> r == Raised(TypeError(extraFields.Keys - fieldNames))
    ensures r.Created? <==> Truthy(email) && extraFields.Keys <= fieldNames
    ensures r.Created? ==> r.user == NewUser(normalize(email.value), password, extraFields)
  {
    if !Truthy(email) then Raised(ValueError(EmailRequired))
    else if !(extraFields.Keys <= fieldNames) then Raised(TypeError(extraFields.Keys - fieldNames))
    else Created(NewUser(normalize(email.value), password, extraFields))
  }

  /** `dict.setdefault`: `key` keeps its value if present, else gets `default`. */
  function SetDefault(m: map<string, FieldValue>, key: string, default: FieldValue): (r: map<string, FieldValue>)
    ensures r.Keys == m.Keys + {key}
    ensures r[key] == if key in m then m[key] else default
    ensures forall k :: k in m ==> r[k] == m[k]
  {
    if key in m then m else m[key := default]
  }

  /** `dict.get`. */
  function Get(m: map<string, FieldValue>, key: string): Option<FieldValue>
  {
    if key in m then Some(m[key]) else None
  }

  /** After `setdefault(key, True)`, `get(key) is True` holds exactly when the
      caller left `key` out or passed `True` itself. */
  predicate TrueOrAbsent(m: map<string, FieldValue>, key: string)
  {
    key !in m || m[key] == PyTrue
  }

  /** `create_superuser`: the extra-fields dictionary is updated in place by
      two `setdefault` calls, then checked, then handed to `create_user`. */
  method CreateSuperuser(normalize: string -> string, fieldNames: set<string>, email: Option<string>,
                         password: Option<string>, extraFields: map<string, FieldValue>) returns (r: UserOutcome)
    requires KeywordsOnly(extraFields)
    ensures !TrueOrAbsent(extraFields, "is_staff") ==> r == Raised(ValueError(StaffRequired))
    ensures TrueOrAbsent(extraFields, "is_staff") && !TrueOrAbsent(extraFields, "is_superuser")
      ==> r == Raised(ValueError(SuperuserRequired))
    ensures TrueOrAbsent(extraFields, "is_staff") && TrueOrAbsent(extraFields, "is_superuser") && !Truthy(email)
      ==> r == Raised(ValueError(EmailRequired))
    ensures var keys := extraFields.Keys + {"is_staff", "is_superuser"};
      (TrueOrAbsent(extraFields, "is_staff") && TrueOrAbsent(extraFields, "is_superuser") && Truthy(email)
       && !(keys <= fieldNames)) ==> r == Raised(TypeError(keys - fieldNames))
    ensures r.Created? <==>
      && TrueOrAbsent(extraFields, "is_staff") && TrueOrAbsent(extraFields, "is_superuser") && Truthy(email)
      && extraFields.Keys + {"is_staff", "is_superuser"} <= fieldNames
    ensures r.Created? ==>
      && r.user.email == normalize(email.value)
      && r.user.password == password
      && r.user.fields.Keys == extraFields.Keys + {"is_staff", "is_superuser"}
      && r.user.fields["is_staff"] == PyTrue
      && r.user.fields["is_superuser"] == PyTrue
      && forall k :: k in extraFields ==> r.user.fields[k] == extraFields[k]
  {
    var fields := extraFields;
    fields := SetDefault(fields, "is_staff", PyTrue);
    fields := SetDefault(fields, "is_superuser", PyTrue);

    if Get(fields, "is_staff") != Some(PyTrue) {
      return Raised(ValueError(StaffRequired));
    }
    if Get(fields, "is_superuser") != Some(PyTrue) {
      return Raised(ValueError(SuperuserRequired));
    }
    assert fields.Keys == extraFields.Keys + {"is_staff", "is_superuser"};
    r := CreateUser(normalize, fieldNames, email, password, fields);
  }

  // ------------------------------------------------------------- Manager

  /** `dict(pairs)`: later pairs overwrite earlier ones with the same code. */
  function ChoicesDict(cs: seq<Enums.Choice>): (d: map<string, string>)
    ensures forall i :: 0 <= i < |cs| ==> cs[i].code in d
    ensures forall code :: code in d ==> code in Enums.Codes(cs)
  {
    if cs == [] then map[]
    else
      var last := cs[|cs| - 1];
      var d := ChoicesDict(cs[..|cs| - 1]);
      assert forall i :: 0 <= i < |cs| - 1 ==> cs[..|cs| - 1][i] == cs[i];
      assert forall code :: code in Enums.Codes(cs[..|cs| - 1]) ==> code in Enums.Codes(cs) by {
        forall code | code in Enums.Codes(cs[..|cs| - 1]) ensures code in Enums.Codes(cs) {
          var i :| 0 <= i < |cs| - 1 && Enums.Codes(cs[..|cs| - 1])[i] == code;
          assert Enums.Codes(cs)[i] == code;
        }
      }
      assert Enums.Codes(cs)[|cs| - 1] == last.code;
      d[last.code := last.display]
  }

  /** Dropping the last choice keeps the codes distinct, and the dropped code
      differs from every remaining one. */
  lemma DistinctInit(cs: seq<Enums.Choice>)
    requires Enums.Distinct(Enums.Codes(cs)) && cs != []
    ensures Enums.Distinct(Enums.Codes(cs[..|cs| - 1]))
    ensures forall i :: 0 <= i < |cs| - 1 ==> cs[i].code != cs[|cs| - 1].code
  {
    var n := |cs| - 1;
    var init := cs[..n];
    forall a, b | 0 <= a < b < |init| ensures Enums.Codes(init)[a] != Enums.Codes(init)[b] {
      assert Enums.Codes(init)[a] == Enums.Codes(cs)[a];
      assert Enums.Codes(init)[b] == Enums.Codes(cs)[b];
    }
    forall i | 0 <= i < n ensures cs[i].code != cs[n].code {
      assert Enums.Codes(cs)[i] != Enums.Codes(cs)[n];
    }
  }

  /** With distinct codes the dictionary maps each code to its own label. */
  lemma {:induction false} ChoicesDictLookup(cs: seq<Enums.Choice>, i: nat)
    requires Enums.Distinct(Enums.Codes(cs)) && i < |cs|
    ensures cs[i].code in ChoicesDict(cs) && ChoicesDict(cs)[cs[i].code] == cs[i].display
  {
    var n := |cs| - 1;
    var init := cs[..n];
    assert ChoicesDict(cs) == ChoicesDict(init)[cs[n].code := cs[n].display];
    if i < n {
      DistinctInit(cs);
      ChoicesDictLookup(init, i);
      assert init[i] == cs[i];
    }
  }

  /** `dict(ManagerRole.choices())` maps the two stored codes to their labels. */
  lemma ManagerRoleLabels()
    ensures ChoicesDict(Enums.ManagerRoleChoices())
      == map["Education" := "Education Manager", "Program" := "Program Manager"]
  {
    var cs := Enums.ManagerRoleChoices();
    assert cs[..1] == [cs[0]];
    assert cs[..1][..0] == [];
  }

  /** `dict(ManagerRole.choices()).get(self.role, "Manager")`: a stored role
      code shows its `ManagerRole` label; a missing or unknown role shows
      `Manager`. */
  function RoleDisplay(role: Option<string>): (r: string)
    ensures role == Some("Education") ==> r == "Education Manager"
    ensures role == Some("Program") ==> r == "Program Manager"
    ensures role.None? || !Enums.IsManagerRoleCode(role.value) ==> r == "Manager"
  {
    ManagerRoleLabels();
    Enums.ManagerRoleCodesExactly();
    var labels := ChoicesDict(Enums.ManagerRoleChoices());
    match role
    case Some(code) => if code in labels then labels[code] else "Manager"
    case None => "Manager"
  }

  /** `Manager.__str__`. */
  function ManagerString(firstName: string, lastName: string, role: Option<string>): string
  {
    firstName + " " + lastName + " (" + RoleDisplay(role) + ")"
  }

  /** The manager's display string, for each kind of role. */
  lemma ManagerStringLabels(firstName: string, lastName: string, role: Option<string>)
    ensures role == Some("Education") ==>
      ManagerString(firstName, lastName, role) == firstName + " " + lastName + " (" + "Education Manager" + ")"
    ensures role == Some("Program") ==>
      ManagerString(firstName, lastName, role) == firstName + " " + lastName + " (" + "Program Manager" + ")"
    ensures role.None? || !Enums.IsManagerRoleCode(role.value) ==>
      ManagerString(firstName, lastName, role) == firstName + " " + lastName + " (" + "Manager" + ")"
  {
  }

  // --------------------------------------------------------------- Group

  const DefaultGroupSize := 10
  const MinGroupSize := 2
  const MaxGroupSize := 20

  /** A failed `MinValueValidator` or `MaxValueValidator`, with its limit. */
  datatype GroupSizeError = BelowMinimum(limit: int) | AboveMaximum(limit: int)

  /** Runs both validators of `group_size` and collects their errors. */
  function ValidateGroupSize(size: int): (errors: seq<GroupSizeError>)
    ensures errors == [] <==> MinGroupSize <= size <= MaxGroupSize
    ensures |errors| <= 1
    ensures size < MinGroupSize ==> errors == [BelowMinimum(MinGroupSize)]
    ensures size > MaxGroupSize ==> errors == [AboveMaximum(MaxGroupSize)]
  {
    (if size < MinGroupSize then [BelowMinimum(MinGroupSize)] else [])
    + (if size > MaxGroupSize then [AboveMaximum(MaxGroupSize)] else [])
  }

  lemma DefaultGroupSizeValid()
    ensures ValidateGroupSize(DefaultGroupSize) == []
  {
  }

  // ------------------------------------------------------- ContactMessage

  /** `default=ContactMessageStatus.choices()[0][0]`: the first member's
      code, `PND` (Pending), one of the column's choice codes. */
  function DefaultContactStatus(): (r: string)
    ensures r == Enums.StatusName(Enums.PND) == "PND"
    ensures r in Enums.Codes(Enums.ContactMessageStatusChoices())
  {
    assert Enums.Codes(Enums.ContactMessageStatusChoices())[0] == "PND";
    Enums.ContactMessageStatusChoices()[0].code
  }
}
