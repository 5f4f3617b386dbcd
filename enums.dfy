/** The three choice enumerations of the school application and the
    `(code, label)` lists their `choices()` class methods build. */
module Enums {

  /** A Django choice: the stored code and the text shown to people. */
  datatype Choice = Choice(code: string, display: string)

  /** The stored codes of a choice list, in order. */
  function Codes(cs: seq<Choice>): seq<string>
  {
    seq(|cs|, i requires 0 <= i < |cs| => cs[i].code)
  }

  predicate Distinct(s: seq<string>)
  {
    forall i, j :: 0 <= i < j < |s| ==> s[i] != s[j]
  }

  // ---------------------------------------------------------------- AgeGroup

  /** Members in declaration order; each value is a `(code, label)` pair. */
  datatype AgeGroup = Junior | Preteen | Teenager | OlderTeen

  const AgeGroupMembers: seq<AgeGroup> := [Junior, Preteen, Teenager, OlderTeen]

  function AgeGroupValue(a: AgeGroup): Choice
  {
    match a
    case Junior => Choice("6-8", "6-8 y.o.")
    case Preteen => Choice("9-12", "9-12 y.o.")
    case Teenager => Choice("13-15", "13-15 y.o.")
    case OlderTeen => Choice("16-18", "16-18 y.o.")
  }

  /** `[(item.value[0], item.value[1]) for item in cls]`: every member's pair,
      in declaration order, with distinct codes. */
  function AgeGroupChoices(): (r: seq<Choice>)
    ensures r == [Choice("6-8", "6-8 y.o."), Choice("9-12", "9-12 y.o."),
                  Choice("13-15", "13-15 y.o."), Choice("16-18", "16-18 y.o.")]
    ensures forall a: AgeGroup :: AgeGroupValue(a) in r
    ensures Distinct(Codes(r))
  {
    var r := seq(|AgeGroupMembers|, i requires 0 <= i < |AgeGroupMembers| => AgeGroupValue(AgeGroupMembers[i]));
    assert r == [r[0], r[1], r[2], r[3]];
    r
  }

  // ---------------------------------------------------- ContactMessageStatus

  datatype ContactMessageStatus = PND | INP | CMP

  const ContactMessageStatusMembers: seq<ContactMessageStatus> := [PND, INP, CMP]

  /** The member's Python name. */
  function StatusName(s: ContactMessageStatus): string
  {
    match s
    case PND => "PND"
    case INP => "INP"
    case CMP => "CMP"
  }

  /** The member's value. */
  function StatusValue(s: ContactMessageStatus): string
  {
    match s
    case PND => "Pending"
    case INP => "In Process"
    case CMP => "Completed"
  }

  /** `[(item.name, item.value) for item in cls]`: every member's name and
      value, in declaration order; the names are the codes. */
  function ContactMessageStatusChoices(): (r: seq<Choice>)
    ensures r == [Choice("PND", "Pending"), Choice("INP", "In Process"), Choice("CMP", "Completed")]
    ensures forall s: ContactMessageStatus :: Choice(StatusName(s), StatusValue(s)) in r
    ensures Distinct(Codes(r))
  {
    var r := seq(|ContactMessageStatusMembers|, i requires 0 <= i < |ContactMessageStatusMembers| =>
      Choice(StatusName(ContactMessageStatusMembers[i]), StatusValue(ContactMessageStatusMembers[i])));
    assert r == [r[0], r[1], r[2]];
    r
  }

  // ------------------------------------------------------------- ManagerRole

  datatype ManagerRole = EduManager | ProgManager

  const ManagerRoleMembers: seq<ManagerRole> := [EduManager, ProgManager]

  function ManagerRoleValue(m: ManagerRole): Choice
  {
    match m
    case EduManager => Choice("Education", "Education Manager")
    case ProgManager => Choice("Program", "Program Manager")
  }

  /** `[(item.value[0], item.value[1]) for item in cls]`. */
  function ManagerRoleChoices(): (r: seq<Choice>)
    ensures r == [Choice("Education", "Education Manager"), Choice("Program", "Program Manager")]
    ensures forall m: ManagerRole :: ManagerRoleValue(m) in r
    ensures Distinct(Codes(r))
  {
    var r := seq(|ManagerRoleMembers|, i requires 0 <= i < |ManagerRoleMembers| => ManagerRoleValue(ManagerRoleMembers[i]));
    assert r == [r[0], r[1]];
    r
  }

  /** The codes a `Manager.role` column can hold. */
  predicate IsManagerRoleCode(code: string)
  {
    code in Codes(ManagerRoleChoices())
  }

  // ------------------------------------------------------------------ lemmas

  /** A `Manager.role` code is one of exactly two strings. */
  lemma ManagerRoleCodesExactly()
    ensures forall code :: IsManagerRoleCode(code) <==> code == "Education" || code == "Program"
  {
    assert Codes(ManagerRoleChoices()) == ["Education", "Program"];
  }
}
