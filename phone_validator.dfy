/** The server-side phone pattern `^\(\d{3}\) \d{3}-\d{2}-\d{2}$`
    (school_management/utils/validators.py), written as a sequence of
    single-character atoms that must match the whole string. */
module PhoneValidator {
  import opened Basics

  /** One position of the pattern: a literal character or `\d`. */
  datatype Atom = Literal(c: char) | AnyDigit

  /** `atom{n}`. */
  function Repeat(a: Atom, n: nat): (r: seq<Atom>)
    ensures |r| == n && forall i :: 0 <= i < n ==> r[i] == a
  {
    if n == 0 then [] else [a] + Repeat(a, n - 1)
  }

  const PhonePattern: seq<Atom> :=
    [Literal('(')] + Repeat(AnyDigit, 3) + [Literal(')'), Literal(' ')] + Repeat(AnyDigit, 3)
    + [Literal('-')] + Repeat(AnyDigit, 2) + [Literal('-')] + Repeat(AnyDigit, 2)

  const PhoneMessage := "Phone number must be in the format (XXX) XXX-XX-XX."

  predicate AtomMatches(a: Atom, c: char)
  {
    match a
    case Literal(l) => c == l
    case AnyDigit => IsDigit(c)
  }

  /** `^p$`: the atoms consume the string from its first to its last character. */
  predicate FullMatch(p: seq<Atom>, s: string)
    decreases |p|
  {
    if p == [] then s == []
    else s != [] && AtomMatches(p[0], s[0]) && FullMatch(p[1..], s[1..])
  }

  /** Whether `phone_number_validator` accepts `s`. */
  predicate IsPhoneNumber(s: string)
  {
    FullMatch(PhonePattern, s)
  }

  /** The positions of the pattern that hold literals, and which. */
  function LiteralAt(i: int): Option<char>
  {
    if i == 0 then Some('(')
    else if i == 4 then Some(')')
    else if i == 5 then Some(' ')
    else if i == 9 || i == 12 then Some('-')
    else None
  }

  /** The position-by-position shape the pattern describes. */
  predicate PhoneShape(s: string)
  {
    && |s| == 15
    && (forall i :: 0 <= i < 15 && LiteralAt(i).Some? ==> s[i] == LiteralAt(i).value)
    && (forall i :: 0 <= i < 15 && LiteralAt(i).None? ==> IsDigit(s[i]))
  }

  /** An anchored match of single-character atoms is a position-wise match of
      equal lengths. */
  lemma {:induction false} FullMatchPositionwise(p: seq<Atom>, s: string)
    ensures FullMatch(p, s) <==> |p| == |s| && forall i :: 0 <= i < |p| ==> AtomMatches(p[i], s[i])
    decreases |p|
  {
    if p != [] && s != [] {
      FullMatchPositionwise(p[1..], s[1..]);
      if |p| == |s| && forall i :: 0 <= i < |p| ==> AtomMatches(p[i], s[i]) {
        forall i | 0 <= i < |p| - 1 ensures AtomMatches(p[1..][i], s[1..][i]) {
          assert p[1..][i] == p[i + 1] && s[1..][i] == s[i + 1];
        }
      }
      if FullMatch(p, s) {
        forall i | 0 <= i < |p| ensures AtomMatches(p[i], s[i]) {
          if i > 0 { assert p[i] == p[1..][i - 1] && s[i] == s[1..][i - 1]; }
        }
      }
    }
  }

  lemma PhonePatternLayout()
    ensures |PhonePattern| == 15
    ensures forall i :: 0 <= i < 15 ==>
      PhonePattern[i] == if LiteralAt(i).Some? then Literal(LiteralAt(i).value) else AnyDigit
  {
    var d := AnyDigit;
    assert Repeat(d, 2) == [d, d];
    assert Repeat(d, 3) == [d, d, d];
    assert PhonePattern == [Literal('('), d, d, d, Literal(')'), Literal(' '), d, d, d,
                            Literal('-'), d, d, Literal('-'), d, d];
  }

  /** The validator accepts exactly the strings of the shape `(ddd) ddd-dd-dd`:
      fifteen characters, the literals at indices 0, 4, 5, 9 and 12, ASCII
      digits everywhere else. */
  lemma PhoneNumberShape(s: string)
    ensures IsPhoneNumber(s) <==> PhoneShape(s)
  {
    FullMatchPositionwise(PhonePattern, s);
    PhonePatternLayout();
    if PhoneShape(s) {
      forall i | 0 <= i < 15 ensures AtomMatches(PhonePattern[i], s[i]) {
      }
    }
    if IsPhoneNumber(s) {
      forall i | 0 <= i < 15 && LiteralAt(i).Some? ensures s[i] == LiteralAt(i).value {
        assert AtomMatches(PhonePattern[i], s[i]);
      }
      forall i | 0 <= i < 15 && LiteralAt(i).None? ensures IsDigit(s[i]) {
        assert AtomMatches(PhonePattern[i], s[i]);
      }
    }
  }

  /** `phone_number_validator(s)`: no error when the pattern matches, else its
      message; the strings without error are exactly those of the phone shape. */
  function ValidatePhone(s: string): (error: Option<string>)
    ensures error.None? <==> PhoneShape(s)
    ensures error.Some? ==> error.value == PhoneMessage
  {
    PhoneNumberShape(s);
    if IsPhoneNumber(s) then None else Some(PhoneMessage)
  }

  lemma AcceptedLength(s: string)
    requires IsPhoneNumber(s)
    ensures |s| == 15
  {
    PhoneNumberShape(s);
  }

  /** A non-digit at a digit position is rejected. */
  lemma RejectsNonDigit(s: string, i: nat)
    requires i < |s| && LiteralAt(i).None? && !IsDigit(s[i])
    ensures !IsPhoneNumber(s)
  {
    PhoneNumberShape(s);
  }

  /** Anything in front of an accepted number makes it rejected (the `^` anchor). */
  lemma RejectsLeadingCharacters(prefix: string, s: string)
    requires prefix != [] && IsPhoneNumber(s)
    ensures !IsPhoneNumber(prefix + s)
  {
    PhoneNumberShape(s);
    PhoneNumberShape(prefix + s);
  }

  /** Anything after an accepted number makes it rejected (the `$` anchor). */
  lemma RejectsTrailingCharacters(s: string, suffix: string)
    requires suffix != [] && IsPhoneNumber(s)
    ensures !IsPhoneNumber(s + suffix)
  {
    PhoneNumberShape(s);
    PhoneNumberShape(s + suffix);
  }

  lemma ExampleAccepted()
    ensures IsPhoneNumber("(050) 123-45-67")
    ensures !IsPhoneNumber("050 123-45-67")
  {
    PhoneNumberShape("(050) 123-45-67");
    PhoneNumberShape("050 123-45-67");
  }
}
