/** The browser-side phone field (static/js/scripts.js): on every `input`
    event the value is reduced to its digits, cut to ten and re-rendered as
    `(XXX) XXX-XX-XX`; on `keydown` a Backspace drops a trailing non-digit. */
module PhoneFormat {
  import opened Basics

  /** The most digits the field keeps (a Ukrainian number without its prefix). */
  const MaxDigits := 10

  function Min(a: int, b: int): int
  {
    if a <= b then a else b
  }

  /** JavaScript clamps a `substring` bound into `[0, n]`. */
  function Clamp(x: int, n: nat): (r: nat)
    ensures r <= n
  {
    if x < 0 then 0 else if x > n then n else x
  }

  /** `s.substring(start, end)`: bounds are clamped and swapped when reversed. */
  function Substring(s: string, start: int, end: int): (r: string)
    ensures 0 <= start <= end ==> r == s[Min(start, |s|)..Min(end, |s|)]
  {
    var a, b := Clamp(start, |s|), Clamp(end, |s|);
    if a <= b then s[a..b] else s[b..a]
  }

  /** `value.replace(/\D/g, '')`: only digits remain, and every digit of `v` does. */
  function Digits(v: string): (r: string)
    ensures |r| <= |v|
    ensures forall i :: 0 <= i < |r| ==> IsDigit(r[i])
    ensures forall i :: 0 <= i < |v| && IsDigit(v[i]) ==> v[i] in r
  {
    Filter(v, IsDigit)
  }

  /** `digits` after the ten-digit cut: at most ten digits. */
  function WorkingDigits(v: string): (r: string)
    ensures |r| <= MaxDigits
    ensures forall i :: 0 <= i < |r| ==> IsDigit(r[i])
  {
    var digits := Digits(v);
    if |digits| > MaxDigits then Substring(digits, 0, MaxDigits) else digits
  }

  /** `cond ? lit + group : ''`. */
  function Piece(cond: bool, lit: string, group: string): string
  {
    if cond then lit + group else ""
  }

  /** The conditional expression that builds the new field value from `d`:
      empty for no digits, otherwise opened by `(`. */
  function Render(d: string): (r: string)
    ensures r == "" <==> |d| == 0
    ensures |d| > 0 ==> r[0] == '('
  {
    if |d| > 0 then
      "(" + Substring(d, 0, 3)
      + Piece(|d| >= 4, ") ", Substring(d, 3, 6))
      + Piece(|d| >= 7, "-", Substring(d, 6, 8))
      + Piece(|d| >= 9, "-", Substring(d, 8, 10))
    else ""
  }

  /** What the `input` handler leaves in the field for the value `v`. */
  function Format(v: string): string
  {
    Render(WorkingDigits(v))
  }

  /** `value.match(/\D$/)`: the value's last character is not a digit. */
  predicate EndsWithNonDigit(v: string)
  {
    |v| > 0 && !IsDigit(v[|v| - 1])
  }

  class PhoneInput {
    var value: string

    constructor (initial: string)
      ensures value == initial
    {
      value := initial;
    }

    /** The `input` listener. */
    method OnInput()
      modifies this
      ensures value == Format(old(value))
    {
      var digits := Digits(value);
      if |digits| > MaxDigits {
        digits := Substring(digits, 0, MaxDigits);
      }
      value := Render(digits);
    }

    /** The `keydown` listener, before the browser's own handling of the key. */
    method OnKeyDown(key: string)
      modifies this
      ensures key == "Backspace" && EndsWithNonDigit(old(value)) ==>
        |value| == |old(value)| - 1 && value == old(value)[..|old(value)| - 1]
      ensures !(key == "Backspace" && EndsWithNonDigit(old(value))) ==> value == old(value)
    {
      if key == "Backspace" && EndsWithNonDigit(value) {
        value := value[..|value| - 1];
      }
    }
  }

  // ------------------------------------------------------------------ lemmas

  predicate AllDigits(s: string)
  {
    forall i :: 0 <= i < |s| ==> IsDigit(s[i])
  }

  /** The working digits are the input's digits, in order, cut to ten. */
  lemma WorkingDigitsSpec(v: string)
    ensures AllDigits(WorkingDigits(v))
    ensures |WorkingDigits(v)| == Min(|Digits(v)|, MaxDigits)
    ensures WorkingDigits(v) == Digits(v)[..|WorkingDigits(v)|]
    ensures IsSubsequence(WorkingDigits(v), v)
  {
    FilterIsSubsequence(v, IsDigit);
    PrefixOfSubsequence(Digits(v), v, |WorkingDigits(v)|);
  }

  /** Every character of `v` that is a digit is kept by the digit strip, as
      often as it occurs, and nothing else is. */
  lemma DigitsMultiplicity(v: string, c: char)
    ensures multiset(Digits(v))[c] == if IsDigit(c) then multiset(v)[c] else 0
  {
    FilterMultiplicity(v, IsDigit, c);
  }

  /** The digit group that `Piece(cond, lit, group)` contributes. */
  function GroupIf(cond: bool, group: string): string
  {
    if cond then group else ""
  }

  /** The four substrings taken by `Render` put `d` back together. */
  lemma GroupsCover(d: string)
    requires 0 < |d| <= MaxDigits
    ensures Substring(d, 0, 3) + GroupIf(|d| >= 4, Substring(d, 3, 6))
      + GroupIf(|d| >= 7, Substring(d, 6, 8)) + GroupIf(|d| >= 9, Substring(d, 8, 10)) == d
  {
    var n := |d|;
    if n <= 3 {
      assert Substring(d, 0, 3) == d;
    } else if n <= 6 {
      assert d[..3] + d[3..n] == d;
    } else if n <= 8 {
      assert d[..3] + d[3..6] + d[6..n] == d;
    } else {
      assert d[..3] + d[3..6] + d[6..8] + d[8..n] == d;
    }
  }

  lemma DigitsOfConcat(a: string, b: string)
    ensures Digits(a + b) == Digits(a) + Digits(b)
  {
    FilterConcat(a, b, IsDigit);
  }

  lemma DigitsOfPiece(cond: bool, lit: string, group: string)
    requires forall i :: 0 <= i < |lit| ==> !IsDigit(lit[i])
    requires AllDigits(group)
    ensures Digits(Piece(cond, lit, group)) == GroupIf(cond, group)
  {
    if cond {
      DigitsOfConcat(lit, group);
      FilterDropsAll(lit, IsDigit);
      FilterKeepsAll(group, IsDigit);
    }
  }

  /** Rendering inserts only non-digits: stripping them again gives back `d`. */
  lemma DigitsOfRender(d: string)
    requires AllDigits(d) && |d| <= MaxDigits
    ensures Digits(Render(d)) == d
  {
    if |d| > 0 {
      var n := |d|;
      var p1 := "(" + Substring(d, 0, 3);
      var p2 := Piece(n >= 4, ") ", Substring(d, 3, 6));
      var p3 := Piece(n >= 7, "-", Substring(d, 6, 8));
      var p4 := Piece(n >= 9, "-", Substring(d, 8, 10));
      DigitsOfPiece(true, "(", Substring(d, 0, 3));
      DigitsOfPiece(n >= 4, ") ", Substring(d, 3, 6));
      DigitsOfPiece(n >= 7, "-", Substring(d, 6, 8));
      DigitsOfPiece(n >= 9, "-", Substring(d, 8, 10));
      DigitsOfConcat(p1, p2);
      DigitsOfConcat(p1 + p2, p3);
      DigitsOfConcat(p1 + p2 + p3, p4);
      GroupsCover(d);
    }
  }

  /** An input without digits leaves the field empty. */
  lemma NoDigitsFormatsEmpty(v: string)
    requires forall i :: 0 <= i < |v| ==> !IsDigit(v[i])
    ensures Format(v) == ""
  {
    FilterDropsAll(v, IsDigit);
  }

  /** Length of the rendering of `n` digits. */
  function FormattedLength(n: nat): nat
  {
    if n == 0 then 0
    else 1 + n + (if n >= 4 then 2 else 0) + (if n >= 7 then 1 else 0) + (if n >= 9 then 1 else 0)
  }

  lemma OccurrencesOfPiece(cond: bool, lit: string, group: string, c: char)
    requires AllDigits(group) && !IsDigit(c)
    ensures Occurrences(Piece(cond, lit, group), c) == if cond then Occurrences(lit, c) else 0
  {
    if cond {
      OccurrencesConcat(lit, group, c);
      OccurrencesAbsent(group, c);
    }
  }

  /** A non-digit occurs in a rendering only as one of the inserted literals. */
  lemma RenderOccurrences(d: string, c: char)
    requires AllDigits(d) && 0 < |d| <= MaxDigits && !IsDigit(c)
    ensures var n := |d|;
      Occurrences(Render(d), c) == Occurrences("(", c)
        + (if n >= 4 then Occurrences(") ", c) else 0)
        + (if n >= 7 then Occurrences("-", c) else 0)
        + (if n >= 9 then Occurrences("-", c) else 0)
  {
    var n := |d|;
    var p1 := "(" + Substring(d, 0, 3);
    var p2 := Piece(n >= 4, ") ", Substring(d, 3, 6));
    var p3 := Piece(n >= 7, "-", Substring(d, 6, 8));
    var p4 := Piece(n >= 9, "-", Substring(d, 8, 10));
    OccurrencesOfPiece(true, "(", Substring(d, 0, 3), c);
    OccurrencesOfPiece(n >= 4, ") ", Substring(d, 3, 6), c);
    OccurrencesOfPiece(n >= 7, "-", Substring(d, 6, 8), c);
    OccurrencesOfPiece(n >= 9, "-", Substring(d, 8, 10), c);
    OccurrencesConcat(p1, p2, c);
    OccurrencesConcat(p1 + p2, p3, c);
    OccurrencesConcat(p1 + p2 + p3, p4, c);
  }

  /** The formatted value's length follows from its digit count: never more
      than fifteen, exactly fifteen only for ten digits. */
  lemma FormatLength(v: string)
    ensures |Format(v)| == FormattedLength(|WorkingDigits(v)|)
    ensures |Format(v)| <= 15
    ensures |Format(v)| == 15 <==> |WorkingDigits(v)| == MaxDigits
  {
    WorkingDigitsSpec(v);
    var d := WorkingDigits(v);
    if |d| > 0 {
      GroupsCover(d);
    }
  }

  /** How often a non-digit occurs in the formatted value, by digit count. */
  lemma FormatOccurrences(v: string, c: char)
    requires !IsDigit(c)
    ensures var n := |WorkingDigits(v)|;
      var inserted := Occurrences("(", c) + (if n >= 4 then Occurrences(") ", c) else 0)
        + (if n >= 7 then Occurrences("-", c) else 0) + (if n >= 9 then Occurrences("-", c) else 0);
      Occurrences(Format(v), c) == if n == 0 then 0 else inserted
  {
    WorkingDigitsSpec(v);
    var d := WorkingDigits(v);
    if |d| > 0 {
      RenderOccurrences(d, c);
    }
  }

  /** How often each separator character occurs in each inserted literal. */
  lemma SeparatorCounts()
    ensures Occurrences("(", '(') == 1 && Occurrences(") ", '(') == 0 && Occurrences("-", '(') == 0
    ensures Occurrences("(", ')') == 0 && Occurrences(") ", ')') == 1 && Occurrences("-", ')') == 0
    ensures Occurrences("(", ' ') == 0 && Occurrences(") ", ' ') == 1 && Occurrences("-", ' ') == 0
    ensures Occurrences("(", '-') == 0 && Occurrences(") ", '-') == 0 && Occurrences("-", '-') == 1
  {
    assert ") "[1..] == " ";
    assert " "[1..] == "" && "("[1..] == "" && "-"[1..] == "";
  }

  /** The formatted value has one opening parenthesis, the `") "` separator
      only from four digits on, the first `-` only from seven and the second
      only from nine. */
  lemma FormatSeparators(v: string)
    ensures var n := |WorkingDigits(v)|; var r := Format(v);
      && Occurrences(r, '(') == (if n > 0 then 1 else 0)
      && Occurrences(r, ')') == (if n >= 4 then 1 else 0)
      && Occurrences(r, ' ') == (if n >= 4 then 1 else 0)
      && Occurrences(r, '-') == (if n >= 7 then 1 else 0) + (if n >= 9 then 1 else 0)
  {
    SeparatorCounts();
    FormatOccurrences(v, '(');
    FormatOccurrences(v, ')');
    FormatOccurrences(v, ' ');
    FormatOccurrences(v, '-');
  }

  /** With at least ten digits in the input the field reads `(ddd) ddd-dd-dd`. */
  lemma TenDigitShape(v: string)
    requires |Digits(v)| >= MaxDigits
    ensures var d := Digits(v);
      Format(v) == "(" + d[0..3] + ") " + d[3..6] + "-" + d[6..8] + "-" + d[8..10]
  {
    var d := Digits(v);
    var w := WorkingDigits(v);
    assert w == d[..10];
    assert Substring(w, 0, 3) == d[0..3] && Substring(w, 3, 6) == d[3..6];
    assert Substring(w, 6, 8) == d[6..8] && Substring(w, 8, 10) == d[8..10];
    assert Format(v) == "(" + d[0..3] + (") " + d[3..6]) + ("-" + d[6..8]) + ("-" + d[8..10]);
  }

  /** Re-running the `input` handler on its own output changes nothing. */
  lemma FormatIdempotent(v: string)
    ensures Format(Format(v)) == Format(v)
  {
    WorkingDigitsSpec(v);
    DigitsOfRender(WorkingDigits(v));
  }
}
