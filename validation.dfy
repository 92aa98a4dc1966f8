/**
 * lib/validation.ts: the shared field validators. Each regular expression
 * is written out as the strings it matches; `\d` is an ASCII digit, `\s`
 * ECMAScript white space, and `$` without the `m` flag means end of input.
 */
module Validation {
  import opened Wrappers
  import opened Js
  import Calendar

  // ------------------------------------------------------- trim and length

  /** `value.trim().length > 0`. */
  predicate IsNotEmpty(value: string) {
    Utf16Length(Trim(value)) > 0
  }

  /** `min <= value.trim().length <= max`. */
  predicate IsLengthWithinRange(value: string, min: int, max: int) {
    var length := Utf16Length(Trim(value));
    length >= min && length <= max
  }

  predicate AllSpace(s: string) {
    forall i :: 0 <= i < |s| ==> IsSpace(s[i])
  }

  lemma {:induction false} TrimStartOfSpaces(s: string)
    requires AllSpace(s)
    ensures TrimStart(s) == []
  {
    if s != [] {
      assert AllSpace(s[1..]) by {
        forall i | 0 <= i < |s[1..]| ensures IsSpace(s[1..][i]) { assert s[1..][i] == s[i + 1]; }
      }
      TrimStartOfSpaces(s[1..]);
    }
  }

  lemma TrimOfSpaces(s: string)
    ensures Trim(s) == [] <==> AllSpace(s)
  {
    if AllSpace(s) {
      TrimStartOfSpaces(s);
    }
    var t := TrimStart(s);
    if Trim(s) == [] {
      assert t == s[|s| - |t|..];
      assert t == [];
    }
  }

  /** A value is non-empty exactly when it has a character that is not
      white space. */
  lemma NotEmptyIffVisible(value: string)
    ensures IsNotEmpty(value) <==> exists i :: 0 <= i < |value| && !IsSpace(value[i])
  {
    TrimOfSpaces(value);
  }

  lemma {:induction false} TrimStartSkipsPadding(pad: string, s: string)
    requires AllSpace(pad)
    ensures TrimStart(pad + s) == TrimStart(s)
  {
    if pad != [] {
      var ps := pad + s;
      assert ps[0] == pad[0] && IsSpace(ps[0]);
      assert ps[1..] == pad[1..] + s;
      assert AllSpace(pad[1..]) by {
        forall i | 0 <= i < |pad[1..]| ensures IsSpace(pad[1..][i]) { assert pad[1..][i] == pad[i + 1]; }
      }
      TrimStartSkipsPadding(pad[1..], s);
    } else {
      assert pad + s == s;
    }
  }

  lemma {:induction false} TrimEndSkipsPadding(s: string, pad: string)
    requires AllSpace(pad)
    ensures TrimEnd(s + pad) == TrimEnd(s)
  {
    if pad != [] {
      var p := pad[..|pad| - 1];
      assert (s + pad)[|s + pad| - 1] == pad[|pad| - 1];
      assert (s + pad)[..|s + pad| - 1] == s + p;
      assert AllSpace(p) by {
        forall i | 0 <= i < |p| ensures IsSpace(p[i]) { assert p[i] == pad[i]; }
      }
      TrimEndSkipsPadding(s, p);
    } else {
      assert s + pad == s;
    }
  }

  lemma {:induction false} TrimStartKeepsTail(s: string, tail: string)
    requires !AllSpace(s)
    ensures TrimStart(s + tail) == TrimStart(s) + tail
  {
    assert s != [];
    if IsSpace(s[0]) {
      assert (s + tail)[1..] == s[1..] + tail;
      assert !AllSpace(s[1..]) by {
        var i :| 0 <= i < |s| && !IsSpace(s[i]);
        assert s[1..][i - 1] == s[i];
      }
      TrimStartKeepsTail(s[1..], tail);
    }
  }

  /** Surrounding white space never changes the verdict of either length
      check. */
  lemma PaddingIgnored(front: string, value: string, back: string, min: int, max: int)
    requires AllSpace(front) && AllSpace(back)
    ensures Trim(front + value + back) == Trim(value)
    ensures IsLengthWithinRange(front + value + back, min, max) == IsLengthWithinRange(value, min, max)
    ensures IsNotEmpty(front + value + back) == IsNotEmpty(value)
  {
    TrimPadded(front, value, back);
  }

  lemma TrimPadded(front: string, value: string, back: string)
    requires AllSpace(front) && AllSpace(back)
    ensures Trim(front + value + back) == Trim(value)
  {
    assert front + value + back == front + (value + back);
    TrimStartSkipsPadding(front, value + back);
    if AllSpace(value) {
      assert AllSpace(value + back);
      TrimOfSpaces(value + back);
      TrimOfSpaces(value);
    } else {
      TrimStartKeepsTail(value, back);
      TrimEndSkipsPadding(TrimStart(value), back);
    }
  }

  // ------------------------------------------------------------------ email

  predicate IsAsciiAlnum(c: char) {
    IsAsciiDigit(c) || IsLower(c) || IsUpper(c)
  }

  /** ``[a-zA-Z0-9.!#$%&'*+/=?^_`{|}~-]``. */
  predicate LocalChar(c: char) {
    IsAsciiAlnum(c) || c in ".!#$%&'*+/=?^_`{|}~-"
  }

  /** `[a-zA-Z0-9-]`. */
  predicate LabelChar(c: char) {
    IsAsciiAlnum(c) || c == '-'
  }

  /** `[a-zA-Z0-9-]+(?:\.[a-zA-Z0-9-]+)*`: label characters and dots, with a
      label character first and last and never two dots in a row. */
  predicate DomainMatch(d: string) {
    d != [] && LabelChar(d[0]) && LabelChar(d[|d| - 1])
    && (forall i :: 0 <= i < |d| ==> LabelChar(d[i]) || d[i] == '.')
    && !Includes(d, "..")
  }

  /** The whole pattern: a non-empty local part, `@`, a domain. */
  predicate EmailRegex(s: string) {
    exists i :: 0 < i < |s| && s[i] == '@' && (forall j :: 0 <= j < i ==> LocalChar(s[j])) && DomainMatch(s[i + 1..])
  }

  /** `emailRegex.test(email) && email.includes('.')`. */
  predicate IsValidEmail(email: string) {
    EmailRegex(email) && Includes(email, ".")
  }

  /** An accepted address has exactly one `@`. */
  lemma ValidEmailOneAt(email: string) returns (at: nat)
    requires IsValidEmail(email)
    ensures at < |email| && email[at] == '@'
    ensures forall j :: 0 <= j < |email| && email[j] == '@' ==> j == at
  {
    var i :| 0 < i < |email| && email[i] == '@' && (forall j :: 0 <= j < i ==> LocalChar(email[j])) && DomainMatch(email[i + 1..]);
    at := i;
    assert !LocalChar('@') && !LabelChar('@');
    forall j | 0 <= j < |email| && j != i ensures email[j] != '@' {
      if j > i {
        var d := email[i + 1..];
        assert d[j - i - 1] == email[j];
      } else {
        assert LocalChar(email[j]);
      }
    }
  }

  /** The dot may sit in the local part: `a.b@c` is accepted, although it
      has no dot after the `@` and the sign-up pattern refuses it. */
  lemma DotInLocalPart()
    ensures IsValidEmail("a.b@c")
    ensures !IsValidEmail("a@b")
  {
    var s := "a.b@c";
    assert s[3] == '@' && s[4..] == "c";
    assert OccursAt(s, ".", 1);
    var t := "a@b";
    forall i | 0 <= i <= |t| ensures !OccursAt(t, ".", i) {
      if i + 1 <= |t| { assert t[i..i + 1][0] == t[i]; }
    }
  }

  // ----------------------------------------------------------------- number

  /** The split `-?` = s[..i], `\d*` = s[i..j], `\.?` = s[j..k], `\d+` =
      s[k..] of a match of `/^-?\d*\.?\d+$/`. */
  predicate NumberSplit(s: string, i: int, j: int, k: int) {
    0 <= i <= j <= k < |s|
    && (i == 0 || (i == 1 && s[0] == '-'))
    && AllDigits(s[i..j])
    && (k == j || (k == j + 1 && s[j] == '.'))
    && AllDigits(s[k..])
  }

  /** `/^-?\d*\.?\d+$/.test(value)`. */
  predicate IsNumber(value: string) {
    exists i, j, k | 0 <= i <= j <= k < |value| :: NumberSplit(value, i, j, k)
  }

  function Unsigned(s: string): string {
    if s != [] && s[0] == '-' then s[1..] else s
  }

  /** The shape the pattern accepts, read off directly: after an optional
      `-`, digits and at most one `.`, ending in a digit. */
  predicate NumberShape(s: string) {
    var t := Unsigned(s);
    t != [] && IsAsciiDigit(t[|t| - 1])
    && (forall a :: 0 <= a < |t| ==> IsAsciiDigit(t[a]) || t[a] == '.')
    && (forall a, b :: 0 <= a < b < |t| && t[a] == '.' ==> t[b] != '.')
  }

  lemma NumberSplitShape(s: string, i: int, j: int, k: int)
    requires NumberSplit(s, i, j, k)
    ensures NumberShape(s)
  {
    var t := Unsigned(s);
    assert t == s[i..];
    forall a | 0 <= a < |t| ensures IsAsciiDigit(t[a]) || (t[a] == '.' && i + a == j) {
      if i + a < j { assert s[i..j][a] == t[a]; }
      else if i + a >= k { assert s[k..][i + a - k] == t[a]; }
    }
    assert s[k..][|s| - 1 - k] == t[|t| - 1];
  }

  lemma ShapeNumberSplit(s: string)
    requires NumberShape(s)
    ensures IsNumber(s)
  {
    var t := Unsigned(s);
    var i := |s| - |t|;
    assert t == s[i..];
    if exists p :: 0 <= p < |t| && t[p] == '.' {
      var p :| 0 <= p < |t| && t[p] == '.';
      assert p < |t| - 1;
      forall a | 0 <= a < p ensures IsAsciiDigit(t[a]) { }
      forall a | p < a < |t| ensures IsAsciiDigit(t[a]) { }
      assert s[i..i + p] == t[..p];
      assert s[i + p + 1..] == t[p + 1..];
      assert NumberSplit(s, i, i + p, i + p + 1);
    } else {
      assert s[i..i] == [];
      assert NumberSplit(s, i, i, i);
    }
  }

  /** The pattern accepts exactly the number shape. */
  lemma IsNumberIffShape(value: string)
    ensures IsNumber(value) <==> NumberShape(value)
  {
    if IsNumber(value) {
      var i, j, k :| 0 <= i <= j <= k < |value| && NumberSplit(value, i, j, k);
      NumberSplitShape(value, i, j, k);
    }
    if NumberShape(value) {
      ShapeNumberSplit(value);
    }
  }

  /** A leading `.` is fine; a trailing `.`, a lone `-` and the empty string
      are not. */
  lemma NumberExamples()
    ensures IsNumber(".5") && IsNumber("-0.25")
    ensures !IsNumber("5.") && !IsNumber("-") && !IsNumber("") && !IsNumber("1.2.3")
  {
    IsNumberIffShape(".5");
    IsNumberIffShape("-0.25");
    IsNumberIffShape("5.");
    IsNumberIffShape("-");
    IsNumberIffShape("");
    IsNumberIffShape("1.2.3");
    assert Unsigned("-0.25") == "0.25";
    assert Unsigned("-") == "";
    assert "1.2.3"[1] == '.' && "1.2.3"[3] == '.';
  }

  // ------------------------------------------------------------------- date

  /** `/^\d{4}-\d{2}-\d{2}$/`. */
  predicate DateShape(s: string) {
    |s| == 10 && s[4] == '-' && s[7] == '-'
    && forall i :: 0 <= i < 10 && i != 4 && i != 7 ==> IsAsciiDigit(s[i])
  }

  lemma NumberOfDigits(s: string)
    requires s != [] && AllDigits(s)
    ensures StringToNumber(s) == Some(DigitsValue(s))
  {
    assert IsAsciiDigit(s[0]) && IsAsciiDigit(s[|s| - 1]);
    assert !IsSpace(s[0]) && !IsSpace(s[|s| - 1]);
    assert TrimStart(s) == s;
    assert TrimEnd(s) == s;
    assert Trim(s) == s;
    assert SignFree(s) == s;
  }

  /** The three fields of a date-shaped string are digit runs. */
  lemma DateDigits(s: string)
    requires DateShape(s)
    ensures AllDigits(s[..4]) && AllDigits(s[5..7]) && AllDigits(s[8..])
  {
    var y, m, d := s[..4], s[5..7], s[8..];
    forall i | 0 <= i < 4 ensures IsAsciiDigit(y[i]) { assert y[i] == s[i]; }
    forall i | 0 <= i < 2 ensures IsAsciiDigit(m[i]) { assert m[i] == s[i + 5]; }
    forall i | 0 <= i < 2 ensures IsAsciiDigit(d[i]) { assert d[i] == s[i + 8]; }
  }

  /** Under the shape, `split('-')` cuts at the two hyphens. */
  lemma DateSplit(s: string)
    requires DateShape(s)
    ensures Split(s, "-") == [s[..4], s[5..7], s[8..]]
  {
    var y, m, d := s[..4], s[5..7], s[8..];
    DateDigits(s);
    assert !HasChar(y, '-') && !HasChar(m, '-') && !HasChar(d, '-');
    assert s == y + ['-'] + (m + ['-'] + d);
    SplitAtFirst(y, '-', m + ['-'] + d);
    SplitAtFirst(m, '-', d);
    NoCharNoOccurrence(d, '-');
    SplitWithoutSeparator(d, "-");
  }

  /** Under the shape, `split('-').map(Number)` yields the three fields. */
  lemma DateFields(s: string)
    requires DateShape(s)
    ensures Split(s, "-") == [s[..4], s[5..7], s[8..]]
    ensures AllDigits(s[..4]) && AllDigits(s[5..7]) && AllDigits(s[8..])
    ensures StringToNumber(s[..4]) == Some(DigitsValue(s[..4]))
    ensures StringToNumber(s[5..7]) == Some(DigitsValue(s[5..7]))
    ensures StringToNumber(s[8..]) == Some(DigitsValue(s[8..]))
  {
    DateSplit(s);
    DateDigits(s);
    NumberOfDigits(s[..4]);
    NumberOfDigits(s[5..7]);
    NumberOfDigits(s[8..]);
  }

  /** `new Date(year, month - 1, day)` reads back the same year, month and
      day. */
  predicate ReadsBack(year: int, month: int, day: int) {
    Calendar.MakeDate(year, month - 1, day) == Calendar.Date(year, month - 1, day)
  }

  /** `isValidDate(dateString)`: the shape, then the read-back of the three
      `Number`s that `split('-')` yields. */
  predicate IsValidDate(dateString: string) {
    if !DateShape(dateString) then false
    else
      DateFields(dateString);
      var fields := Split(dateString, "-");
      ReadsBack(StringToNumber(fields[0]).value, StringToNumber(fields[1]).value, StringToNumber(fields[2]).value)
  }

  /** A real date: the month 1..12, the day within the month (so February 29
      only in a leap year) and the year at least 100. */
  predicate RealDate(year: int, month: int, day: int) {
    year >= 100 && 1 <= month <= 12 && 1 <= day <= Calendar.DaysInMonth(year, month - 1)
  }

  /** The read-back succeeds exactly for real dates, for what four and two
      digit fields can hold. Years 0 to 99 always fail: `Date` reads them as
      1900 to 1999. */
  lemma ReadsBackIffReal(year: nat, month: nat, day: nat)
    ensures ReadsBack(year, month, day) <==> RealDate(year, month, day)
  {
    if year <= 99 {
      Calendar.SmallYearMoves(year, month - 1, day);
    } else if RealDate(year, month, day) {
      Calendar.MakeDateOfProper(year, month - 1, day);
    }
  }

  /** The three numeric fields of a `YYYY-MM-DD` string. */
  function Year(s: string): nat requires DateShape(s) { DateFields(s); DigitsValue(s[..4]) }
  function Month(s: string): nat requires DateShape(s) { DateFields(s); DigitsValue(s[5..7]) }
  function Day(s: string): nat requires DateShape(s) { DateFields(s); DigitsValue(s[8..]) }

  /** `isValidDate` holds exactly for the `YYYY-MM-DD` strings that name a
      real date. */
  lemma IsValidDateIffReal(s: string)
    ensures IsValidDate(s) <==> DateShape(s) && RealDate(Year(s), Month(s), Day(s))
  {
    if DateShape(s) {
      DateFields(s);
      ReadsBackIffReal(Year(s), Month(s), Day(s));
    }
  }

  function DigitValue(c: char): int { c as int - '0' as int }

  lemma {:induction false} TwoDigits(s: string)
    requires |s| == 2 && AllDigits(s)
    ensures DigitsValue(s) == 10 * DigitValue(s[0]) + DigitValue(s[1])
  {
    var head := s[..1];
    assert head[0] == s[0] && head[..|head| - 1] == [];
    assert DigitsValue(head) == DigitValue(s[0]);
    assert s[..|s| - 1] == head;
  }

  lemma {:induction false} FourDigits(s: string)
    requires |s| == 4 && AllDigits(s)
    ensures DigitsValue(s) == 1000 * DigitValue(s[0]) + 100 * DigitValue(s[1]) + 10 * DigitValue(s[2]) + DigitValue(s[3])
  {
    var three := s[..3];
    var two := s[..2];
    assert three[..2] == two && three[2] == s[2];
    assert two[0] == s[0] && two[1] == s[1];
    assert AllDigits(two) by { assert forall i :: 0 <= i < 2 ==> two[i] == s[i]; }
    TwoDigits(two);
  }

  lemma FieldValues(s: string, year: int, month: int, day: int)
    requires DateShape(s)
    requires year == 1000 * DigitValue(s[0]) + 100 * DigitValue(s[1]) + 10 * DigitValue(s[2]) + DigitValue(s[3])
    requires month == 10 * DigitValue(s[5]) + DigitValue(s[6]) && day == 10 * DigitValue(s[8]) + DigitValue(s[9])
    ensures Year(s) == year && Month(s) == month && Day(s) == day
  {
    DateFields(s);
    var y, m, d := s[..4], s[5..7], s[8..];
    assert y[0] == s[0] && y[1] == s[1] && y[2] == s[2] && y[3] == s[3];
    assert m[0] == s[5] && m[1] == s[6] && d[0] == s[8] && d[1] == s[9];
    FourDigits(y);
    TwoDigits(m);
    TwoDigits(d);
  }

  /** The verdict on a string, from its ten characters. */
  lemma DateExample(s: string, year: int, month: int, day: int)
    requires DateShape(s)
    requires year == 1000 * DigitValue(s[0]) + 100 * DigitValue(s[1]) + 10 * DigitValue(s[2]) + DigitValue(s[3])
    requires month == 10 * DigitValue(s[5]) + DigitValue(s[6]) && day == 10 * DigitValue(s[8]) + DigitValue(s[9])
    ensures IsValidDate(s) == RealDate(year, month, day)
  {
    FieldValues(s, year, month, day);
    IsValidDateIffReal(s);
  }

  /** Every year from 0000 to 0099 is refused, 0000-01-01 included. */
  lemma SmallYearsRefused(s: string)
    requires DateShape(s) && Year(s) < 100
    ensures !IsValidDate(s)
  {
    IsValidDateIffReal(s);
  }

  /** February 29 is accepted exactly in leap years. */
  lemma LeapDay(s: string)
    requires DateShape(s) && Year(s) >= 100 && Month(s) == 2 && Day(s) == 29
    ensures IsValidDate(s) <==> Calendar.IsLeapYear(Year(s))
  {
    IsValidDateIffReal(s);
  }

  lemma MalformedDatesRefused()
    ensures !IsValidDate("2023-1-1") && !IsValidDate("") && !IsValidDate("2023/10/01")
  {
    assert "2023/10/01"[4] != '-';
  }

  // ------------------------------------------------------------------ phone

  /** The character classes the phone pattern is built from. */
  datatype Class = Zero | NonZero | Digit | Hyphen

  predicate InClass(c: char, k: Class) {
    match k
    case Zero => c == '0'
    case NonZero => '1' <= c <= '9'
    case Digit => IsAsciiDigit(c)
    case Hyphen => c == '-'
  }

  predicate Fits(s: string, p: seq<Class>) {
    |s| == |p| && forall i :: 0 <= i < |s| ==> InClass(s[i], p[i])
  }

  /** One alternative `before -? after` of the pattern. */
  datatype Piece = Piece(before: seq<Class>, after: seq<Class>)

  function Layout(p: Piece, hyphen: bool): seq<Class> {
    p.before + (if hyphen then [Hyphen] else []) + p.after
  }

  /** The four alternatives `[1-9]{1}-?[1-9]\d{3}`, `[1-9]{2}-?\d{3}`,
      `[1-9]{2}\d{1}-?\d{2}` and `[1-9]{2}\d{2}-?\d{1}`. */
  const Areas: seq<Piece> := [
    Piece([NonZero], [NonZero, Digit, Digit, Digit]),
    Piece([NonZero, NonZero], [Digit, Digit, Digit]),
    Piece([NonZero, NonZero, Digit], [Digit, Digit]),
    Piece([NonZero, NonZero, Digit, Digit], [Digit])]

  /** The closing `-?\d{4}`. */
  const Subscriber := Piece([], [Digit, Digit, Digit, Digit])

  /** `0`, area alternative `a` with or without its hyphen, then the
      subscriber part with or without its hyphen. */
  function Pattern(a: int, h1: bool, h2: bool): seq<Class>
    requires 0 <= a < |Areas|
  {
    [Zero] + Layout(Areas[a], h1) + Layout(Subscriber, h2)
  }

  /** `phoneRegex.test(phoneNumber)`. */
  predicate IsValidPhoneNumber(phoneNumber: string) {
    exists a, h1, h2 | 0 <= a < |Areas| :: Fits(phoneNumber, Pattern(a, h1, h2))
  }

  predicate IsDigitClass(k: Class) {
    k != Hyphen
  }

  function DigitClasses(p: seq<Class>): nat {
    if p == [] then 0 else (if IsDigitClass(p[0]) then 1 else 0) + DigitClasses(p[1..])
  }

  function HyphenClasses(p: seq<Class>): nat {
    if p == [] then 0 else (if p[0] == Hyphen then 1 else 0) + HyphenClasses(p[1..])
  }

  function CountDigits(s: string): nat {
    if s == [] then 0 else (if IsAsciiDigit(s[0]) then 1 else 0) + CountDigits(s[1..])
  }

  function CountChar(s: string, c: char): nat {
    if s == [] then 0 else (if s[0] == c then 1 else 0) + CountChar(s[1..], c)
  }

  lemma {:induction false} FitsCounts(s: string, p: seq<Class>)
    requires Fits(s, p)
    ensures CountDigits(s) == DigitClasses(p) && CountChar(s, '-') == HyphenClasses(p)
  {
    if s != [] {
      assert Fits(s[1..], p[1..]) by {
        forall i | 0 <= i < |s[1..]| ensures InClass(s[1..][i], p[1..][i]) { assert InClass(s[i + 1], p[i + 1]); }
      }
      FitsCounts(s[1..], p[1..]);
    }
  }

  lemma {:induction false} ClassCountsAdd(p: seq<Class>, q: seq<Class>)
    ensures DigitClasses(p + q) == DigitClasses(p) + DigitClasses(q)
    ensures HyphenClasses(p + q) == HyphenClasses(p) + HyphenClasses(q)
  {
    if p != [] {
      assert (p + q)[0] == p[0];
      assert (p + q)[1..] == p[1..] + q;
      ClassCountsAdd(p[1..], q);
    } else {
      assert p + q == q;
    }
  }

  predicate AllDigitClasses(p: seq<Class>) {
    forall i :: 0 <= i < |p| ==> IsDigitClass(p[i])
  }

  lemma {:induction false} DigitClassesOfDigits(p: seq<Class>)
    requires AllDigitClasses(p)
    ensures DigitClasses(p) == |p| && HyphenClasses(p) == 0
  {
    if p != [] {
      assert AllDigitClasses(p[1..]) by {
        forall i | 0 <= i < |p[1..]| ensures IsDigitClass(p[1..][i]) { assert p[1..][i] == p[i + 1]; }
      }
      DigitClassesOfDigits(p[1..]);
    }
  }

  /** A piece whose two halves are digit classes. */
  predicate DigitPiece(p: Piece) {
    AllDigitClasses(p.before) && AllDigitClasses(p.after)
  }

  lemma LayoutCounts(p: Piece, h: bool)
    requires DigitPiece(p)
    ensures DigitClasses(Layout(p, h)) == |p.before| + |p.after|
    ensures HyphenClasses(Layout(p, h)) == if h then 1 else 0
  {
    var mid: seq<Class> := if h then [Hyphen] else [];
    DigitClassesOfDigits(p.before);
    DigitClassesOfDigits(p.after);
    ClassCountsAdd(p.before, mid);
    ClassCountsAdd(p.before + mid, p.after);
  }

  /** Each area alternative covers five digits and starts with `[1-9]`. */
  lemma AreaShape(a: int)
    requires 0 <= a < |Areas|
    ensures DigitPiece(Areas[a]) && |Areas[a].before| + |Areas[a].after| == 5
    ensures Areas[a].before != [] && Areas[a].before[0] == NonZero
  {
  }

  lemma {:induction false} FitsConcat(s: string, p: seq<Class>, q: seq<Class>)
    requires Fits(s, p + q)
    ensures Fits(s[..|p|], p) && Fits(s[|p|..], q)
  {
    forall i | 0 <= i < |p| ensures InClass(s[..|p|][i], p[i]) { assert (p + q)[i] == p[i]; }
    forall i | 0 <= i < |q| ensures InClass(s[|p|..][i], q[i]) { assert (p + q)[|p| + i] == q[i]; }
  }

  /** Each of the sixteen layouts has ten digit classes, at most two
      hyphens, `0` and `[1-9]` first and four digits last. */
  lemma PatternShape(a: int, h1: bool, h2: bool)
    requires 0 <= a < |Areas|
    ensures var p := Pattern(a, h1, h2);
      DigitClasses(p) == 10 && HyphenClasses(p) <= 2 && |p| >= 4 && p[0] == Zero && p[1] == NonZero
      && forall i :: |p| - 4 <= i < |p| ==> p[i] == Digit
  {
    PatternCounts(a, h1, h2);
    PatternEnds(a, h1, h2);
  }

  lemma PatternCounts(a: int, h1: bool, h2: bool)
    requires 0 <= a < |Areas|
    ensures DigitClasses(Pattern(a, h1, h2)) == 10 && HyphenClasses(Pattern(a, h1, h2)) <= 2
  {
    var area := Layout(Areas[a], h1);
    var last := Layout(Subscriber, h2);
    var head := [Zero] + area;
    AreaShape(a);
    assert DigitPiece(Subscriber) by {
      assert forall i :: 0 <= i < |Subscriber.after| ==> Subscriber.after[i] == Digit;
    }
    LayoutCounts(Areas[a], h1);
    LayoutCounts(Subscriber, h2);
    ClassCountsAdd([Zero], area);
    ClassCountsAdd(head, last);
  }

  lemma PatternEnds(a: int, h1: bool, h2: bool)
    requires 0 <= a < |Areas|
    ensures var p := Pattern(a, h1, h2);
      |p| >= 4 && p[0] == Zero && p[1] == NonZero && forall i :: |p| - 4 <= i < |p| ==> p[i] == Digit
  {
    var area := Layout(Areas[a], h1);
    var last := Layout(Subscriber, h2);
    var head := [Zero] + area;
    AreaShape(a);
    assert head[1] == Areas[a].before[0];
    var p := head + last;
    assert p == Pattern(a, h1, h2);
    assert last[|last| - 4..] == [Digit, Digit, Digit, Digit];
    forall i | |p| - 4 <= i < |p| ensures p[i] == Digit {
      assert p[i] == last[i - |head|];
    }
  }

  /** No layout is longer than twelve characters. */
  lemma PatternLength(a: int, h1: bool, h2: bool)
    requires 0 <= a < |Areas|
    ensures |Pattern(a, h1, h2)| <= 12
  {
    AreaShape(a);
  }

  /** Every accepted number has ten digits, starts `0` and a non-zero digit,
      has at most two hyphens and ends in four digits. */
  lemma PhoneNumberShape(s: string)
    requires IsValidPhoneNumber(s)
    ensures CountDigits(s) == 10 && CountChar(s, '-') <= 2
    ensures |s| >= 4 && s[0] == '0' && '1' <= s[1] <= '9'
    ensures forall i :: |s| - 4 <= i < |s| ==> IsAsciiDigit(s[i])
  {
    var a, h1, h2 :| 0 <= a < |Areas| && Fits(s, Pattern(a, h1, h2));
    var p := Pattern(a, h1, h2);
    PatternShape(a, h1, h2);
    FitsCounts(s, p);
    assert InClass(s[0], p[0]) && InClass(s[1], p[1]);
    forall i | |s| - 4 <= i < |s| ensures IsAsciiDigit(s[i]) {
      assert InClass(s[i], p[i]);
    }
  }

  /** An eleven-digit mobile number such as `090-1234-5678` is refused. */
  lemma MobileNumberRefused()
    ensures !IsValidPhoneNumber("090-1234-5678")
  {
    var s := "090-1234-5678";
    forall a, h1, h2 | 0 <= a < |Areas| ensures !Fits(s, Pattern(a, h1, h2)) {
      PatternLength(a, h1, h2);
    }
  }

  lemma PhoneExample()
    ensures IsValidPhoneNumber("03-1234-5678")
  {
    var p := Pattern(0, true, true);
    assert Fits("03-1234-5678", p);
  }

  // --------------------------------------------------------------- password

  /** `@$!%*?&`. */
  predicate IsSpecial(c: char) {
    c in "@$!%*?&"
  }

  /** `[A-Za-z\d@$!%*?&]`. */
  predicate PasswordChar(c: char) {
    IsAsciiAlnum(c) || IsSpecial(c)
  }

  /** What `.` refuses to match. */
  predicate IsLineTerminator(c: char) {
    c == '\n' || c == '\r' || c as int == 0x2028 || c as int == 0x2029
  }

  /** The four lookahead requirements. */
  datatype Need = NeedLower | NeedUpper | NeedDigit | NeedSpecial

  predicate Meets(c: char, n: Need) {
    match n
    case NeedLower => IsLower(c)
    case NeedUpper => IsUpper(c)
    case NeedDigit => IsAsciiDigit(c)
    case NeedSpecial => IsSpecial(c)
  }

  /** `(?=.*X)` at the start: an `X` with no line terminator before it. */
  predicate LookAhead(s: string, n: Need) {
    exists i :: 0 <= i < |s| && Meets(s[i], n) && forall j :: 0 <= j < i ==> !IsLineTerminator(s[j])
  }

  /** `strongPasswordRegex.test(password)`. */
  predicate IsStrongPassword(password: string) {
    LookAhead(password, NeedLower) && LookAhead(password, NeedUpper)
    && LookAhead(password, NeedDigit) && LookAhead(password, NeedSpecial)
    && |password| >= 8 && forall i :: 0 <= i < |password| ==> PasswordChar(password[i])
  }

  predicate Contains(s: string, n: Need) {
    exists i :: 0 <= i < |s| && Meets(s[i], n)
  }

  /** Strong means: at least 8 characters, all from the allowed set, with a
      lowercase letter, an uppercase letter, a digit and a special sign. */
  lemma StrongPasswordIff(password: string)
    ensures IsStrongPassword(password) <==>
      |password| >= 8 && (forall i :: 0 <= i < |password| ==> PasswordChar(password[i]))
      && Contains(password, NeedLower) && Contains(password, NeedUpper)
      && Contains(password, NeedDigit) && Contains(password, NeedSpecial)
  {
    if forall i :: 0 <= i < |password| ==> PasswordChar(password[i]) {
      AllowedLookAhead(password, NeedLower);
      AllowedLookAhead(password, NeedUpper);
      AllowedLookAhead(password, NeedDigit);
      AllowedLookAhead(password, NeedSpecial);
    }
  }

  /** No allowed password character is a line terminator. */
  lemma AllowedNotTerminator(c: char)
    requires PasswordChar(c)
    ensures !IsLineTerminator(c)
  {
  }

  /** Over allowed characters, a lookahead finds what `Contains` finds. */
  lemma AllowedLookAhead(password: string, n: Need)
    requires forall i :: 0 <= i < |password| ==> PasswordChar(password[i])
    ensures LookAhead(password, n) <==> Contains(password, n)
  {
    if Contains(password, n) {
      var i :| 0 <= i < |password| && Meets(password[i], n);
      forall j | 0 <= j < i ensures !IsLineTerminator(password[j]) {
        AllowedNotTerminator(password[j]);
      }
    }
  }
}
