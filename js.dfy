/**
 * The small part of JavaScript's value semantics the handlers rely on:
 * JSON values and their truthiness, property access, String.prototype
 * split/includes/trim, UTF-16 length, parseInt and Number coercion.
 */
module Js {
  import opened Wrappers

  /** A parsed JSON value. Numbers are integers in this model. */
  datatype Json =
    | JNull
    | JBool(b: bool)
    | JNum(n: int)
    | JStr(s: string)
    | JArr(elems: seq<Json>)
    | JObj(fields: map<string, Json>)

  /** JavaScript truthiness of a JSON value. */
  predicate Truthy(j: Json) {
    match j
    case JNull => false
    case JBool(b) => b
    case JNum(n) => n != 0
    case JStr(s) => s != ""
    case JArr(_) => true
    case JObj(_) => true
  }

  /** `!x` for a value that may be `undefined` (None). */
  predicate Falsy(v: Option<Json>) {
    v.None? || !Truthy(v.value)
  }

  /** Reading `j.key`: `null` throws a TypeError (Err), an object yields its
      field or `undefined` (None), every other value yields `undefined` for
      the keys these handlers read. */
  function Get(j: Json, key: string): (r: Result<Option<Json>, ()>)
    ensures r.Err? <==> j.JNull?
    ensures j.JObj? && key in j.fields ==> r == Ok(Some(j.fields[key]))
  {
    match j
    case JNull => Err(())
    case JObj(m) => if key in m then Ok(Some(m[key])) else Ok(None)
    case _ => Ok(None)
  }

  /** `j.key` when it is a string, None otherwise (a throw included). */
  function StringField(j: Json, key: string): (r: Option<string>)
    ensures r.Some? <==> Get(j, key).Ok? && Get(j, key).value.Some? && Get(j, key).value.value.JStr?
    ensures r.Some? ==> Get(j, key) == Ok(Some(JStr(r.value)))
  {
    match Get(j, key)
    case Ok(Some(JStr(s))) => Some(s)
    case _ => None
  }

  /** Reading `x.key` where `x` may be `undefined`: undefined throws too. */
  function GetOpt(v: Option<Json>, key: string): Result<Option<Json>, ()> {
    match v
    case None => Err(())
    case Some(j) => Get(j, key)
  }

  // ---------------------------------------------------------------- chars

  predicate IsAsciiDigit(c: char) { '0' <= c <= '9' }
  predicate IsLower(c: char) { 'a' <= c <= 'z' }
  predicate IsUpper(c: char) { 'A' <= c <= 'Z' }

  /** ECMAScript WhiteSpace and LineTerminator code points: the set that
      `\s` matches and that `trim` removes. */
  predicate IsSpace(c: char) {
    var k := c as int;
    (0x09 <= k <= 0x0D) || k == 0x20 || k == 0xA0 || k == 0x1680
    || (0x2000 <= k <= 0x200A) || k == 0x2028 || k == 0x2029
    || k == 0x202F || k == 0x205F || k == 0x3000 || k == 0xFEFF
  }

  predicate AllDigits(s: string) {
    forall i :: 0 <= i < |s| ==> IsAsciiDigit(s[i])
  }

  /** Value of a string of decimal digits. */
  function DigitsValue(s: string): (n: nat)
    requires AllDigits(s)
  {
    if s == [] then 0 else DigitsValue(s[..|s| - 1]) * 10 + (s[|s| - 1] as int - '0' as int)
  }

  // -------------------------------------------------------------- strings

  /** `s.length`: UTF-16 code units, so a code point above U+FFFF counts twice. */
  function Utf16Length(s: string): (n: nat)
    ensures |s| <= n <= 2 * |s|
  {
    if s == [] then 0 else (if s[0] as int > 0xFFFF then 2 else 1) + Utf16Length(s[1..])
  }

  /** `s.split(sep)` for a non-empty separator: cut at each occurrence,
      searching left to right, never overlapping. */
  function Split(s: string, sep: string): (parts: seq<string>)
    requires sep != []
    ensures |parts| >= 1
    decreases |s|
  {
    if |s| < |sep| then [s]
    else if s[..|sep|] == sep then [""] + Split(s[|sep|..], sep)
    else
      var rest := Split(s[1..], sep);
      [[s[0]] + rest[0]] + rest[1..]
  }

  /** `t` occurs in `s` starting at index i. */
  predicate OccursAt(s: string, t: string, i: int) {
    0 <= i && i + |t| <= |s| && s[i..i + |t|] == t
  }

  /** `s.includes(t)`. */
  predicate Includes(s: string, t: string) {
    exists i :: 0 <= i <= |s| && OccursAt(s, t, i)
  }

  function TrimStart(s: string): (r: string)
    ensures |r| <= |s| && r == s[|s| - |r|..]
    ensures r != [] ==> !IsSpace(r[0])
    ensures forall i :: 0 <= i < |s| - |r| ==> IsSpace(s[i])
  {
    if s != [] && IsSpace(s[0]) then TrimStart(s[1..]) else s
  }

  function TrimEnd(s: string): (r: string)
    ensures |r| <= |s| && r == s[..|r|]
    ensures r != [] ==> !IsSpace(r[|r| - 1])
    ensures forall i :: |r| <= i < |s| ==> IsSpace(s[i])
  {
    if s != [] && IsSpace(s[|s| - 1]) then TrimEnd(s[..|s| - 1]) else s
  }

  /** `s.trim()`. */
  function Trim(s: string): string {
    TrimEnd(TrimStart(s))
  }

  predicate HasChar(s: string, c: char) {
    exists i :: 0 <= i < |s| && s[i] == c
  }

  /** A string without the separator splits into itself. */
  lemma {:induction false} SplitWithoutSeparator(s: string, sep: string)
    requires sep != [] && !Includes(s, sep)
    ensures Split(s, sep) == [s]
    decreases |s|
  {
    if |s| >= |sep| {
      assert !OccursAt(s, sep, 0);
      assert s[..|sep|] != sep;
      assert !Includes(s[1..], sep) by {
        forall i | OccursAt(s[1..], sep, i) ensures false {
          assert s[1..][i..i + |sep|] == s[i + 1..i + 1 + |sep|];
          assert OccursAt(s, sep, i + 1);
        }
      }
      SplitWithoutSeparator(s[1..], sep);
      assert [s[0]] + s[1..] == s;
    }
  }

  /** Splitting on a one-character separator at its first occurrence. */
  lemma {:induction false} SplitAtFirst(a: string, c: char, b: string)
    requires !HasChar(a, c)
    ensures Split(a + [c] + b, [c]) == [a] + Split(b, [c])
    decreases |a|
  {
    var s := a + [c] + b;
    if a == [] {
      assert s[..1] == [c];
      assert s[1..] == b;
    } else {
      assert s[..1] == [a[0]];
      assert s[1..] == a[1..] + [c] + b;
      assert !HasChar(a[1..], c) by {
        forall i | 0 <= i < |a[1..]| ensures a[1..][i] != c { assert a[1..][i] == a[i + 1]; }
      }
      SplitAtFirst(a[1..], c, b);
      assert [a[0]] + a[1..] == a;
    }
  }

  /** A one-character separator occurs exactly where the character does. */
  lemma NoCharNoOccurrence(s: string, c: char)
    requires !HasChar(s, c)
    ensures !Includes(s, [c])
  {
    forall i | 0 <= i <= |s| ensures !OccursAt(s, [c], i) {
      if i + 1 <= |s| { assert s[i..i + 1] == [s[i]]; }
    }
  }

  // ------------------------------------------------------------- numbers

  /** Longest prefix of decimal digits. */
  function DigitPrefix(s: string): (p: string)
    ensures |p| <= |s| && p == s[..|p|] && AllDigits(p)
    ensures |p| < |s| ==> !IsAsciiDigit(s[|p|])
  {
    if s != [] && IsAsciiDigit(s[0]) then [s[0]] + DigitPrefix(s[1..]) else []
  }

  /** `parseInt(s, 10)`: leading white space, an optional sign, then the
      longest run of decimal digits; no digit at all is NaN (None). */
  function ParseInt(s: string): (r: Option<int>)
    ensures r.Some? <==> DigitPrefix(SignFree(TrimStart(s))) != []
  {
    var t := TrimStart(s);
    var neg := t != [] && t[0] == '-';
    var digits := DigitPrefix(SignFree(t));
    var v: int := if digits == [] then 0 else DigitsValue(digits);
    if digits == [] then None else Some(if neg then -v else v)
  }

  /** Drops one leading `+` or `-`. */
  function SignFree(t: string): string {
    if t != [] && (t[0] == '-' || t[0] == '+') then t[1..] else t
  }

  /** Decimal rendering of an integer (`String(n)`, `${n}`). */
  function NatToString(n: nat): (s: string)
    ensures s != [] && AllDigits(s)
    decreases n
  {
    if n < 10 then [('0' as int + n) as char] else NatToString(n / 10) + [('0' as int + n % 10) as char]
  }

  function IntToString(n: int): string {
    if n < 0 then "-" + NatToString(-n) else NatToString(n)
  }

  /** `String(j)` of a parsed JSON value. An array is `join(',')` of its
      elements, where a `null` element renders as the empty string. */
  function JsonString(j: Json): string {
    match j
    case JNull => "null"
    case JBool(b) => if b then "true" else "false"
    case JNum(n) => IntToString(n)
    case JStr(s) => s
    case JArr(es) => Join(seq(|es|, i requires 0 <= i < |es| => if es[i].JNull? then "" else JsonString(es[i])), ",")
    case JObj(_) => "[object Object]"
  }

  /** `parts.join(sep)`. */
  function Join(parts: seq<string>, sep: string): string {
    if parts == [] then "" else if |parts| == 1 then parts[0] else parts[0] + sep + Join(parts[1..], sep)
  }

  /** `String(v)`, where `undefined` (None) renders as its name. */
  function ToStringValue(v: Option<Json>): string {
    match v
    case None => "undefined"
    case Some(j) => JsonString(j)
  }

  /** An empty array renders as the empty string and a one-element array
      as its element, `null` rendering as the empty string. */
  lemma ShortArrayString(j: Json)
    ensures ToStringValue(Some(JArr([]))) == ""
    ensures ToStringValue(Some(JArr([j]))) == if j.JNull? then "" else JsonString(j)
  {
    var parts := seq(1, i requires 0 <= i < 1 => if [j][i].JNull? then "" else JsonString([j][i]));
    assert parts == [if j.JNull? then "" else JsonString(j)];
  }

  /** `parseInt` reads a digit prefix: digits followed by anything that is
      not a digit (`"12abc"`) read as the digits' value. */
  lemma ParseIntOfDigits(n: nat, rest: string)
    requires rest == [] || !IsAsciiDigit(rest[0])
    ensures ParseInt(NatToString(n) + rest) == Some(n)
  {
    var s := NatToString(n);
    NatToStringHasNoSpace(n);
    assert (s + rest)[0] == s[0];
    assert TrimStart(s + rest) == s + rest;
    assert SignFree(s + rest) == s + rest by { assert IsAsciiDigit(s[0]); }
    DigitsThenOther(s, rest);
    DigitsOfNat(n);
  }

  /** `parseInt(String(undefined))` is NaN: `"undefined"` has no digits. */
  lemma ParseIntOfUndefined()
    ensures ParseInt(ToStringValue(None)).None?
  {
    var s := ToStringValue(None);
    assert s[0] == 'u' && !IsSpace(s[0]);
    assert TrimStart(s) == s;
    assert SignFree(s) == s;
  }

  /** `parseInt(String(n))` gives the number back. */
  lemma ParseIntOfString(n: nat)
    ensures ParseInt(IntToString(n)) == Some(n)
  {
    ParseIntOfDigits(n, []);
    assert NatToString(n) + [] == NatToString(n);
  }

  lemma NatToStringHasNoSpace(n: nat)
    ensures NatToString(n) != [] && !IsSpace(NatToString(n)[0])
  {
    assert IsAsciiDigit(NatToString(n)[0]);
  }

  lemma {:induction false} DigitsThenOther(s: string, rest: string)
    requires AllDigits(s) && (rest == [] || !IsAsciiDigit(rest[0]))
    ensures DigitPrefix(s + rest) == s
    decreases |s|
  {
    if s != [] {
      DigitsThenOther(s[1..], rest);
      assert (s + rest)[1..] == s[1..] + rest;
      assert [s[0]] + s[1..] == s;
    }
  }

  lemma {:induction false} DigitsOfNat(n: nat)
    ensures DigitsValue(NatToString(n)) == n
    decreases n
  {
    var s := NatToString(n);
    if n >= 10 {
      DigitsOfNat(n / 10);
      assert s[..|s| - 1] == NatToString(n / 10);
    }
  }

  /** `Number(s)` for strings: surrounding white space ignored, empty is 0,
      an optionally signed run of decimal digits is its value; anything else
      is NaN (None). */
  function StringToNumber(s: string): Option<int> {
    var t := Trim(s);
    if t == [] then Some(0)
    else
      var body := SignFree(t);
      if body != [] && AllDigits(body) then
        var v: int := DigitsValue(body);
        Some(if t[0] == '-' then -v else v)
      else None
  }

  /** `Number(v)` / the coercion of `*` and `<`; NaN is None. */
  function ToNumber(v: Option<Json>): Option<int> {
    match v
    case None => None
    case Some(JNull) => Some(0)
    case Some(JBool(b)) => Some(if b then 1 else 0)
    case Some(JNum(n)) => Some(n)
    case Some(JStr(s)) => StringToNumber(s)
    case Some(JArr(es)) => StringToNumber(JsonString(JArr(es)))
    case Some(JObj(_)) => None
  }

  /** A string that neither starts nor ends with white space trims to
      itself. */
  lemma TrimUnpadded(s: string)
    requires s != [] && !IsSpace(s[0]) && !IsSpace(s[|s| - 1])
    ensures Trim(s) == s
  {
    assert TrimStart(s) == s;
  }

  /** An optionally `-`-signed run of digits converts to its value. */
  lemma SignedDigitsNumber(s: string, d: string, neg: bool)
    requires d != [] && AllDigits(d) && s == (if neg then "-" else "") + d
    ensures StringToNumber(s) == Some(if neg then 0 - DigitsValue(d) else DigitsValue(d))
  {
    assert IsAsciiDigit(d[0]) && IsAsciiDigit(d[|d| - 1]);
    assert s[|s| - 1] == d[|d| - 1];
    TrimUnpadded(s);
    assert s[0] == if neg then '-' else d[0];
    assert SignFree(s) == d by {
      if neg { assert s[1..] == d; }
    }
  }

  /** `Number(String(n))` gives the number back. */
  lemma NumberOfString(n: int)
    ensures StringToNumber(IntToString(n)) == Some(n)
  {
    var m: nat := if n < 0 then -n else n;
    DigitsOfNat(m);
    SignedDigitsNumber(IntToString(n), NatToString(m), n < 0);
  }

  /** `Number([])` and `Number([null])` are 0; a one-element array
      converts like its element's string. */
  lemma ShortArrayNumber(j: Json, n: int)
    ensures ToNumber(Some(JArr([]))) == Some(0)
    ensures ToNumber(Some(JArr([JNull]))) == Some(0)
    ensures !j.JNull? ==> ToNumber(Some(JArr([j]))) == StringToNumber(JsonString(j))
    ensures ToNumber(Some(JArr([JNum(n)]))) == Some(n)
  {
    ShortArrayString(j);
    ShortArrayString(JNull);
    ShortArrayString(JNum(n));
    NumberOfString(n);
  }
}
