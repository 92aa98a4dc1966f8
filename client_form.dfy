/**
 * app/components/ClientForm.tsx: the client form's submit step, its tag
 * checkboxes and its two pattern rules. The submit step coerces the
 * category and tag ids, then calls `onSubmit` only when an `auth_token`
 * cookie is readable and `onClose` only after `onSubmit` resolves.
 */
module ClientForm {
  import opened Wrappers
  import opened Js
  import opened Seqs
  import EmailPattern
  import Validation

  /** A coerced id: a JSON value, or the NaN of `parseInt` on a string with
      no leading digits. */
  datatype IdValue = Value(v: Json) | NaN

  /** `typeof id === 'string' ? parseInt(id, 10) : id`. */
  function CoerceId(v: Json): (r: IdValue)
    ensures !v.JStr? ==> r == Value(v)
    ensures v.JStr? ==> r == (if ParseInt(v.s).Some? then Value(JNum(ParseInt(v.s).value)) else NaN)
  {
    match v
    case JStr(s) => (match ParseInt(s) case None => NaN case Some(n) => Value(JNum(n)))
    case _ => Value(v)
  }

  /** `Array.isArray(tagIds) ? tagIds.map(...) : []`. */
  function CoerceTags(v: Json): (r: seq<IdValue>)
    ensures !v.JArr? ==> r == []
    ensures v.JArr? ==> |r| == |v.elems| && forall k :: 0 <= k < |r| ==> r[k] == CoerceId(v.elems[k])
  {
    if v.JArr? then seq(|v.elems|, k requires 0 <= k < |v.elems| => CoerceId(v.elems[k])) else []
  }

  /** The form values, with the two id fields as the form holds them. */
  datatype FormData = FormData(fields: map<string, string>, categoryId: Json, tagIds: Json)

  /** `formattedData`. */
  datatype Formatted = Formatted(fields: map<string, string>, categoryId: IdValue, tagIds: seq<IdValue>)

  function Format(data: FormData): (f: Formatted)
    ensures f.fields == data.fields
  {
    Formatted(data.fields, CoerceId(data.categoryId), CoerceTags(data.tagIds))
  }

  /** Numeric ids survive formatting; numeric strings become numbers. */
  lemma IdsFormatted(data: FormData)
    ensures data.categoryId.JNum? || data.categoryId.JNull? ==> Format(data).categoryId == Value(data.categoryId)
    ensures data.tagIds.JArr? ==> |Format(data).tagIds| == |data.tagIds.elems|
    ensures data.tagIds.JArr? ==> forall k :: 0 <= k < |data.tagIds.elems| && data.tagIds.elems[k].JNum? ==>
      Format(data).tagIds[k] == Value(data.tagIds.elems[k])
    ensures forall n: nat :: data.categoryId == JStr(IntToString(n)) ==> Format(data).categoryId == Value(JNum(n))
  {
    forall n: nat | data.categoryId == JStr(IntToString(n)) ensures Format(data).categoryId == Value(JNum(n)) {
      ParseIntOfString(n);
    }
  }

  /** What the submit step does, in order. */
  datatype Effect = Submitted(data: Formatted) | Closed

  /** `onSubmitForm(data)`; `authToken` is `Cookies.get('auth_token')` and
      `submitResolves` whether the `onSubmit` promise resolves (a rejection
      is caught and logged). */
  function OnSubmitForm(data: FormData, authToken: Option<string>, submitResolves: bool): (effects: seq<Effect>)
    ensures effects == [] <==> authToken.None? || authToken.value == ""
    ensures effects != [] ==> effects[0] == Submitted(Format(data))
    ensures Closed in effects <==> effects != [] && submitResolves
    ensures |effects| <= 2 && (|effects| == 2 ==> effects[1] == Closed)
  {
    var formatted := Format(data);
    if authToken.Some? && authToken.value != "" then
      [Submitted(formatted)] + (if submitResolves then [Closed] else [])
    else []
  }

  /** The checkbox state of tag `id`: `field.value.includes(tag.id)`. */
  predicate Checked(ids: seq<int>, id: int) {
    id in ids
  }

  /** `onCheckedChange(checked)` for tag `id`. */
  function Toggle(ids: seq<int>, id: int, checked: bool): (r: seq<int>)
    ensures Checked(r, id) == checked
  {
    if checked then ids + [id]
    else
      FilterMembers(ids, (x: int) => x != id);
      Filter(ids, (x: int) => x != id)
  }

  /** Checking appends at the end, even when the id is already there. */
  lemma CheckAppends(ids: seq<int>, id: int)
    ensures Toggle(ids, id, true) == ids + [id]
    ensures Count(Toggle(ids, id, true), id) == Count(ids, id) + 1
  {
    assert (ids + [id])[..|ids|] == ids;
  }

  /** Unchecking drops every occurrence of the id and keeps every other id,
      as often as it occurred and in its order. */
  lemma UncheckRemoves(ids: seq<int>, id: int)
    ensures Count(Toggle(ids, id, false), id) == 0
    ensures forall x :: x != id ==> Count(Toggle(ids, id, false), x) == Count(ids, x)
    ensures SubsequenceOf(Toggle(ids, id, false), ids)
  {
    var keep := (x: int) => x != id;
    FilterCount(ids, keep, id);
    forall x | x != id ensures Count(Toggle(ids, id, false), x) == Count(ids, x) {
      FilterCount(ids, keep, x);
    }
    FilterSubsequence(ids, keep);
  }

  /** Unchecking right after checking is the same as unchecking at once. */
  lemma CheckThenUncheck(ids: seq<int>, id: int)
    ensures Toggle(Toggle(ids, id, true), id, false) == Toggle(ids, id, false)
  {
    assert (ids + [id])[..|ids|] == ids;
  }

  /** `\d{1,4}`. */
  predicate DigitRun(s: string) {
    1 <= |s| <= 4 && AllDigits(s)
  }

  /** `-?`. */
  predicate Hyphen(h: string) {
    h == "" || h == "-"
  }

  /** `s` is `0`, a digit run, an optional hyphen, a run, an optional
      hyphen and a run. */
  predicate PhoneParts(s: string, a: string, h1: string, b: string, h2: string, c: string) {
    DigitRun(a) && Hyphen(h1) && DigitRun(b) && Hyphen(h2) && DigitRun(c)
    && s == "0" + a + h1 + b + h2 + c
  }

  /** The phone rule `/^(0\d{1,4}(-?\d{1,4}){2})$/`. */
  ghost predicate PhoneRule(s: string) {
    exists a, h1, b, h2, c :: PhoneParts(s, a, h1, b, h2, c)
  }

  /** The e-mail and phone rules of the form. */
  ghost predicate ContactRules(email: string, phone: string) {
    email != "" && EmailPattern.SimpleEmail(email) && phone != "" && PhoneRule(phone)
  }

  /** `at` is the position of the only `@` of `s`, not its first character. */
  predicate SoleAt(s: string, at: int) {
    0 < at < |s| && s[at] == '@' && forall j :: 0 <= j < |s| && s[j] == '@' ==> j == at
  }

  /** A form that passes both rules has an address with one `@` and no
      white space, and a phone number of the shape of `PhoneRuleShape`. */
  lemma ContactRulesShape(email: string, phone: string)
    requires ContactRules(email, phone)
    ensures exists at :: SoleAt(email, at)
    ensures forall j :: 0 <= j < |email| ==> !IsSpace(email[j])
    ensures phone[0] == '0' && Validation.CountChar(phone, '-') <= 2 && Validation.CountDigits(phone) <= 13
  {
    var at := EmailPattern.MatchShape(email);
    assert SoleAt(email, at);
    PhoneRuleShape(phone);
  }

  lemma DigitRunCounts(s: string)
    requires AllDigits(s)
    ensures Validation.CountDigits(s) == |s| && Validation.CountChar(s, '-') == 0
  {
    if s != [] {
      DigitRunCounts(s[1..]);
    }
  }

  lemma HyphenCounts(h: string)
    requires Hyphen(h)
    ensures Validation.CountDigits(h) == 0 && Validation.CountChar(h, '-') == |h|
  {
  }

  lemma {:induction false} CountsAdd(x: string, y: string)
    ensures Validation.CountDigits(x + y) == Validation.CountDigits(x) + Validation.CountDigits(y)
    ensures Validation.CountChar(x + y, '-') == Validation.CountChar(x, '-') + Validation.CountChar(y, '-')
  {
    if x != [] {
      CountsAdd(x[1..], y);
      assert (x + y)[1..] == x[1..] + y;
    } else {
      assert x + y == y;
    }
  }

  /** Counts of the parts add up. */
  lemma PartsCounts(s: string, a: string, h1: string, b: string, h2: string, c: string)
    requires PhoneParts(s, a, h1, b, h2, c)
    ensures Validation.CountDigits(s) == 1 + |a| + |b| + |c|
    ensures Validation.CountChar(s, '-') == |h1| + |h2|
  {
    DigitRunCounts("0"); DigitRunCounts(a); DigitRunCounts(b); DigitRunCounts(c);
    HyphenCounts(h1); HyphenCounts(h2);
    var s1 := "0" + a;
    var s2 := s1 + h1;
    var s3 := s2 + b;
    var s4 := s3 + h2;
    CountsAdd("0", a);
    CountsAdd(s1, h1);
    CountsAdd(s2, b);
    CountsAdd(s3, h2);
    CountsAdd(s4, c);
  }

  /** Every accepted phone number starts with `0` and a digit, ends in a
      digit, and has 4 to 13 digits and at most two hyphens. */
  lemma PhoneRuleShape(s: string)
    requires PhoneRule(s)
    ensures |s| >= 4 && s[0] == '0' && IsAsciiDigit(s[1]) && IsAsciiDigit(s[|s| - 1])
    ensures 4 <= Validation.CountDigits(s) <= 13 && Validation.CountChar(s, '-') <= 2
  {
    var a, h1, b, h2, c :| PhoneParts(s, a, h1, b, h2, c);
    PartsCounts(s, a, h1, b, h2, c);
    assert s[1] == a[0];
    assert s[|s| - 1] == c[|c| - 1];
  }

  /** Both spellings of the placeholder's example are accepted. */
  lemma PhoneExamples()
    ensures PhoneRule("03-1234-5678")
    ensures PhoneRule("0312345678")
  {
    assert PhoneParts("03-1234-5678", "3", "-", "1234", "-", "5678");
    assert PhoneParts("0312345678", "3", "", "1234", "", "5678");
  }

  /** The form accepts a short number like `0312` that the validator of
      lib/validation.ts refuses, since that one demands ten digits. */
  lemma FormLaxerThanValidator()
    ensures PhoneRule("0312") && !Validation.IsValidPhoneNumber("0312")
  {
    assert PhoneParts("0312", "3", "", "1", "", "2");
    DigitRunCounts("0312");
    if Validation.IsValidPhoneNumber("0312") {
      Validation.PhoneNumberShape("0312");
    }
  }
}
