/**
 * lib/auth.ts: `getToken`, which reads `auth_token` out of the raw Cookie
 * header (the cookie-string of section 4.2.1 of RFC 6265) with split, map
 * and `Object.fromEntries`, and `verifyToken`, which refuses to verify
 * without a configured secret and otherwise forwards jsonwebtoken's verdict.
 */
module LibAuth {
  import opened Wrappers
  import opened Js
  import Jwt

  const AuthCookie := "auth_token"

  // ------------------------------------------------- decodeURIComponent

  predicate IsHex(c: char) {
    IsAsciiDigit(c) || 'a' <= c <= 'f' || 'A' <= c <= 'F'
  }

  function HexValue(c: char): (v: int)
    requires IsHex(c)
    ensures 0 <= v < 16
  {
    if IsAsciiDigit(c) then c as int - '0' as int
    else if 'a' <= c <= 'f' then c as int - 'a' as int + 10
    else c as int - 'A' as int + 10
  }

  /** A `%XX` escape starts at index k. */
  predicate EscapeAt(s: string, k: int) {
    0 <= k && k + 2 < |s| && s[k] == '%' && IsHex(s[k + 1]) && IsHex(s[k + 2])
  }

  function ByteAt(s: string, k: int): (b: int)
    requires EscapeAt(s, k)
    ensures 0 <= b < 256
  {
    16 * HexValue(s[k + 1]) + HexValue(s[k + 2])
  }

  /** Number of bytes of the UTF-8 sequence a leading byte announces, 0 for
      a byte that cannot lead one. */
  function SequenceLength(b: int): int {
    if b < 0x80 then 1
    else if b / 32 == 6 then 2
    else if b / 16 == 14 then 3
    else if b / 8 == 30 then 4
    else 0
  }

  /** A `%XX` escape of a continuation byte `10xxxxxx` at index k. */
  predicate ContinuationAt(s: string, k: int) {
    EscapeAt(s, k) && ByteAt(s, k) / 64 == 2
  }

  /** The n - 1 escapes after the first are continuation bytes. */
  predicate ContinuationsAt(s: string, n: int) {
    (n >= 2 ==> ContinuationAt(s, 3)) && (n >= 3 ==> ContinuationAt(s, 6)) && (n >= 4 ==> ContinuationAt(s, 9))
  }

  function CodePoint(s: string, n: int): int
    requires 2 <= n <= 4 && EscapeAt(s, 0) && ContinuationsAt(s, n)
  {
    var b0 := ByteAt(s, 0);
    var b1 := ByteAt(s, 3) % 64;
    if n == 2 then (b0 % 32) * 64 + b1
    else
      var b2 := ByteAt(s, 6) % 64;
      if n == 3 then (b0 % 16) * 4096 + b1 * 64 + b2
      else
        (b0 % 8) * 262144 + b1 * 4096 + b2 * 64 + ByteAt(s, 9) % 64
  }

  /** A code point the sequence decodes to that is not overlong, not a
      surrogate and not above U+10FFFF. */
  predicate Acceptable(cp: int, n: int) {
    if n == 2 then 0x80 <= cp < 0x800
    else if n == 3 then 0x800 <= cp < 0x10000 && !(0xD800 <= cp <= 0xDFFF)
    else 0x10000 <= cp <= 0x10FFFF
  }

  /** `decodeURIComponent(s)`: every `%XX` escape, alone or as part of a
      UTF-8 sequence, becomes its character; a malformed escape throws a
      URIError (None). */
  function DecodeUri(s: string): (r: Option<string>)
    ensures r.Some? && !HasChar(s, '%') ==> r.value == s
    decreases |s|
  {
    if s == [] then Some([])
    else if s[0] != '%' then
      match DecodeUri(s[1..])
      case None => None
      case Some(t) => Some([s[0]] + t)
    else if !EscapeAt(s, 0) then None
    else
      var n := SequenceLength(ByteAt(s, 0));
      if n == 1 then
        match DecodeUri(s[3..])
        case None => None
        case Some(t) => Some([ByteAt(s, 0) as char] + t)
      else if n == 0 || |s| < 3 * n || !ContinuationsAt(s, n) then None
      else
        var cp := CodePoint(s, n);
        if !Acceptable(cp, n) then None
        else
          match DecodeUri(s[3 * n..])
          case None => None
          case Some(t) => Some([cp as char] + t)
  }

  lemma {:induction false} DecodeWithoutEscapes(s: string)
    requires !HasChar(s, '%')
    ensures DecodeUri(s) == Some(s)
  {
    if s != [] {
      assert !HasChar(s[1..], '%') by {
        forall i | 0 <= i < |s[1..]| ensures s[1..][i] != '%' { assert s[1..][i] == s[i + 1]; }
      }
      DecodeWithoutEscapes(s[1..]);
    }
  }

  // ------------------------------------------------------------ getToken

  /** What `getToken` gives back: `undefined`, a string, or the URIError
      thrown out of `decodeURIComponent`. */
  datatype Lookup = Absent | Found(value: string) | Throws

  /** `cookieHeader.split('; ').map((v) => v.split('='))`, before decoding. */
  function RawEntries(header: string): (es: seq<seq<string>>)
    ensures |es| == |Split(header, "; ")|
    ensures forall i :: 0 <= i < |es| ==> es[i] == Split(Split(header, "; ")[i], "=")
  {
    var parts := Split(header, "; ");
    seq(|parts|, i requires 0 <= i < |parts| => Split(parts[i], "="))
  }

  /** `.map(decodeURIComponent)` on every piece, left to right; the first
      malformed piece throws. */
  function DecodePieces(pieces: seq<string>): (r: Option<seq<string>>)
    ensures r.Some? ==> |r.value| == |pieces|
    ensures r.Some? <==> forall i :: 0 <= i < |pieces| ==> DecodeUri(pieces[i]).Some?
    ensures r.Some? ==> forall i :: 0 <= i < |pieces| ==> r.value[i] == DecodeUri(pieces[i]).value
  {
    if pieces == [] then Some([])
    else
      match DecodeUri(pieces[0])
      case None => None
      case Some(p) =>
        match DecodePieces(pieces[1..])
        case None => None
        case Some(ps) => Some([p] + ps)
  }

  function DecodeEntries(es: seq<seq<string>>): (r: Option<seq<seq<string>>>)
    ensures r.Some? ==> |r.value| == |es|
    ensures r.Some? <==> forall i :: 0 <= i < |es| ==> DecodePieces(es[i]).Some?
    ensures r.Some? ==> forall i :: 0 <= i < |es| ==> r.value[i] == DecodePieces(es[i]).value
  {
    if es == [] then Some([])
    else
      match DecodePieces(es[0])
      case None => None
      case Some(e) =>
        match DecodeEntries(es[1..])
        case None => None
        case Some(rest) => Some([e] + rest)
  }

  /** Key and value `Object.fromEntries` takes from an entry array: elements
      0 and 1, `undefined` when missing. */
  function EntryKey(e: seq<string>): string {
    if |e| > 0 then e[0] else "undefined"
  }

  function EntryValue(e: seq<string>): Option<string> {
    if |e| > 1 then Some(e[1]) else None
  }

  /** `Object.fromEntries(es)`: later entries overwrite earlier ones. */
  function FromEntries(es: seq<seq<string>>): map<string, Option<string>> {
    if es == [] then map[]
    else FromEntries(es[..|es| - 1])[EntryKey(es[|es| - 1]) := EntryValue(es[|es| - 1])]
  }

  /** `getToken(req)`: no (or an empty) Cookie header gives `undefined`. */
  function GetToken(header: Option<string>): Lookup {
    if header.None? || header.value == "" then Absent
    else
      match DecodeEntries(RawEntries(header.value))
      case None => Throws
      case Some(es) =>
        var cookies := FromEntries(es);
        if AuthCookie in cookies && cookies[AuthCookie].Some? then Found(cookies[AuthCookie].value)
        else Absent
  }

  /** The reference reading: the index of the last entry named `k`. */
  function LastNamed(es: seq<seq<string>>, k: string): (r: Option<nat>)
    ensures r.Some? ==>
      r.value < |es| && EntryKey(es[r.value]) == k
      && forall j :: r.value < j < |es| ==> EntryKey(es[j]) != k
    ensures r.None? ==> forall j :: 0 <= j < |es| ==> EntryKey(es[j]) != k
  {
    if es == [] then None
    else if EntryKey(es[|es| - 1]) == k then Some(|es| - 1)
    else LastNamed(es[..|es| - 1], k)
  }

  /** `Object.fromEntries` keeps, for every key, the value of the last entry
      carrying it, and has exactly the keys some entry carries. */
  lemma {:induction false} FromEntriesLastWins(es: seq<seq<string>>, k: string)
    ensures k in FromEntries(es) <==> LastNamed(es, k).Some?
    ensures k in FromEntries(es) ==> FromEntries(es)[k] == EntryValue(es[LastNamed(es, k).value])
  {
    if es != [] {
      FromEntriesLastWins(es[..|es| - 1], k);
    }
  }

  /** getToken's answer, stated on the decoded entries: the value of the
      last entry named exactly `auth_token`, `undefined` when there is none
      or when that last entry has no `=`. */
  lemma GetTokenIsLastAuthEntry(header: string)
    requires header != ""
    requires DecodeEntries(RawEntries(header)).Some?
    ensures var es := DecodeEntries(RawEntries(header)).value;
      match LastNamed(es, AuthCookie)
      case None => GetToken(Some(header)) == Absent
      case Some(i) => GetToken(Some(header)) == (if |es[i]| > 1 then Found(es[i][1]) else Absent)
  {
    FromEntriesLastWins(DecodeEntries(RawEntries(header)).value, AuthCookie);
  }

  /** A missing Cookie header gives `undefined`; so does an empty one. */
  lemma NoHeaderNoToken()
    ensures GetToken(None) == Absent && GetToken(Some("")) == Absent
  {
  }

  /** Decoding runs on every piece of every entry, so one malformed escape
      anywhere in the header makes getToken throw. */
  lemma MalformedPieceThrows(header: string, i: int, j: int)
    requires header != ""
    requires 0 <= i < |RawEntries(header)| && 0 <= j < |RawEntries(header)[i]|
    requires DecodeUri(RawEntries(header)[i][j]).None?
    ensures GetToken(Some(header)) == Throws
  {
    assert DecodePieces(RawEntries(header)[i]).None?;
  }

  // ------------------------------------------------- single entries

  /** `name=value` holds no `'; '` when neither part holds a `;`. */
  lemma NoEntrySeparator(name: string, value: string)
    requires !HasChar(name, ';') && !HasChar(value, ';')
    ensures !Includes(name + "=" + value, "; ")
  {
    var h := name + "=" + value;
    forall i | 0 <= i <= |h| ensures !OccursAt(h, "; ", i) {
      if i + 2 <= |h| {
        assert h[i..i + 2] == [h[i], h[i + 1]];
        if i < |name| { assert h[i] == name[i]; }
        else if i > |name| { assert h[i] == value[i - |name| - 1]; }
      }
    }
  }

  /** With a single entry `name=value` (no `;` in it, no raw `=` in the
      value), getToken sees exactly the decoded name and the decoded value:
      decoding happens after splitting, so `%3D` in the value survives as
      `=`. */
  lemma SingleEntry(name: string, value: string, dn: string, dv: string)
    requires !HasChar(name, '=') && !HasChar(value, '=') && !HasChar(name, ';') && !HasChar(value, ';')
    requires DecodeUri(name) == Some(dn) && DecodeUri(value) == Some(dv)
    ensures GetToken(Some(name + "=" + value)) == if dn == AuthCookie then Found(dv) else Absent
  {
    var h := name + "=" + value;
    assert |h| > 0;
    SingleEntrySplits(name, value);
    SingleEntryDecodes(name, value, dn, dv);
    assert [[dn, dv]][..0] == [];
    assert FromEntries([[dn, dv]]) == map[dn := Some(dv)];
  }

  lemma SingleEntryDecodes(name: string, value: string, dn: string, dv: string)
    requires DecodeUri(name) == Some(dn) && DecodeUri(value) == Some(dv)
    ensures DecodeEntries([[name, value]]) == Some([[dn, dv]])
  {
    var pieces := [name, value];
    assert DecodeUri(pieces[0]).Some? && DecodeUri(pieces[1]).Some?;
    var d := DecodePieces(pieces);
    assert d.Some?;
    assert d.value[0] == dn && d.value[1] == dv;
    assert d.value == [dn, dv];
    var r := DecodeEntries([pieces]);
    assert r.Some?;
    assert |r.value| == 1 && r.value[0] == [dn, dv];
    assert r.value == [[dn, dv]];
  }

  lemma SingleEntrySplits(name: string, value: string)
    requires !HasChar(name, '=') && !HasChar(value, '=') && !HasChar(name, ';') && !HasChar(value, ';')
    ensures RawEntries(name + "=" + value) == [[name, value]]
  {
    var h := name + "=" + value;
    NoEntrySeparator(name, value);
    SplitWithoutSeparator(h, "; ");
    assert Split(h, "; ") == [h];
    SplitAtFirst(name, '=', value);
    NoCharNoOccurrence(value, '=');
    SplitWithoutSeparator(value, "=");
    assert Split(h, "=") == [name, value];
    var es := RawEntries(h);
    assert |es| == 1 && es[0] == [name, value];
  }

  /** A header without `'; '` is a single entry, whatever `;` it holds:
      its name is the first `=`-piece and its value the second. */
  lemma OneEntryHeader(h: string)
    requires h != "" && !Includes(h, "; ")
    requires DecodePieces(Split(h, "=")).Some?
    ensures var ds := DecodePieces(Split(h, "=")).value;
      GetToken(Some(h)) == if ds[0] == AuthCookie && |ds| > 1 then Found(ds[1]) else Absent
  {
    var p := Split(h, "=");
    var ds := DecodePieces(p).value;
    SplitWithoutSeparator(h, "; ");
    OneRawEntry(h);
    OneDecodedEntry(p, ds);
    OneObjectEntry(ds);
  }

  lemma OneRawEntry(h: string)
    requires Split(h, "; ") == [h]
    ensures RawEntries(h) == [Split(h, "=")]
  {
  }

  lemma OneDecodedEntry(p: seq<string>, ds: seq<string>)
    requires DecodePieces(p) == Some(ds)
    ensures DecodeEntries([p]) == Some([ds])
  {
    var r := DecodeEntries([p]);
    assert r.Some? && |r.value| == 1 && r.value[0] == ds;
    assert r.value == [ds];
  }

  lemma OneObjectEntry(ds: seq<string>)
    ensures FromEntries([ds]) == map[EntryKey(ds) := EntryValue(ds)]
  {
    assert [ds][..0] == [];
  }

  lemma NoSpaceNoEntrySeparator(s: string)
    requires !HasChar(s, ' ')
    ensures !Includes(s, "; ")
  {
    forall i | 0 <= i <= |s| ensures !OccursAt(s, "; ", i) {
      if i + 2 <= |s| {
        assert s[i + 1] != ' ';
        assert s[i..i + 2][1] == s[i + 1];
        assert "; "[1] == ' ';
      }
    }
  }

  lemma NoCharConcat(a: string, b: string, c: char)
    requires !HasChar(a, c) && !HasChar(b, c)
    ensures !HasChar(a + b, c)
  {
    forall i | 0 <= i < |a + b| ensures (a + b)[i] != c {
      if i < |a| { assert (a + b)[i] == a[i]; } else { assert (a + b)[i] == b[i - |a|]; }
    }
  }

  /** `auth_token=v=tail` reads as `v`: a raw `=` in a value cuts it, and
      what follows the cut is dropped. */
  lemma RawEqualsTruncates(v: string, tail: string)
    requires !HasChar(v, '=') && !HasChar(v, '%') && !HasChar(v, ' ') && !HasChar(tail, ' ')
    requires DecodePieces(Split(tail, "=")).Some?
    ensures GetToken(Some(AuthCookie + "=" + v + "=" + tail)) == Found(v)
  {
    var h := AuthCookie + "=" + v + "=" + tail;
    AuthCookiePlain();
    NoSpaceInEntry(AuthCookie, v, tail);
    NoSpaceNoEntrySeparator(h);
    SplitTwice(AuthCookie, v, tail);
    DecodeWithoutEscapes(AuthCookie);
    DecodeWithoutEscapes(v);
    DecodeFront(AuthCookie, v, Split(tail, "="));
    OneEntryHeader(h);
  }

  lemma AuthCookiePlain()
    ensures !HasChar(AuthCookie, '=') && !HasChar(AuthCookie, ' ') && !HasChar(AuthCookie, '%')
  {
  }

  lemma NoSpaceInEntry(a: string, b: string, c: string)
    requires !HasChar(a, ' ') && !HasChar(b, ' ') && !HasChar(c, ' ')
    ensures !HasChar(a + "=" + b + "=" + c, ' ')
  {
    NoCharConcat(a, "=", ' ');
    NoCharConcat(a + "=", b, ' ');
    NoCharConcat(a + "=" + b, "=", ' ');
    NoCharConcat(a + "=" + b + "=", c, ' ');
  }

  lemma SplitTwice(a: string, b: string, c: string)
    requires !HasChar(a, '=') && !HasChar(b, '=')
    ensures Split(a + "=" + b + "=" + c, "=") == [a, b] + Split(c, "=")
  {
    assert a + "=" + b + "=" + c == a + ['='] + (b + ['='] + c);
    SplitAtFirst(a, '=', b + ['='] + c);
    SplitAtFirst(b, '=', c);
  }

  lemma DecodeFront(a: string, b: string, rest: seq<string>)
    requires DecodeUri(a) == Some(a) && DecodeUri(b) == Some(b) && DecodePieces(rest).Some?
    ensures DecodePieces([a, b] + rest).Some?
    ensures DecodePieces([a, b] + rest).value[0] == a && DecodePieces([a, b] + rest).value[1] == b
  {
    var p := [a, b] + rest;
    forall i | 0 <= i < |p| ensures DecodeUri(p[i]).Some? {
      if i >= 2 { assert p[i] == rest[i - 2]; }
    }
  }

  /** A `;` without the following space does not separate entries, so
      `a=1;auth_token=x` holds no `auth_token`. */
  lemma SemicolonWithoutSpace()
    ensures GetToken(Some("a=1;auth_token=x")) == Absent
  {
    var h := "a=1;auth_token=x";
    assert h == "a" + "=" + "1;auth_token" + "=" + "x";
    SemicolonExampleFacts();
    NoSpaceInEntry("a", "1;auth_token", "x");
    NoSpaceNoEntrySeparator(h);
    SplitTwice("a", "1;auth_token", "x");
    NoCharNoOccurrence("x", '=');
    SplitWithoutSeparator("x", "=");
    DecodeWithoutEscapes("a");
    DecodeWithoutEscapes("1;auth_token");
    DecodeWithoutEscapes("x");
    assert DecodePieces(["x"]).Some?;
    DecodeFront("a", "1;auth_token", ["x"]);
    OneEntryHeader(h);
  }

  lemma SemicolonExampleFacts()
    ensures !HasChar("a", ' ') && !HasChar("1;auth_token", ' ') && !HasChar("x", ' ')
    ensures !HasChar("a", '=') && !HasChar("1;auth_token", '=') && !HasChar("x", '=')
    ensures !HasChar("a", '%') && !HasChar("1;auth_token", '%') && !HasChar("x", '%')
  {
  }

  /** An escaped `%3D` is decoded only after the split, so it reaches the
      value as `=`. */
  lemma EscapedEqualsSurvives()
    ensures GetToken(Some(AuthCookie + "=" + "a%3Db")) == Found("a=b")
  {
    EscapedEqualsDecodes();
    AuthCookiePlain();
    DecodeWithoutEscapes(AuthCookie);
    SingleEntry(AuthCookie, "a%3Db", AuthCookie, "a=b");
  }

  lemma EscapedEqualsDecodes()
    ensures DecodeUri("a%3Db") == Some("a=b")
    ensures !HasChar("a%3Db", '=') && !HasChar("a%3Db", ';')
    ensures !HasChar(AuthCookie, ';')
  {
    var s := "a%3Db";
    var t := s[1..];
    assert t == "%3Db" && t[3..] == "b";
    assert EscapeAt(t, 0) && ByteAt(t, 0) == 0x3D && SequenceLength(0x3D) == 1;
    assert DecodeUri("b") == Some("b");
    assert [ByteAt(t, 0) as char] == ['='];
    assert ['='] + "b" == "=b";
    assert DecodeUri(t) == Some("=b");
    assert s[0] != '%' && ['a'] + "=b" == "a=b";
  }

  /** An entry without `=` is a key whose value is `undefined`. */
  lemma EntryWithoutValue()
    ensures FromEntries([[AuthCookie]]) == map[AuthCookie := None]
  {
  }

  // ---------------------------------------------------------- verifyToken

  /** Why the promise of `verifyToken` rejects: the secret is not set (a
      plain Error), or jsonwebtoken refused the token (a JsonWebTokenError). */
  datatype VerifyFailure = NotConfigured | Rejected(cause: Jwt.JwtError)

  /** `verifyToken(token)` with `JWT_SECRET` = `secret`, at `now`. */
  function VerifyToken(lib: Jwt.Library, token: string, secret: Option<string>, now: int): (r: Result<map<string, Json>, VerifyFailure>)
    ensures !Jwt.Configured(secret) ==> r == Err(NotConfigured)
    ensures Jwt.Configured(secret) ==>
      (r.Ok? <==> Jwt.Verify(lib, token, secret, now).Ok?)
      && (r.Ok? ==> r.value == Jwt.Verify(lib, token, secret, now).value)
      && (r.Err? ==> r.error == Rejected(Jwt.Verify(lib, token, secret, now).error))
  {
    if !Jwt.Configured(secret) then Err(NotConfigured)
    else
      match Jwt.Verify(lib, token, secret, now)
      case Ok(decoded) => Ok(decoded)
      case Err(e) => Err(Rejected(e))
  }

  /** Without a secret the outcome does not depend on the token or on the
      verifier at all. */
  lemma UnsetSecretIgnoresVerifier(lib1: Jwt.Library, lib2: Jwt.Library, t1: string, t2: string, secret: Option<string>, now1: int, now2: int)
    requires !Jwt.Configured(secret)
    ensures VerifyToken(lib1, t1, secret, now1) == VerifyToken(lib2, t2, secret, now2) == Err(NotConfigured)
  {
  }
}
