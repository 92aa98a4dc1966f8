/**
 * app/utils/auth.ts, the browser side of the session: the expiry test on
 * the access token's payload, the refresh call, `checkAndRefreshToken` and
 * the `checkAuthStatus` flow. Base64 bit decoding and JSON parsing are
 * parameters; the structural rules of `atob` (the forgiving-base64 decode
 * of the HTML standard) are modelled, because they decide which payloads
 * count as expired.
 */
module ClientAuth {
  import opened Wrappers
  import opened Js

  // ----------------------------------------------------------------- atob

  /** The ASCII white space `atob` skips: TAB, LF, FF, CR and SPACE. */
  predicate IsAsciiWhitespace(c: char) {
    var k := c as int;
    k == 0x09 || k == 0x0A || k == 0x0C || k == 0x0D || k == 0x20
  }

  /** The standard base64 alphabet; `-` and `_` (base64url) are not in it. */
  predicate IsBase64Char(c: char) {
    IsUpper(c) || IsLower(c) || IsAsciiDigit(c) || c == '+' || c == '/'
  }

  function StripAsciiWhitespace(s: string): (r: string)
    ensures |r| <= |s|
    ensures forall c {:trigger HasChar(r, c)} {:trigger HasChar(s, c)} :: !IsAsciiWhitespace(c) ==> (HasChar(r, c) <==> HasChar(s, c))
    ensures forall i :: 0 <= i < |r| ==> !IsAsciiWhitespace(r[i])
  {
    if s == [] then []
    else
      var rest := StripAsciiWhitespace(s[1..]);
      assert forall c :: HasChar(s, c) <==> c == s[0] || HasChar(s[1..], c) by {
        forall c ensures HasChar(s, c) <==> c == s[0] || HasChar(s[1..], c) {
          if HasChar(s, c) && c != s[0] {
            var i :| 0 <= i < |s| && s[i] == c;
            assert s[1..][i - 1] == c;
          }
          if HasChar(s[1..], c) {
            var i :| 0 <= i < |s[1..]| && s[1..][i] == c;
            assert s[i + 1] == c;
          }
        }
      }
      if IsAsciiWhitespace(s[0]) then rest
      else
        assert forall c :: HasChar([s[0]] + rest, c) <==> c == s[0] || HasChar(rest, c) by {
          forall c ensures HasChar([s[0]] + rest, c) <==> c == s[0] || HasChar(rest, c) {
            if HasChar([s[0]] + rest, c) && c != s[0] {
              var i :| 0 <= i < |[s[0]] + rest| && ([s[0]] + rest)[i] == c;
              assert rest[i - 1] == c;
            }
            if HasChar(rest, c) {
              var i :| 0 <= i < |rest| && rest[i] == c;
              assert ([s[0]] + rest)[i + 1] == c;
            }
            if c == s[0] { assert ([s[0]] + rest)[0] == c; }
          }
        }
        [s[0]] + rest
  }

  /** With a length that is a multiple of four, one or two trailing `=` go. */
  function DropPadding(s: string): (r: string)
    ensures |s| - 2 <= |r| <= |s| && r == s[..|r|]
    ensures forall i :: |r| <= i < |s| ==> s[i] == '='
  {
    if |s| % 4 == 0 && |s| > 0 && s[|s| - 1] == '=' then
      if |s| > 1 && s[|s| - 2] == '=' then s[..|s| - 2] else s[..|s| - 1]
    else s
  }

  /** `atob(s)`: None is the InvalidCharacterError it throws; `bits` turns
      the checked base64 text into the decoded byte string. */
  function Atob(bits: string -> string, s: string): (r: Option<string>)
    ensures r.Some? <==>
      var t := DropPadding(StripAsciiWhitespace(s));
      |t| % 4 != 1 && forall i :: 0 <= i < |t| ==> IsBase64Char(t[i])
  {
    var t := DropPadding(StripAsciiWhitespace(s));
    if |t| % 4 == 1 || exists i :: 0 <= i < |t| && !IsBase64Char(t[i]) then None
    else Some(bits(t))
  }

  /** A base64url character (`-` or `_`) anywhere makes `atob` throw. */
  lemma Base64UrlRejected(bits: string -> string, s: string, c: char)
    requires c == '-' || c == '_'
    requires HasChar(s, c)
    ensures Atob(bits, s).None?
  {
    var w := StripAsciiWhitespace(s);
    assert HasChar(w, c);
    var i :| 0 <= i < |w| && w[i] == c;
    var t := DropPadding(w);
    assert i < |t|;
    assert t[i] == c && !IsBase64Char(t[i]);
  }

  /** `atob(undefined)` decodes the nine letters of "undefined", a length no
      base64 text can have. */
  lemma AtobOfUndefined(bits: string -> string)
    ensures Atob(bits, "undefined").None?
  {
    var s := "undefined";
    forall i | 0 <= i < |s| ensures !IsAsciiWhitespace(s[i]) {
      assert 'a' <= s[i] <= 'z';
    }
    PlainLengthOneRejected(bits, s);
  }

  /** A text without white space whose length is 1 modulo 4 (so no padding
      is dropped) makes `atob` throw. */
  lemma PlainLengthOneRejected(bits: string -> string, s: string)
    requires forall i :: 0 <= i < |s| ==> !IsAsciiWhitespace(s[i])
    requires |s| % 4 == 1
    ensures Atob(bits, s).None?
  {
    NoWhitespaceUnchanged(s);
    assert DropPadding(s) == s;
  }

  lemma {:induction false} NoWhitespaceUnchanged(s: string)
    requires forall i :: 0 <= i < |s| ==> !IsAsciiWhitespace(s[i])
    ensures StripAsciiWhitespace(s) == s
  {
    if s != [] {
      NoWhitespaceUnchanged(s[1..]);
      assert [s[0]] + s[1..] == s;
    }
  }

  // ------------------------------------------------------- isTokenExpired

  /** The payload decoders: base64 bits and `JSON.parse` (None throws). */
  datatype Codec = Codec(bits: string -> string, parse: string -> Option<Json>)

  /** `token.split('.')[1]`, with `undefined` read as the string `atob`
      receives for it. */
  function PayloadSegment(token: string): (seg: string)
    ensures |Split(token, ".")| > 1 ==> seg == Split(token, ".")[1]
  {
    var parts := Split(token, ".");
    if |parts| > 1 then parts[1] else "undefined"
  }

  /** The decoded payload of a token, None when any step throws. */
  function DecodedPayload(codec: Codec, token: string): Option<Json> {
    match Atob(codec.bits, PayloadSegment(token))
    case None => None
    case Some(text) => codec.parse(text)
  }

  /** `isTokenExpired(token)` at `now` (ms): `payload.exp * 1000 < now`,
      true when anything throws; NaN compares false. */
  function IsTokenExpired(codec: Codec, token: string, now: int): (expired: bool)
    ensures DecodedPayload(codec, token).None? ==> expired
  {
    match DecodedPayload(codec, token)
    case None => true
    case Some(payload) =>
      match Get(payload, "exp")
      case Err(_) => true
      case Ok(exp) =>
        match ToNumber(exp)
        case None => false
        case Some(e) => e * 1000 < now
  }

  /** A token without a `.` has no payload segment and counts as expired. */
  lemma MissingSegmentIsExpired(codec: Codec, token: string, now: int)
    requires !HasChar(token, '.')
    ensures IsTokenExpired(codec, token, now)
  {
    NoCharNoOccurrence(token, '.');
    SplitWithoutSeparator(token, ".");
    AtobOfUndefined(codec.bits);
  }

  /** A base64url-encoded payload whose text uses `-` or `_` is reported
      expired, whatever its claims say. */
  lemma Base64UrlPayloadIsExpired(codec: Codec, token: string, now: int, c: char)
    requires c == '-' || c == '_'
    requires HasChar(PayloadSegment(token), c)
    ensures IsTokenExpired(codec, token, now)
  {
    Base64UrlRejected(codec.bits, PayloadSegment(token), c);
  }

  /** A payload that parses to `null` throws on `.exp`: expired. */
  lemma NullPayloadIsExpired(codec: Codec, token: string, now: int)
    requires DecodedPayload(codec, token) == Some(JNull)
    ensures IsTokenExpired(codec, token, now)
  {
  }

  /** With a numeric `exp` (the NumericDate of section 4.1.4 of RFC 7519),
      the token is expired exactly when `exp` seconds lie before `now`
      milliseconds; `exp * 1000 == now` is still valid. */
  lemma ExpiryBoundary(codec: Codec, token: string, now: int, fields: map<string, Json>, e: int)
    requires DecodedPayload(codec, token) == Some(JObj(fields))
    requires "exp" in fields && fields["exp"] == JNum(e)
    ensures IsTokenExpired(codec, token, now) <==> e * 1000 < now
    ensures now == e * 1000 ==> !IsTokenExpired(codec, token, now)
  {
  }

  /** `[e] * 1000` converts the one-element array to `e`, so an `exp` of
      `[e]` expires exactly when `e` would. */
  lemma ArrayExpLikeNumber(codec: Codec, token: string, now: int, fields: map<string, Json>, e: int)
    requires DecodedPayload(codec, token) == Some(JObj(fields))
    requires "exp" in fields && fields["exp"] == JArr([JNum(e)])
    ensures IsTokenExpired(codec, token, now) <==> e * 1000 < now
  {
    ShortArrayNumber(JNum(e), e);
  }

  /** A payload without `exp` never expires: `undefined * 1000` is NaN. */
  lemma NoExpNeverExpires(codec: Codec, token: string, now: int, fields: map<string, Json>)
    requires DecodedPayload(codec, token) == Some(JObj(fields))
    requires "exp" !in fields
    ensures !IsTokenExpired(codec, token, now)
  {
  }

  // ------------------------------------------------------------- fetches

  /** What a `fetch` gives: a thrown network error, or a status with a body
      whose `.json()` either throws (None) or yields a value. */
  datatype FetchOutcome = Threw | Answered(status: int, body: Option<Json>)

  predicate IsOk(o: FetchOutcome) {
    o.Answered? && 200 <= o.status <= 299
  }

  /** `refreshAccessToken()` given the answer to its POST. */
  function RefreshSucceeded(o: FetchOutcome): (r: bool)
    ensures r ==> IsOk(o) && o.body.Some?
    ensures o.Threw? || !IsOk(o) ==> !r
  {
    if !IsOk(o) then false
    else match o.body
      case None => false
      case Some(data) =>
        match Get(data, "success")
        case Err(_) => false
        case Ok(v) => !Falsy(v)
  }

  /** The refresh reports success exactly for an ok answer whose body has a
      truthy `success`. */
  lemma RefreshNeedsTruthySuccess(o: FetchOutcome)
    ensures RefreshSucceeded(o) <==>
      IsOk(o) && o.body.Some? && o.body.value.JObj? && "success" in o.body.value.fields
      && Truthy(o.body.value.fields["success"])
  {
  }

  /** `!accessToken || isTokenExpired(accessToken)`. */
  predicate NeedsRefresh(codec: Codec, accessToken: Option<string>, now: int) {
    accessToken.None? || accessToken.value == "" || IsTokenExpired(codec, accessToken.value, now)
  }

  /** `checkAndRefreshToken(accessToken)`, where `refreshed` is the outcome
      the refresh would have. */
  function CheckAndRefreshToken(codec: Codec, accessToken: Option<string>, now: int, refreshed: bool): (valid: bool)
    ensures !NeedsRefresh(codec, accessToken, now) ==> valid
    ensures NeedsRefresh(codec, accessToken, now) ==> valid == refreshed
  {
    if NeedsRefresh(codec, accessToken, now) then refreshed else true
  }

  /** A present, unexpired token is accepted whatever a refresh would do. */
  lemma FreshTokenSkipsRefresh(codec: Codec, token: string, now: int, r1: bool, r2: bool)
    requires token != "" && !IsTokenExpired(codec, token, now)
    ensures CheckAndRefreshToken(codec, Some(token), now, r1) == CheckAndRefreshToken(codec, Some(token), now, r2) == true
  {
  }

  /** With no stored token the answer is exactly the refresh outcome. */
  lemma MissingTokenAsksRefresh(codec: Codec, now: int, refreshed: bool)
    ensures CheckAndRefreshToken(codec, None, now, refreshed) == refreshed
    ensures CheckAndRefreshToken(codec, Some(""), now, refreshed) == refreshed
  {
  }

  // ------------------------------------------------------ checkAuthStatus

  /** The two requests the flow sends: the refresh POST and `/api/auth/me`
      with the `Authorization` header it carried. */
  datatype Call = RefreshCall | MeCall(authorization: string)

  datatype Fetch = Fetch(call: Call, outcome: FetchOutcome)

  function MeCalls(log: seq<Fetch>): nat {
    if log == [] then 0 else MeCalls(log[..|log| - 1]) + (if log[|log| - 1].call.MeCall? then 1 else 0)
  }

  lemma MeCallsAppend(log: seq<Fetch>, f: Fetch)
    ensures MeCalls(log + [f]) == MeCalls(log) + (if f.call.MeCall? then 1 else 0)
  {
    assert (log + [f])[..|log|] == log;
  }

  /** The count of a concatenation is the sum of the counts. */
  lemma {:induction false} MeCallsConcat(a: seq<Fetch>, b: seq<Fetch>)
    ensures MeCalls(a + b) == MeCalls(a) + MeCalls(b)
    decreases |b|
  {
    if b != [] {
      var init := b[..|b| - 1];
      var last := b[|b| - 1];
      assert b == init + [last];
      assert a + b == (a + init) + [last];
      MeCallsConcat(a, init);
      MeCallsAppend(a + init, last);
      MeCallsAppend(init, last);
    } else {
      assert a + b == a;
    }
  }

  /** `MeCallsConcat` for every pair of logs. */
  lemma MeCallsAdd()
    ensures forall a: seq<Fetch>, b: seq<Fetch> {:trigger MeCalls(a + b)} :: MeCalls(a + b) == MeCalls(a) + MeCalls(b)
  {
    forall a: seq<Fetch>, b: seq<Fetch> ensures MeCalls(a + b) == MeCalls(a) + MeCalls(b) {
      MeCallsConcat(a, b);
    }
  }

  /** What `checkAuthStatus` leaves true of the page's whole fetch log: one
      to four more fetches, at most two of them to `/me`, and a user only
      from the last one, an ok `/me` answer. */
  lemma AuthFlowLog(codec: Codec, token: Option<string>, now: int, answer: nat -> FetchOutcome, log0: seq<Fetch>)
    ensures var r := AuthFlow(codec, token, now, answer, |log0|);
      var log := log0 + r.1;
      |log0| < |log| <= |log0| + 4 && log[..|log0|] == log0
      && MeCalls(log) <= MeCalls(log0) + 2
      && (r.0.Some? ==>
        log[|log| - 1].call.MeCall? && IsOk(log[|log| - 1].outcome) && log[|log| - 1].outcome.body == r.0)
  {
    var r := AuthFlow(codec, token, now, answer, |log0|);
    MeCallsConcat(log0, r.1);
    assert (log0 + r.1)[|log0 + r.1| - 1] == r.1[|r.1| - 1];
  }

  /** A single fetch counts 1 exactly when it is a `/me` request. */
  lemma MeCallsOne(f: Fetch)
    ensures MeCalls([f]) == if f.call.MeCall? then 1 else 0
  {
    MeCallsAppend([], f);
    assert [] + [f] == [f];
  }

  /** `${localStorage.getItem('accessToken')}`: a missing item prints as `null`. */
  function Bearer(token: Option<string>): string {
    "Bearer " + (if token.Some? then token.value else "null")
  }

  /** The `/me` stage as a value: the user it returns and the fetches it
      makes when the page's n-th fetch is answered by `answer(n)`. A 401 is
      followed by one refresh and, if that succeeds, one retry. */
  function MeFlow(answer: nat -> FetchOutcome, n: nat, bearer: string): (r: (Option<Json>, seq<Fetch>))
    ensures 1 <= |r.1| <= 3 && r.1[0] == Fetch(MeCall(bearer), answer(n))
    ensures MeCalls(r.1) <= 2
    ensures r.0.Some? ==>
      r.1[|r.1| - 1].call == MeCall(bearer) && IsOk(r.1[|r.1| - 1].outcome) && r.1[|r.1| - 1].outcome.body == r.0
  {
    var first := answer(n);
    var me := Fetch(MeCall(bearer), first);
    MeCallsAdd();
    MeCallsOne(me);
    MeCallsOne(Fetch(RefreshCall, answer(n + 1)));
    MeCallsOne(Fetch(MeCall(bearer), answer(n + 2)));
    assert [me, Fetch(RefreshCall, answer(n + 1))] == [me] + [Fetch(RefreshCall, answer(n + 1))];
    assert [me, Fetch(RefreshCall, answer(n + 1)), Fetch(MeCall(bearer), answer(n + 2))]
        == [me, Fetch(RefreshCall, answer(n + 1))] + [Fetch(MeCall(bearer), answer(n + 2))];
    if first.Threw? then (None, [me])
    else if IsOk(first) then (first.body, [me])
    else if first.status != 401 then (None, [me])
    else
      var refresh := answer(n + 1);
      if !RefreshSucceeded(refresh) then (None, [me, Fetch(RefreshCall, refresh)])
      else
        var retry := answer(n + 2);
        (if IsOk(retry) then retry.body else None, [me, Fetch(RefreshCall, refresh), Fetch(MeCall(bearer), retry)])
  }

  /** The whole of `checkAuthStatus` as a value: the token check, with its
      refresh when the token is missing or expired, then the `/me` stage. */
  function AuthFlow(codec: Codec, token: Option<string>, now: int, answer: nat -> FetchOutcome, n: nat): (r: (Option<Json>, seq<Fetch>))
    ensures 1 <= |r.1| <= 4
    ensures MeCalls(r.1) <= 2
    ensures r.0.Some? ==>
      r.1[|r.1| - 1].call.MeCall? && IsOk(r.1[|r.1| - 1].outcome) && r.1[|r.1| - 1].outcome.body == r.0
  {
    MeCallsOne(Fetch(RefreshCall, answer(n)));
    if !NeedsRefresh(codec, token, now) then MeFlow(answer, n, Bearer(token))
    else if !RefreshSucceeded(answer(n)) then (None, [Fetch(RefreshCall, answer(n))])
    else
      var me := MeFlow(answer, n + 1, Bearer(token));
      MeCallsConcat([Fetch(RefreshCall, answer(n))], me.1);
      (me.0, [Fetch(RefreshCall, answer(n))] + me.1)
  }

  /** A present, unexpired token and an ok `/me` answer: that body is the
      user, after exactly one fetch and no refresh. */
  lemma FreshTokenOkMe(codec: Codec, token: string, now: int, answer: nat -> FetchOutcome, n: nat, b: Json)
    requires token != "" && !IsTokenExpired(codec, token, now)
    requires IsOk(answer(n)) && answer(n).body == Some(b)
    ensures AuthFlow(codec, Some(token), now, answer, n) == (Some(b), [Fetch(MeCall(Bearer(Some(token))), answer(n))])
  {
  }

  /** A 401 from `/me`, a successful refresh and an ok retry: the retry's
      body is the user, whether or not the token had to be refreshed first. */
  lemma RetryAfter401(codec: Codec, token: Option<string>, now: int, answer: nat -> FetchOutcome, n: nat, b: Json)
    requires var m := if NeedsRefresh(codec, token, now) then n + 1 else n;
      (NeedsRefresh(codec, token, now) ==> RefreshSucceeded(answer(n)))
      && answer(m).Answered? && answer(m).status == 401
      && RefreshSucceeded(answer(m + 1)) && IsOk(answer(m + 2)) && answer(m + 2).body == Some(b)
    ensures AuthFlow(codec, token, now, answer, n).0 == Some(b)
    ensures |AuthFlow(codec, token, now, answer, n).1| == if NeedsRefresh(codec, token, now) then 4 else 3
  {
  }

  /** A missing or expired token whose refresh fails redirects after that
      one fetch: `/me` is never asked. */
  lemma FailedRefreshSkipsMe(codec: Codec, token: Option<string>, now: int, answer: nat -> FetchOutcome, n: nat)
    requires NeedsRefresh(codec, token, now) && !RefreshSucceeded(answer(n))
    ensures AuthFlow(codec, token, now, answer, n) == (None, [Fetch(RefreshCall, answer(n))])
  {
  }

  /** Any `/me` failure other than a 401, a thrown fetch or a body that is
      not JSON included, gives no user, and no retry is made. */
  lemma OtherMeFailuresRedirect(answer: nat -> FetchOutcome, n: nat, bearer: string)
    requires answer(n).Threw? || (!IsOk(answer(n)) && answer(n).status != 401) || (IsOk(answer(n)) && answer(n).body.None?)
    ensures MeFlow(answer, n, bearer) == (None, [Fetch(MeCall(bearer), answer(n))])
  {
  }

  /** The page: where it is, what it stored and every fetch it made. */
  class Browser {
    var location: string
    var storage: map<string, string>
    var log: seq<Fetch>

    constructor (location: string, storage: map<string, string>)
      ensures this.location == location && this.storage == storage && log == []
    {
      this.location := location;
      this.storage := storage;
      log := [];
    }

    function AccessToken(): Option<string>
      reads this
    {
      if "accessToken" in storage then Some(storage["accessToken"]) else None
    }

    /** One fetch; `answer` gives the outcome of the n-th fetch the page makes. */
    method Send(call: Call, answer: nat -> FetchOutcome) returns (o: FetchOutcome)
      modifies this
      ensures o == answer(|old(log)|)
      ensures log == old(log) + [Fetch(call, o)]
      ensures location == old(location) && storage == old(storage)
    {
      o := answer(|log|);
      log := log + [Fetch(call, o)];
    }

    /** `checkAuthStatus()` at `now`. None is the `null` returned after the
        redirect to `/login`; Some is the parsed body of an ok `/me` answer. */
    method CheckAuthStatus(codec: Codec, now: int, answer: nat -> FetchOutcome) returns (user: Option<Json>)
      modifies this
      ensures storage == old(storage)
      ensures user.None? ==> location == "/login"
      ensures user.Some? ==> location == old(location)
      ensures (user, log) == (AuthFlow(codec, old(AccessToken()), now, answer, |old(log)|).0,
                              old(log) + AuthFlow(codec, old(AccessToken()), now, answer, |old(log)|).1)
    {
      ghost var log0 := log;
      var token := AccessToken();
      ghost var flow := AuthFlow(codec, token, now, answer, |log0|);
      var valid := true;
      ghost var pre: seq<Fetch> := [];
      if NeedsRefresh(codec, token, now) {
        var o := Send(RefreshCall, answer);
        valid := RefreshSucceeded(o);
        pre := [Fetch(RefreshCall, o)];
      }
      if !valid {
        assert log == log0 + flow.1;
        location := "/login";
        return None;
      }
      ghost var log1 := log;
      assert log1 == log0 + pre;
      user := AskMe(answer);
      assert flow.1 == pre + MeFlow(answer, |log1|, Bearer(token)).1;
      assert log == log0 + flow.1;
    }

    /** The `/me` request, with one refresh and retry after a 401. */
    method AskMe(answer: nat -> FetchOutcome) returns (user: Option<Json>)
      modifies this
      ensures storage == old(storage)
      ensures |old(log)| + 1 <= |log| <= |old(log)| + 3 && log[..|old(log)|] == old(log)
      ensures MeCalls(log) <= MeCalls(old(log)) + 2
      ensures user.None? ==> location == "/login"
      ensures user.Some? ==> location == old(location)
      ensures user.Some? ==>
        log[|log| - 1].call.MeCall? && IsOk(log[|log| - 1].outcome) && log[|log| - 1].outcome.body == Some(user.value)
      ensures (user, log) == (MeFlow(answer, |old(log)|, Bearer(AccessToken())).0,
                              old(log) + MeFlow(answer, |old(log)|, Bearer(AccessToken())).1)
    {
      MeCallsAdd();
      var token := AccessToken();
      ghost var log1 := log;
      var first := Send(MeCall(Bearer(token)), answer);
      if first.Threw? {
        location := "/login";
        return None;
      }
      if !IsOk(first) {
        if first.status == 401 {
          var o := Send(RefreshCall, answer);
          if !RefreshSucceeded(o) {
            assert log == log1 + [Fetch(MeCall(Bearer(token)), first), Fetch(RefreshCall, o)];
            location := "/login";
            return None;
          }
          var retry := Send(MeCall(Bearer(AccessToken())), answer);
          assert log == log1 + [Fetch(MeCall(Bearer(token)), first), Fetch(RefreshCall, o), Fetch(MeCall(Bearer(token)), retry)];
          if IsOk(retry) && retry.body.Some? {
            return retry.body;
          }
          location := "/login";
          return None;
        }
        location := "/login";
        return None;
      }
      if first.body.None? {
        location := "/login";
        return None;
      }
      return first.body;
    }
  }
}
