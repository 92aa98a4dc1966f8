/**
 * The e-mail pattern `/^[^\s@]+@[^\s@]+\.[^\s@]+$/` shared by the register
 * route and the client form: a non-empty local part, one `@`, and a domain
 * with a dot that has something on both sides; no white space anywhere.
 */
module EmailPattern {
  import opened Js

  /** `[^\s@]`. */
  predicate Plain(c: char) {
    !IsSpace(c) && c != '@'
  }

  predicate AllPlain(s: string) {
    forall i :: 0 <= i < |s| ==> Plain(s[i])
  }

  /** `[^\s@]+\.[^\s@]+` over the whole domain: the regex may backtrack to
      any dot that is neither first nor last. */
  predicate DomainShape(d: string) {
    AllPlain(d) && exists k :: 0 < k < |d| - 1 && d[k] == '.'
  }

  /** The pattern matches `s`. */
  predicate SimpleEmail(s: string) {
    exists i :: 0 < i < |s| && s[i] == '@' && AllPlain(s[..i]) && DomainShape(s[i + 1..])
  }

  /** A match has exactly one `@`, no white space, and a dot after the `@`. */
  lemma MatchShape(s: string) returns (at: nat)
    requires SimpleEmail(s)
    ensures 0 < at < |s| && s[at] == '@'
    ensures forall j :: 0 <= j < |s| && s[j] == '@' ==> j == at
    ensures forall j :: 0 <= j < |s| ==> !IsSpace(s[j])
    ensures exists k :: at + 1 < k < |s| - 1 && s[k] == '.'
  {
    var i :| 0 < i < |s| && s[i] == '@' && AllPlain(s[..i]) && DomainShape(s[i + 1..]);
    at := i;
    forall j | 0 <= j < |s| && j != i ensures Plain(s[j]) {
      if j < i { assert s[..i][j] == s[j]; } else { assert s[i + 1..][j - i - 1] == s[j]; }
    }
    var k :| 0 < k < |s[i + 1..]| - 1 && s[i + 1..][k] == '.';
    assert s[i + 1 + k] == '.';
  }

  /** Conversely, `local@a.b` matches for any plain, non-empty `local`, `a`
      and `b`. */
  lemma BuildMatch(local: string, a: string, b: string)
    requires local != [] && a != [] && b != []
    requires AllPlain(local) && AllPlain(a) && AllPlain(b)
    ensures SimpleEmail(local + "@" + a + "." + b)
  {
    var s := local + "@" + a + "." + b;
    var i := |local|;
    assert s[..i] == local;
    var d := s[i + 1..];
    assert d == a + "." + b;
    assert d[|a|] == '.';
    assert AllPlain(d) by {
      forall j | 0 <= j < |d| ensures Plain(d[j]) {
        if j < |a| { assert d[j] == a[j]; }
        else if j > |a| { assert d[j] == b[j - |a| - 1]; }
      }
    }
  }
}
