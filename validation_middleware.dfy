/**
 * middleware/validationMiddleware.ts: validate the body against a schema,
 * then either hand the request to the wrapped handler or answer with the
 * collected field errors. The schema itself belongs to yup and is not
 * modelled: its verdict is an input.
 */
module ValidationMiddleware {
  import opened Wrappers
  import opened Http

  const ValidationFailed := "バリデーションエラーが発生しました"

  /** One entry of `error.inner`: its `path` (undefined is None) and message. */
  datatype Issue = Issue(path: Option<string>, message: string)

  /** How `schema.validate(req.body)` ended. */
  datatype Verdict =
    | Accepted
    /** A rejection with a yup `ValidationError` and its inner issues. */
    | Invalid(inner: seq<Issue>)
    /** Any other rejection. */
    | Failed

  /** `if (curr.path)`: a path that is present and not empty. */
  predicate HasPath(i: Issue) {
    i.path.Some? && i.path.value != ""
  }

  /** The accumulator after reducing the issues in order. */
  function ErrorsOf(inner: seq<Issue>): map<string, string> {
    if inner == [] then map[]
    else
      var acc := ErrorsOf(inner[..|inner| - 1]);
      var curr := inner[|inner| - 1];
      if HasPath(curr) then acc[curr.path.value := curr.message] else acc
  }

  /** The `reduce`: one dictionary written entry by entry. */
  method CollectErrors(inner: seq<Issue>) returns (errors: map<string, string>)
    ensures errors == ErrorsOf(inner)
  {
    errors := map[];
    var i := 0;
    while i < |inner|
      invariant 0 <= i <= |inner|
      invariant errors == ErrorsOf(inner[..i])
    {
      var curr := inner[i];
      assert inner[..i + 1][..i] == inner[..i];
      if curr.path.Some? && curr.path.value != "" {
        errors := errors[curr.path.value := curr.message];
      }
      i := i + 1;
    }
    assert inner[..i] == inner;
  }

  /** What the middleware does with the request. */
  datatype Dispatch =
    /** `handler(req, res)`, called once. */
    | Delegate(req: Request)
    | Respond(reply: Reply)

  method Validate(verdict: Verdict, req: Request) returns (d: Dispatch)
    ensures d.Delegate? <==> verdict.Accepted?
    ensures d.Delegate? ==> d.req == req
    ensures verdict.Invalid? ==> d == Respond(JsonReply(400, FieldErrorsBody(ErrorsOf(verdict.inner))))
    ensures verdict.Failed? ==> d == Respond(JsonReply(500, ErrorBody(ValidationFailed)))
  {
    match verdict
    case Accepted =>
      d := Delegate(req);
    case Invalid(inner) =>
      var errors := CollectErrors(inner);
      d := Respond(JsonReply(400, FieldErrorsBody(errors)));
    case Failed =>
      d := Respond(JsonReply(500, ErrorBody(ValidationFailed)));
  }

  /** The keys are exactly the paths of the issues that have one. */
  lemma {:induction false} ErrorKeys(inner: seq<Issue>)
    ensures forall k :: k in ErrorsOf(inner) <==> exists i :: 0 <= i < |inner| && HasPath(inner[i]) && inner[i].path.value == k
  {
    if inner != [] {
      var front := inner[..|inner| - 1];
      ErrorKeys(front);
      forall k | k in ErrorsOf(inner) ensures exists i :: 0 <= i < |inner| && HasPath(inner[i]) && inner[i].path.value == k {
        if k !in ErrorsOf(front) {
          assert HasPath(inner[|inner| - 1]) && inner[|inner| - 1].path.value == k;
        } else {
          var i :| 0 <= i < |front| && HasPath(front[i]) && front[i].path.value == k;
          assert inner[i] == front[i];
        }
      }
      forall k | exists i :: 0 <= i < |inner| && HasPath(inner[i]) && inner[i].path.value == k ensures k in ErrorsOf(inner) {
        var i :| 0 <= i < |inner| && HasPath(inner[i]) && inner[i].path.value == k;
        if i < |front| {
          assert front[i] == inner[i];
        }
      }
    }
  }

  /** Issue `i` is the last one with path `k`. */
  predicate LastWithPath(inner: seq<Issue>, k: string, i: int) {
    0 <= i < |inner| && HasPath(inner[i]) && inner[i].path.value == k
    && forall j :: i < j < |inner| ==> !(HasPath(inner[j]) && inner[j].path.value == k)
  }

  /** A key's message is that of the last issue with that path. */
  lemma {:induction false} LastMessageWins(inner: seq<Issue>, k: string)
    requires k in ErrorsOf(inner)
    ensures exists i :: LastWithPath(inner, k, i) && ErrorsOf(inner)[k] == inner[i].message
  {
    var front := inner[..|inner| - 1];
    var last := inner[|inner| - 1];
    if HasPath(last) && last.path.value == k {
      assert LastWithPath(inner, k, |inner| - 1);
    } else {
      LastMessageWins(front, k);
      var i :| LastWithPath(front, k, i) && ErrorsOf(front)[k] == front[i].message;
      assert inner[i] == front[i];
      forall j | i < j < |inner| ensures !(HasPath(inner[j]) && inner[j].path.value == k) {
        if j < |front| { assert inner[j] == front[j]; }
      }
      assert LastWithPath(inner, k, i);
    }
  }

  /** Issues without a path leave no trace in the reply. */
  lemma PathlessIgnored(inner: seq<Issue>, message: string)
    ensures ErrorsOf(inner + [Issue(None, message)]) == ErrorsOf(inner)
    ensures ErrorsOf(inner + [Issue(Some(""), message)]) == ErrorsOf(inner)
  {
    assert (inner + [Issue(None, message)])[..|inner|] == inner;
    assert (inner + [Issue(Some(""), message)])[..|inner|] == inner;
  }
}
