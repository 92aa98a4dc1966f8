/**
 * pages/api/auth/login.ts: the Pages-router login. It checks the method and
 * the two fields, then looks the user up and compares the password inside
 * a try block whose catch answers 500. It issues no token and sets no
 * cookie: a success returns the stored user record as it is.
 */
module PagesLogin {
  import opened Wrappers
  import opened Js
  import opened Store
  import opened Http

  const NotAllowed := "Method Not Allowed"
  const MissingFields := "必要な情報が不足しています。"
  const UnknownUser := "ユーザーが存在しません。"
  const WrongPassword := "パスワードが正しくありません。"
  const ServerFailure := "サーバーエラー"

  /** The default handler; `compare` is bcrypt's comparison of a password
      with a stored hash. A malformed JSON body never reaches it; destructuring
      a `null` body throws outside the try block. */
  function Handler(compare: (string, string) -> bool, req: Request, db: Db): (r: Reply)
    ensures r.status in {200, 400, 405, 500} && r.allow == []
    ensures r.status == 405 <==> req.body.Some? && req.verb != "POST"
    ensures req.body.None? ==> r == InvalidJson
    ensures r.status == 200 ==>
      req.body.Some? && r.body.UserRecordBody?
      && Get(req.body.value, "email").Ok? && Get(req.body.value, "email").value == Some(JStr(r.body.record.email))
      && UserByEmail(db.users, r.body.record.email) == Some(r.body.record)
      && Get(req.body.value, "password").Ok? && Get(req.body.value, "password").value.Some?
      && Get(req.body.value, "password").value.value.JStr?
      && compare(Get(req.body.value, "password").value.value.s, r.body.record.password)
  {
    if req.body.None? then InvalidJson
    else if req.verb != "POST" then JsonReply(405, MessageBody(NotAllowed))
    else if req.body.value.JNull? then Crash
    else
      var email := Get(req.body.value, "email").value;
      var password := Get(req.body.value, "password").value;
      if Falsy(email) || Falsy(password) then JsonReply(400, MessageBody(MissingFields))
      else if !db.online || !email.value.JStr? then JsonReply(500, MessageBody(ServerFailure))
      else
        match UserByEmail(db.users, email.value.s)
        case None => JsonReply(400, MessageBody(UnknownUser))
        case Some(user) =>
          if !password.value.JStr? then JsonReply(500, MessageBody(ServerFailure))
          else if !compare(password.value.s, user.password) then JsonReply(400, MessageBody(WrongPassword))
          else JsonReply(200, UserRecordBody(user))
  }

  function Credentials(email: string, password: string): Json {
    JObj(map["email" := JStr(email), "password" := JStr(password)])
  }

  /** Both fields of the credentials read back as the strings given. */
  lemma CredentialFields(email: string, password: string)
    ensures Get(Credentials(email, password), "email") == Ok(Some(JStr(email)))
    ensures Get(Credentials(email, password), "password") == Ok(Some(JStr(password)))
  {
  }

  lemma OtherMethodsNotAllowed(compare: (string, string) -> bool, req: Request, db: Db)
    requires req.verb != "POST" && req.body.Some?
    ensures Handler(compare, req, db) == JsonReply(405, MessageBody(NotAllowed))
  {
  }


  /** A missing field is a 400, whatever the store would do. */
  lemma MissingFieldIs400(compare: (string, string) -> bool, req: Request, db: Db, email: string, password: string)
    requires req.verb == "POST" && req.body == Some(Credentials(email, password))
    requires email == "" || password == ""
    ensures Handler(compare, req, db) == JsonReply(400, MessageBody(MissingFields))
  {
    CredentialFields(email, password);
  }

  /** Unlike the app route, the two refusals are told apart: an unknown
      user and a wrong password give different messages, and the compare
      runs only for a user that exists. */
  lemma RefusalsDiffer(compare: (string, string) -> bool, req: Request, db: Db, email: string, password: string)
    requires req.verb == "POST" && req.body == Some(Credentials(email, password))
    requires email != "" && password != "" && db.online
    ensures UserByEmail(db.users, email).None? ==>
      Handler(compare, req, db) == JsonReply(400, MessageBody(UnknownUser))
    ensures UserByEmail(db.users, email).Some? && !compare(password, UserByEmail(db.users, email).value.password) ==>
      Handler(compare, req, db) == JsonReply(400, MessageBody(WrongPassword))
    ensures UnknownUser != WrongPassword
  {
    CredentialFields(email, password);
    assert UnknownUser[0] != WrongPassword[0];
  }

  /** Success returns the whole stored record, password hash included. */
  lemma SuccessReturnsRecord(compare: (string, string) -> bool, req: Request, db: Db, email: string, password: string)
    requires req.verb == "POST" && req.body == Some(Credentials(email, password))
    requires email != "" && password != "" && db.online
    requires UserByEmail(db.users, email).Some? && compare(password, UserByEmail(db.users, email).value.password)
    ensures var u := UserByEmail(db.users, email).value;
      Handler(compare, req, db) == JsonReply(200, UserRecordBody(u)) && u.email == email
  {
    CredentialFields(email, password);
  }

  /** A store that throws gives 500 once the fields are present. */
  lemma StoreFailureIs500(compare: (string, string) -> bool, req: Request, db: Db, email: string, password: string)
    requires req.verb == "POST" && req.body == Some(Credentials(email, password))
    requires email != "" && password != "" && !db.online
    ensures Handler(compare, req, db) == JsonReply(500, MessageBody(ServerFailure))
  {
    CredentialFields(email, password);
  }
}
