/**
 * app/api/auth/register/route.ts: `POST` validates the sign-up fields in a
 * fixed order, stores the user with a hashed password and returns the
 * profile with a one-hour token. Everything runs inside one try block:
 * anything that throws is a 500.
 */
module AuthRegister {
  import opened Wrappers
  import opened Js
  import opened Store
  import opened Http
  import Jwt
  import EmailPattern

  const MissingFields := "必要な情報が不足しています"
  const BadEmail := "無効なメールアドレス形式です"
  const ShortPassword := "パスワードは8文字以上である必要があります"
  const EmailTaken := "既に登録されているメールアドレスです"
  const ServerError := "サーバーエラーが発生しました"

  /** `x.length < 8` as JS compares it: a string's UTF-16 length, an
      array's element count, an object's own `length` value converted by
      `Number` (a missing key, or one that converts to NaN, is None, and a
      comparison with NaN is false); the other values have no `length`. */
  function LengthOf(v: Json): (r: Option<int>)
    ensures v.JStr? ==> r == Some(Utf16Length(v.s))
    ensures v.JObj? && "length" !in v.fields ==> r.None?
    ensures v.JNull? || v.JBool? || v.JNum? ==> r.None?
  {
    match v
    case JStr(s) => Some(Utf16Length(s))
    case JArr(es) => Some(|es|)
    case JObj(fields) => if "length" in fields then ToNumber(Some(fields["length"])) else None
    case _ => None
  }

  /** The user `prisma.user.create` adds: the next id, the hashed password. */
  function NewUser(db: Db, name: string, email: string, hashed: string): (u: User)
    ensures UserById(db.users, u.id).None?
  {
    User(NextId(UserIds(db.users)), name, email, hashed)
  }

  function Fail(status: int, message: string, db: Db): Handled {
    Handled(JsonReply(status, ErrorBody(message)), db, [])
  }

  /** `POST(request)` with body `body`, bcrypt's `hash`, `JWT_SECRET` and `now`. */
  function Register(lib: Jwt.Library, hash: string -> string, body: Option<Json>, db: Db,
                    secret: Option<string>, now: int): (h: Handled)
    ensures h.reply.status in {201, 400, 500}
    ensures h.reply.status == 400 ==> h.db == db
    ensures h.db == db || |h.db.users| == |db.users| + 1
    ensures h.sent == []
    ensures h.reply.status == 201 || h.db != db ==>
      body.Some? && !body.value.JNull?
      && var data := body.value;
      StringField(data, "name").Some? && StringField(data, "email").Some? && StringField(data, "password").Some?
      && EmailPattern.SimpleEmail(StringField(data, "email").value)
      && Utf16Length(StringField(data, "password").value) >= 8
      && UserByEmail(db.users, StringField(data, "email").value).None?
      && h.db == db.(users := db.users + [NewUser(db, StringField(data, "name").value, StringField(data, "email").value,
                                                  hash(StringField(data, "password").value))])
    ensures h.reply.status == 201 ==>
      h.db != db && h.reply.body.RegisteredBody? && h.reply.body.profile == ProfileOf(h.db.users[|db.users|])
  {
    if body.None? || body.value.JNull? then Fail(500, ServerError, db)
    else
      var data := body.value;
      var name := Get(data, "name").value;
      var email := Get(data, "email").value;
      var password := Get(data, "password").value;
      if Falsy(name) || Falsy(email) || Falsy(password) then Fail(400, MissingFields, db)
      else if !EmailPattern.SimpleEmail(ToStringValue(email)) then Fail(400, BadEmail, db)
      else if LengthOf(password.value).Some? && LengthOf(password.value).value < 8 then Fail(400, ShortPassword, db)
      else if !db.online || !email.value.JStr? then Fail(500, ServerError, db)
      else if UserByEmail(db.users, email.value.s).Some? then Fail(400, EmailTaken, db)
      else if !password.value.JStr? || !name.value.JStr? then Fail(500, ServerError, db)
      else
        var user := NewUser(db, name.value.s, email.value.s, hash(password.value.s));
        var stored := db.(users := db.users + [user]);
        match Jwt.Sign(lib, map["userId" := JNum(user.id), "email" := JStr(user.email)], secret, Jwt.HourSeconds, now)
        case None => Fail(500, ServerError, stored)
        case Some(token) => Handled(JsonReply(201, RegisteredBody(ProfileOf(user), token)), stored, [])
  }

  /** A sign-up body with three string fields. */
  function Form(name: string, email: string, password: string): Json {
    JObj(map["name" := JStr(name), "email" := JStr(email), "password" := JStr(password)])
  }

  /** The three fields of a form read back as the strings it was built from. */
  lemma FormFields(name: string, email: string, password: string)
    ensures Get(Form(name, email, password), "name") == Ok(Some(JStr(name)))
    ensures Get(Form(name, email, password), "email") == Ok(Some(JStr(email)))
    ensures Get(Form(name, email, password), "password") == Ok(Some(JStr(password)))
  {
  }

  /** A missing field is a 400 before the store is touched: even a store
      that would throw is never reached. */
  lemma MissingFieldFirst(lib: Jwt.Library, hash: string -> string, db: Db, secret: Option<string>, now: int,
                          name: string, email: string, password: string)
    requires name == "" || email == "" || password == ""
    ensures Register(lib, hash, Some(Form(name, email, password)), db, secret, now) == Fail(400, MissingFields, db)
  {
    FormFields(name, email, password);
  }

  /** Then the e-mail shape, then the length (in UTF-16 units), each a 400
      that leaves the store alone. */
  lemma ShapeThenLength(lib: Jwt.Library, hash: string -> string, db: Db, secret: Option<string>, now: int,
                        name: string, email: string, password: string)
    requires name != "" && email != "" && password != ""
    ensures !EmailPattern.SimpleEmail(email) ==>
      Register(lib, hash, Some(Form(name, email, password)), db, secret, now) == Fail(400, BadEmail, db)
    ensures EmailPattern.SimpleEmail(email) && Utf16Length(password) < 8 ==>
      Register(lib, hash, Some(Form(name, email, password)), db, secret, now) == Fail(400, ShortPassword, db)
  {
    FormFields(name, email, password);
  }

  /** A registered e-mail gives 400 and no user is created. */
  lemma DuplicateEmailRefused(lib: Jwt.Library, hash: string -> string, db: Db, secret: Option<string>, now: int,
                              name: string, email: string, password: string)
    requires name != "" && EmailPattern.SimpleEmail(email) && Utf16Length(password) >= 8 && db.online
    requires UserByEmail(db.users, email).Some?
    ensures Register(lib, hash, Some(Form(name, email, password)), db, secret, now) == Fail(400, EmailTaken, db)
  {
    FormFields(name, email, password);
  }

  /** A new user is stored with the hash of the password, never the
      password; the reply is 201 with the profile (no password) and a token
      that verifies, for the next hour, to `userId` and `email`. */
  lemma Registered(lib: Jwt.Library, hash: string -> string, db: Db, secret: Option<string>, now: int, later: int,
                   name: string, email: string, password: string)
    requires Jwt.Sound(lib) && Jwt.Configured(secret)
    requires name != "" && EmailPattern.SimpleEmail(email) && Utf16Length(password) >= 8 && db.online
    requires UserByEmail(db.users, email).None?
    requires later / 1000 < now / 1000 + Jwt.HourSeconds
    ensures var h := Register(lib, hash, Some(Form(name, email, password)), db, secret, now);
      var u := NewUser(db, name, email, hash(password));
      h.db == db.(users := db.users + [u])
      && h.reply.status == 201 && h.reply.body.RegisteredBody?
      && h.reply.body.profile == Profile(u.id, name, email)
      && Jwt.Verify(lib, h.reply.body.token, secret, later)
         == Ok(map["userId" := JNum(u.id), "email" := JStr(email),
                   "iat" := JNum(now / 1000), "exp" := JNum(now / 1000 + Jwt.HourSeconds)])
  {
    assert password != "" by { assert Utf16Length(password) > 0; }
    FormFields(name, email, password);
    var u := NewUser(db, name, email, hash(password));
    var claims := map["userId" := JNum(u.id), "email" := JStr(u.email)];
    Jwt.SignThenVerify(lib, claims, secret, Jwt.HourSeconds, now, later);
  }

  /** Without a secret, `jwt.sign` throws after the user was stored: the
      reply is 500 and the new row stays. */
  lemma MissingSecretKeepsUser(lib: Jwt.Library, hash: string -> string, db: Db, now: int,
                               name: string, email: string, password: string)
    requires name != "" && EmailPattern.SimpleEmail(email) && Utf16Length(password) >= 8 && db.online
    requires UserByEmail(db.users, email).None?
    ensures Register(lib, hash, Some(Form(name, email, password)), db, None, now)
         == Fail(500, ServerError, db.(users := db.users + [NewUser(db, name, email, hash(password))]))
  {
    assert password != "" by { assert Utf16Length(password) > 0; }
    FormFields(name, email, password);
  }

  /** `String(["a@b.co"])` is `"a@b.co"`, so an e-mail posted inside a
      one-element array passes the pattern; the store then refuses the
      non-string value and the reply is 500, with nothing created. */
  lemma ArrayEmailReachesStore(lib: Jwt.Library, hash: string -> string, db: Db, secret: Option<string>, now: int,
                               name: string, email: string, password: string)
    requires name != "" && EmailPattern.SimpleEmail(email) && Utf16Length(password) >= 8 && db.online
    ensures var body := JObj(map["name" := JStr(name), "email" := JArr([JStr(email)]), "password" := JStr(password)]);
      Register(lib, hash, Some(body), db, secret, now) == Fail(500, ServerError, db)
  {
    var body := JObj(map["name" := JStr(name), "email" := JArr([JStr(email)]), "password" := JStr(password)]);
    ArrayFormFields(name, email, password);
    assert password != "" by { assert Utf16Length(password) > 0; }
    ShortArrayString(JStr(email));
    assert !Falsy(Get(body, "name").value) && !Falsy(Get(body, "email").value) && !Falsy(Get(body, "password").value);
    assert ToStringValue(Get(body, "email").value) == email;
    assert !Get(body, "email").value.value.JStr?;
  }

  /** A password posted as an object answers to `.length` through its own
      `length` key: `{"length": 3}` is too short, a 400 before the store is
      touched, although no string password was posted. */
  lemma ObjectPasswordLength(lib: Jwt.Library, hash: string -> string, db: Db, secret: Option<string>, now: int,
                             name: string, email: string, n: int)
    requires name != "" && EmailPattern.SimpleEmail(email) && n < 8
    ensures var body := JObj(map["name" := JStr(name), "email" := JStr(email),
                                 "password" := JObj(map["length" := JNum(n)])]);
      Register(lib, hash, Some(body), db, secret, now) == Fail(400, ShortPassword, db)
  {
    var body := JObj(map["name" := JStr(name), "email" := JStr(email),
                         "password" := JObj(map["length" := JNum(n)])]);
    assert Get(body, "name") == Ok(Some(JStr(name)));
    assert Get(body, "email") == Ok(Some(JStr(email)));
    assert Get(body, "password") == Ok(Some(JObj(map["length" := JNum(n)])));
  }

  /** The fields of a sign-up body whose e-mail is a one-element array. */
  lemma ArrayFormFields(name: string, email: string, password: string)
    ensures var body := JObj(map["name" := JStr(name), "email" := JArr([JStr(email)]), "password" := JStr(password)]);
      Get(body, "name") == Ok(Some(JStr(name))) && Get(body, "email") == Ok(Some(JArr([JStr(email)])))
      && Get(body, "password") == Ok(Some(JStr(password)))
  {
  }
}
