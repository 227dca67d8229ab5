/** The `/api/auth/login` handler of app.js: a chain of early returns over
    the submitted first name and password, the account looked up by first
    name, and the bcrypt comparison. `matches(password, stored)` stands for
    `bcrypt.compare`, and `sign(claims)` for `jwt.sign`. The handler
    changes no stored state. */
module LoginHandler {
  import opened Common
  import opened Accounts

  /** The JWT payload. `userId` is the record's position, which stands for
      its `_id`. */
  datatype Claims = Claims(userId: nat, firstname: string, email: string, role: string)

  /** The `user` object of the success reply. */
  datatype UserView = UserView(firstname: string, email: string, role: string)

  datatype LoginReply =
    | Rejected(status: int, message: string)
    | LoggedIn(token: string, user: UserView)

  /** `user.role || 'user'`. */
  function EffectiveRole(role: string): (r: string)
    ensures r != ""
    ensures role != "" ==> r == role
  {
    if role == "" then "user" else role
  }

  predicate HasFirstname(a: Account, firstname: string) {
    a.firstname == firstname
  }

  /** `findOne({ firstname })`. */
  function FindByFirstname(rs: seq<Account>, firstname: string): (r: Option<nat>)
    ensures r.Some? ==> r.value < |rs| && rs[r.value].firstname == firstname
    ensures r.Some? ==> forall j :: 0 <= j < r.value ==> rs[j].firstname != firstname
    ensures r.None? <==> forall j :: 0 <= j < |rs| ==> rs[j].firstname != firstname
  {
    FindFirst(rs, a => HasFirstname(a, firstname))
  }

  function Login(rs: seq<Account>, firstname: string, password: string,
                 matches: (string, string) -> bool, sign: Claims -> string): (r: LoginReply)
    // a missing field is rejected before any lookup
    ensures firstname == "" || password == "" ==>
              r == Rejected(400, "Please provide both username and password")
    // an unknown name gets the generic message
    ensures firstname != "" && password != "" && FindByFirstname(rs, firstname).None? ==>
              r == Rejected(401, "Invalid credentials")
    ensures firstname != "" && password != "" && FindByFirstname(rs, firstname).Some? ==>
              var u := rs[FindByFirstname(rs, firstname).value];
              // the verified flag is checked before the password
              (!u.isVerified ==> r == Rejected(401, "Please verify your email first")) &&
              (u.isVerified && !matches(password, u.password) ==> r == Rejected(401, "Invalid credentials")) &&
              (u.isVerified && matches(password, u.password) ==> r.LoggedIn?)
    // success: the token and the reply carry the same effective role
    ensures r.LoggedIn? ==>
              FindByFirstname(rs, firstname).Some? &&
              var k := FindByFirstname(rs, firstname).value;
              var role := EffectiveRole(rs[k].role);
              r.token == sign(Claims(k, rs[k].firstname, rs[k].email, role)) &&
              r.user == UserView(rs[k].firstname, rs[k].email, role)
  {
    if firstname == "" || password == "" then
      Rejected(400, "Please provide both username and password")
    else
      match FindByFirstname(rs, firstname)
      case None => Rejected(401, "Invalid credentials")
      case Some(k) =>
        var user := rs[k];
        if !user.isVerified then Rejected(401, "Please verify your email first")
        else if !matches(password, user.password) then Rejected(401, "Invalid credentials")
        else
          var role := EffectiveRole(user.role);
          LoggedIn(sign(Claims(k, user.firstname, user.email, role)),
                   UserView(user.firstname, user.email, role))
  }

  /** A caller cannot tell an unknown name from a wrong password on a
      verified account: both replies are identical. */
  lemma UnknownUserLooksLikeWrongPassword(rs: seq<Account>, rs': seq<Account>, firstname: string,
                                          password: string, matches: (string, string) -> bool,
                                          sign: Claims -> string)
    requires firstname != "" && password != ""
    requires FindByFirstname(rs, firstname).None?
    requires FindByFirstname(rs', firstname).Some?
    requires var u := rs'[FindByFirstname(rs', firstname).value];
             u.isVerified && !matches(password, u.password)
    ensures Login(rs, firstname, password, matches, sign) == Login(rs', firstname, password, matches, sign)
  {
  }
}
