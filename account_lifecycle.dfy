/** The account lifecycle across routes/signRoute.js and the login handler
    of app.js: signup, e-mail verification, login.

    As written, `/signup` stores the submitted password itself, and login
    checks it with `bcrypt.compare(password, user.password)`. That call
    only accepts a bcrypt hash of the password. bcryptjs answers false for
    any stored value that is not 60 characters long, and a password is not a
    valid bcrypt hash of itself. So an account created through `/signup`
    and verified through `/verify-otp` cannot log in with its own password.
    Storing the bcrypt hash at signup, as the password-reset route does,
    makes the same sequence succeed. */
module AccountLifecycle {
  import opened Common
  import opened OtpCode
  import opened Accounts
  import opened SignRoute
  import opened LoginHandler

  /** The collection after a signup storing `storedPassword` followed by a
      verification with the issued OTP at time `t`. */
  function SignedUpAndVerified(rs: seq<Account>, firstname: string, email: string,
                               storedPassword: string, draw: OtpDraw, now: int, t: int,
                               token: string): (rs': seq<Account>)
    requires FindByEmail(rs, email).None? && t < now + SignupOtpTtl
    ensures |rs'| == |rs| + 1 && rs'[..|rs|] == rs
    ensures rs'[|rs|] == Account(firstname, email, storedPassword, None, None, true, "")
  {
    var otp := GenerateOtp(draw);
    var added := NewAccount(firstname, email, storedPassword, otp, now);
    var rs1 := Signup(rs, firstname, email, storedPassword, otp, now).records;
    assert rs1 == rs + [added];
    assert rs1[|rs|] == added && OtpMatches(added, email, otp, t);
    var v := VerifyEmail(rs1, email, otp, t, token);
    assert v.reply.success;
    var k :| 0 <= k < |rs1| && OtpMatches(rs1[k], email, otp, t) && v.records == rs1[k := Verified(rs1[k])];
    assert k == |rs|;
    v.records
  }

  /** Before verification, login is refused with "Please verify your email
      first", even with the right password. */
  lemma {:induction false} LoginBeforeVerifyRefused(rs: seq<Account>, firstname: string, email: string,
                                                    storedPassword: string, otp: string, now: int,
                                                    password: string, matches: (string, string) -> bool,
                                                    sign: Claims -> string)
    requires FindByEmail(rs, email).None? && FindByFirstname(rs, firstname).None?
    requires firstname != "" && password != ""
    ensures Login(Signup(rs, firstname, email, storedPassword, otp, now).records,
                  firstname, password, matches, sign)
            == Rejected(401, "Please verify your email first")
  {
    var rs1 := Signup(rs, firstname, email, storedPassword, otp, now).records;
    assert rs1[|rs|].firstname == firstname;
    assert FindByFirstname(rs1, firstname) == Some(|rs|);
  }

  /** As written: the plain password is stored, and since `bcrypt.compare`
      never accepts a plain password as its own hash, login after a
      successful verification is refused with "Invalid credentials". */
  lemma {:induction false} PlaintextSignupCannotLogIn(rs: seq<Account>, firstname: string, email: string,
                                                      password: string, draw: OtpDraw, now: int, t: int,
                                                      token: string, matches: (string, string) -> bool,
                                                      sign: Claims -> string)
    requires FindByEmail(rs, email).None? && FindByFirstname(rs, firstname).None?
    requires firstname != "" && password != "" && t < now + SignupOtpTtl
    requires !matches(password, password)
    ensures Login(SignedUpAndVerified(rs, firstname, email, password, draw, now, t, token),
                  firstname, password, matches, sign)
            == Rejected(401, "Invalid credentials")
  {
    var rs2 := SignedUpAndVerified(rs, firstname, email, password, draw, now, t, token);
    LoginFindsNewAccount(rs, rs2, firstname);
  }

  /** Corrected: the bcrypt hash is stored, so the verified account logs in
      with its password, with the default role "user". */
  lemma {:induction false} HashedSignupCanLogIn(rs: seq<Account>, firstname: string, email: string,
                                                password: string, hash: string, draw: OtpDraw, now: int,
                                                t: int, token: string, matches: (string, string) -> bool,
                                                sign: Claims -> string)
    requires FindByEmail(rs, email).None? && FindByFirstname(rs, firstname).None?
    requires firstname != "" && password != "" && t < now + SignupOtpTtl
    requires matches(password, hash)
    ensures Login(SignedUpAndVerified(rs, firstname, email, hash, draw, now, t, token),
                  firstname, password, matches, sign)
            == LoggedIn(sign(Claims(|rs|, firstname, email, "user")), UserView(firstname, email, "user"))
  {
    var rs2 := SignedUpAndVerified(rs, firstname, email, hash, draw, now, t, token);
    LoginFindsNewAccount(rs, rs2, firstname);
  }

  /** Login by first name finds the appended account when no earlier
      account has that name. */
  lemma LoginFindsNewAccount(rs: seq<Account>, rs2: seq<Account>, firstname: string)
    requires FindByFirstname(rs, firstname).None?
    requires |rs2| == |rs| + 1 && rs2[..|rs|] == rs && rs2[|rs|].firstname == firstname
    ensures FindByFirstname(rs2, firstname) == Some(|rs|)
  {
    assert forall j :: 0 <= j < |rs| ==> rs2[j] == rs[j];
  }
}
