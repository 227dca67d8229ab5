/** routes/signRoute.js: `/signup` registers an unverified account holding a
    verification OTP valid for ten minutes, and `/verify-otp` marks the
    account verified and clears the OTP. The clock, the random draw, the
    outcome of the verification e-mail and the signed JWT are parameters.

    The route as written stores the submitted password itself, while login
    compares with `bcrypt.compare`, which expects a bcrypt hash; the
    `HandleSignup` method below stores the hash instead (the corrected flow), and
    module AccountLifecycle exhibits both behaviours. */
module SignRoute {
  import opened Common
  import opened OtpCode
  import opened Accounts

  /** Validity window of a signup OTP: ten minutes, in milliseconds. */
  const SignupOtpTtl: int := 10 * 60 * 1000

  datatype Reply = Reply(status: int, success: bool, message: string)

  datatype SignupStep = SignupStep(reply: Reply, records: seq<Account>)

  datatype VerifyStep = VerifyStep(reply: Reply, token: Option<string>, records: seq<Account>)

  /** The record a successful signup inserts. */
  function NewAccount(firstname: string, email: string, storedPassword: string,
                      otp: string, now: int): (a: Account)
    ensures a.email == email && a.firstname == firstname && a.password == storedPassword
    ensures a.otp == Some(otp) && a.otpExpiry == Some(now + 600000)
    ensures !a.isVerified && a.role == ""
  {
    Account(firstname, email, storedPassword, Some(otp), Some(now + SignupOtpTtl), false, "")
  }

  /** `/signup` on the collection `rs`, storing `storedPassword`. */
  function Signup(rs: seq<Account>, firstname: string, email: string, storedPassword: string,
                  otp: string, now: int): (r: SignupStep)
    ensures FindByEmail(rs, email).Some? ==>
              r.reply == Reply(400, false, "Email already registered") && r.records == rs
    ensures FindByEmail(rs, email).None? ==>
              r.reply.status == 201 && r.reply.success &&
              r.records == rs + [NewAccount(firstname, email, storedPassword, otp, now)]
  {
    if FindByEmail(rs, email).Some? then
      SignupStep(Reply(400, false, "Email already registered"), rs)
    else
      SignupStep(Reply(201, true, "Registration successful! Please check your email for OTP."),
                 rs + [NewAccount(firstname, email, storedPassword, otp, now)])
  }

  /** The `/verify-otp` query `{ email, otp, otpExpiry: { $gt: now } }`:
      the expiry must be strictly after `now`. */
  predicate OtpMatches(a: Account, email: string, otp: string, now: int) {
    a.email == email && a.otp == Some(otp) && a.otpExpiry.Some? && a.otpExpiry.value > now
  }

  /** The record after verification: verified, OTP and expiry cleared. */
  function Verified(a: Account): (v: Account)
    ensures v.isVerified && v.otp.None? && v.otpExpiry.None?
    ensures v.email == a.email && v.firstname == a.firstname && v.password == a.password
    ensures v.role == a.role
  {
    a.(isVerified := true, otp := None, otpExpiry := None)
  }

  /** `/verify-otp` on the collection `rs`; `token` is what `jwt.sign`
      returns for the found record. */
  function VerifyEmail(rs: seq<Account>, email: string, otp: string, now: int, token: string): (r: VerifyStep)
    ensures r.reply.success <==> exists k :: 0 <= k < |rs| && OtpMatches(rs[k], email, otp, now)
    ensures !r.reply.success ==>
              r.reply == Reply(400, false, "Invalid or expired OTP") && r.token.None? && r.records == rs
    ensures r.reply.success ==> r.reply.status == 200 && r.token == Some(token)
    ensures r.reply.success ==>
              exists k :: 0 <= k < |rs| && OtpMatches(rs[k], email, otp, now) &&
                          r.records == rs[k := Verified(rs[k])]
  {
    match FindFirst(rs, a => OtpMatches(a, email, otp, now))
    case None =>
      VerifyStep(Reply(400, false, "Invalid or expired OTP"), None, rs)
    case Some(k) =>
      VerifyStep(Reply(200, true, "Email verified successfully"), Some(token), rs[k := Verified(rs[k])])
  }

  // ---------------------------------------------------------------------
  // Properties
  // ---------------------------------------------------------------------

  /** A signup handled after the previous one finished never creates a
      second account for an address. The handler awaits between its
      `findOne` and its `save`, and the schema has no unique index, so two
      overlapping signups are not covered. */
  lemma SignupKeepsEmailsUnique(rs: seq<Account>, firstname: string, email: string,
                                storedPassword: string, otp: string, now: int)
    requires UniqueEmails(rs)
    ensures UniqueEmails(Signup(rs, firstname, email, storedPassword, otp, now).records)
  {
  }

  /** Verification changes no address, so it keeps them unique. */
  lemma VerifyKeepsEmailsUnique(rs: seq<Account>, email: string, otp: string, now: int, token: string)
    requires UniqueEmails(rs)
    ensures UniqueEmails(VerifyEmail(rs, email, otp, now, token).records)
  {
    var r := VerifyEmail(rs, email, otp, now, token);
    if r.reply.success {
      var k :| 0 <= k < |rs| && OtpMatches(rs[k], email, otp, now) && r.records == rs[k := Verified(rs[k])];
      assert forall i :: 0 <= i < |rs| ==> r.records[i].email == rs[i].email;
    }
  }

  /** Replaying an OTP that was accepted fails once that verification has
      saved: the OTP was cleared, and no other record carries that address.
      Two overlapping verifications, both reading before either saves, are
      not covered. */
  lemma {:induction false} ReplayFails(rs: seq<Account>, email: string, otp: string, now: int,
                                       token: string, later: int, token2: string)
    requires UniqueEmails(rs)
    requires VerifyEmail(rs, email, otp, now, token).reply.success
    ensures !VerifyEmail(VerifyEmail(rs, email, otp, now, token).records, email, otp, later, token2).reply.success
  {
    var rs' := VerifyEmail(rs, email, otp, now, token).records;
    var k :| 0 <= k < |rs| && OtpMatches(rs[k], email, otp, now) && rs' == rs[k := Verified(rs[k])];
    forall j | 0 <= j < |rs'|
      ensures !OtpMatches(rs'[j], email, otp, later)
    {
    }
  }

  /** A freshly signed-up account verifies with its OTP strictly before
      the expiry instant, and not at or after it. */
  lemma SignupThenVerify(rs: seq<Account>, firstname: string, email: string, storedPassword: string,
                         draw: OtpDraw, now: int, t: int, token: string)
    requires UniqueEmails(rs) && FindByEmail(rs, email).None?
    ensures VerifyEmail(Signup(rs, firstname, email, storedPassword, GenerateOtp(draw), now).records,
                        email, GenerateOtp(draw), t, token).reply.success
            <==> t < now + SignupOtpTtl
  {
    var rs' := Signup(rs, firstname, email, storedPassword, GenerateOtp(draw), now).records;
    assert OtpMatches(rs'[|rs|], email, GenerateOtp(draw), t) <==> t < now + SignupOtpTtl;
    forall j | 0 <= j < |rs|
      ensures rs'[j].email != email
    {
    }
  }

  // ---------------------------------------------------------------------
  // The handlers, on the collection object
  // ---------------------------------------------------------------------

  /** `/signup`, storing `passwordHash` (the bcrypt hash of the submitted
      password). A failure to send the verification e-mail is only logged:
      the reply does not depend on `mailSent`. */
  method HandleSignup(table: AccountTable, firstname: string, email: string, passwordHash: string,
                      draw: OtpDraw, now: int, mailSent: bool) returns (reply: Reply)
    modifies table
    ensures reply == Signup(old(table.records), firstname, email, passwordHash, GenerateOtp(draw), now).reply
    ensures table.records == Signup(old(table.records), firstname, email, passwordHash, GenerateOtp(draw), now).records
  {
    if FindByEmail(table.records, email).Some? {
      return Reply(400, false, "Email already registered");
    }
    var otp := GenerateOtp(draw);
    table.records := table.records + [NewAccount(firstname, email, passwordHash, otp, now)];
    // the e-mail is sent here; a failure is logged and the reply is the same
    reply := Reply(201, true, "Registration successful! Please check your email for OTP.");
  }

  /** `/verify-otp`: assigns the three fields of the found record. */
  method HandleVerifyOtp(table: AccountTable, email: string, otp: string, now: int, signed: string)
    returns (reply: Reply, token: Option<string>)
    modifies table
    ensures reply == VerifyEmail(old(table.records), email, otp, now, signed).reply
    ensures token == VerifyEmail(old(table.records), email, otp, now, signed).token
    ensures table.records == VerifyEmail(old(table.records), email, otp, now, signed).records
  {
    var found := FindFirst(table.records, a => OtpMatches(a, email, otp, now));
    if found.None? {
      return Reply(400, false, "Invalid or expired OTP"), None;
    }
    var k := found.value;
    var user := table.records[k];
    user := user.(isVerified := true);
    user := user.(otp := None);
    user := user.(otpExpiry := None);
    table.records := table.records[k := user];
    reply, token := Reply(200, true, "Email verified successfully"), Some(signed);
  }
}
