/** The password-reset OTP table of routes/authRoutes.js. `/api/send-otp`
    issues an OTP valid for fifteen minutes, but only for an address that
    has an account. `/api/verify-otp1` checks it, with the OTP comparison
    made BEFORE the expiry test. It optionally stores a new password hash,
    and it consumes the OTP. The clock, the random draw, the e-mail outcome
    and the bcrypt hash of the new password are parameters. A missing
    request field is the empty string. */
module PasswordReset {
  import opened Common
  import opened OtpCode
  import opened Accounts

  /** Validity window of a reset OTP: fifteen minutes, in milliseconds. */
  const ResetOtpTtl: int := 15 * 60 * 1000

  datatype ResetEntry = ResetEntry(otp: string, expires: int)

  type ResetTable = map<string, ResetEntry>

  /** The JSON reply `{ message }` with its HTTP status. */
  datatype Reply = Reply(status: int, message: string)

  datatype SendStep = SendStep(reply: Reply, table: ResetTable)

  datatype ResetStep = ResetStep(reply: Reply, table: ResetTable, records: seq<Account>)

  /** `/api/send-otp` with `otp` drawn and `mailSent` the e-mail outcome. */
  function SendOtp(rs: seq<Account>, m: ResetTable, email: string, otp: string, now: int,
                   mailSent: bool): (r: SendStep)
    ensures FindByEmail(rs, email).None? ==> r == SendStep(Reply(404, "User not found"), m)
    ensures FindByEmail(rs, email).Some? ==>
              r.table == m[email := ResetEntry(otp, now + 900000)] &&
              r.reply.status == (if mailSent then 200 else 500)
  {
    if FindByEmail(rs, email).None? then
      SendStep(Reply(404, "User not found"), m)
    else
      var m' := m[email := ResetEntry(otp, now + ResetOtpTtl)];
      if mailSent then SendStep(Reply(200, "OTP sent successfully"), m')
      else SendStep(Reply(500, "Failed to send OTP"), m')
  }

  /** `findOneAndUpdate({ email }, { password: hashed })`: the first record
      with that address gets the new password; no record, no change. */
  function SetPassword(rs: seq<Account>, email: string, hashed: string): (rs': seq<Account>)
    ensures |rs'| == |rs|
    ensures FindByEmail(rs, email).None? ==> rs' == rs
    ensures FindByEmail(rs, email).Some? ==>
              var k := FindByEmail(rs, email).value;
              rs'[k].password == hashed &&
              rs'[k] == rs[k].(password := hashed) &&
              forall j :: 0 <= j < |rs| && j != k ==> rs'[j] == rs[j]
  {
    match FindByEmail(rs, email)
    case None => rs
    case Some(k) => rs[k := rs[k].(password := hashed)]
  }

  /** `/api/verify-otp1`. `newPassword` is the submitted password ("" when
      absent) and `hashed` its bcrypt hash. */
  function VerifyOtp(rs: seq<Account>, m: ResetTable, email: string, otp: string,
                     newPassword: string, hashed: string, now: int): (r: ResetStep)
    // success exactly for a present, matching, unexpired entry
    ensures r.reply.status == 200 <==> email in m && m[email].otp == otp && now <= m[email].expires
    ensures r.reply.status != 200 ==> r.reply.status == 400 && r.records == rs
    // no entry or a wrong OTP: nothing changes, whatever the expiry
    ensures (email !in m || m[email].otp != otp) ==>
              r == ResetStep(Reply(400, "Invalid OTP"), m, rs)
    // a matching entry is removed, whether it had expired or was consumed
    ensures email in m && m[email].otp == otp ==> r.table == m - {email}
    // the password changes only on success and only when a new one is given
    ensures r.reply.status == 200 ==>
              r.reply.message == "Password updated successfully" &&
              r.records == (if newPassword != "" then SetPassword(rs, email, hashed) else rs)
  {
    if email !in m || m[email].otp != otp then
      ResetStep(Reply(400, "Invalid OTP"), m, rs)
    else if now > m[email].expires then
      ResetStep(Reply(400, "OTP has expired"), m - {email}, rs)
    else
      var rs' := if newPassword != "" then SetPassword(rs, email, hashed) else rs;
      ResetStep(Reply(200, "Password updated successfully"), m - {email}, rs')
  }

  // ---------------------------------------------------------------------
  // Properties
  // ---------------------------------------------------------------------

  /** Because the OTP is compared before the expiry is tested, a wrong OTP
      against an expired entry leaves that entry in place. */
  lemma WrongOtpKeepsExpiredEntry(rs: seq<Account>, m: ResetTable, email: string, otp: string,
                                  newPassword: string, hashed: string, now: int)
    requires email in m && m[email].otp != otp && now > m[email].expires
    ensures VerifyOtp(rs, m, email, otp, newPassword, hashed, now).table == m
    ensures email in VerifyOtp(rs, m, email, otp, newPassword, hashed, now).table
  {
  }

  /** An OTP that reset a password cannot be used a second time by a later
      request. Requests are taken one at a time: the handler awaits the
      hash and the update between its check and its delete, so two
      overlapping requests with the right OTP both pass the check. */
  lemma ResetOtpSingleUse(rs: seq<Account>, m: ResetTable, email: string, otp: string,
                          p1: string, h1: string, now: int, p2: string, h2: string, later: int)
    requires VerifyOtp(rs, m, email, otp, p1, h1, now).reply.status == 200
    ensures var r := VerifyOtp(rs, m, email, otp, p1, h1, now);
            VerifyOtp(r.records, r.table, email, otp, p2, h2, later).reply == Reply(400, "Invalid OTP")
  {
  }

  /** Sending then verifying within fifteen minutes resets the password of
      the account with that address. */
  lemma {:induction false} SendThenReset(rs: seq<Account>, m: ResetTable, email: string, draw: OtpDraw,
                                         now: int, mailSent: bool, newPassword: string, hashed: string,
                                         later: int, k: nat)
    requires UniqueEmails(rs) && k < |rs| && rs[k].email == email
    requires newPassword != "" && later <= now + ResetOtpTtl
    ensures var s := SendOtp(rs, m, email, GenerateOtp(draw), now, mailSent);
            var r := VerifyOtp(rs, s.table, email, GenerateOtp(draw), newPassword, hashed, later);
            r.reply.status == 200 && r.records[k].password == hashed && email !in r.table
  {
    FindByEmailUnique(rs, email, k);
  }

  /** A reset changes no address, so unique addresses stay unique. */
  lemma ResetKeepsEmailsUnique(rs: seq<Account>, m: ResetTable, email: string, otp: string,
                               newPassword: string, hashed: string, now: int)
    requires UniqueEmails(rs)
    ensures UniqueEmails(VerifyOtp(rs, m, email, otp, newPassword, hashed, now).records)
  {
    var rs' := VerifyOtp(rs, m, email, otp, newPassword, hashed, now).records;
    assert forall j :: 0 <= j < |rs| ==> rs'[j].email == rs[j].email;
  }

  // ---------------------------------------------------------------------
  // The module-level `otpStore` and its handlers
  // ---------------------------------------------------------------------

  class ResetOtpStore {
    var entries: ResetTable

    constructor ()
      ensures entries == map[]
    {
      entries := map[];
    }

    /** `/api/send-otp`. */
    method HandleSendOtp(accounts: AccountTable, email: string, draw: OtpDraw, now: int, mailSent: bool)
      returns (reply: Reply)
      modifies this
      ensures reply == SendOtp(accounts.records, old(entries), email, GenerateOtp(draw), now, mailSent).reply
      ensures entries == SendOtp(accounts.records, old(entries), email, GenerateOtp(draw), now, mailSent).table
    {
      if FindByEmail(accounts.records, email).None? {
        return Reply(404, "User not found");
      }
      var otp := GenerateOtp(draw);
      entries := entries[email := ResetEntry(otp, now + ResetOtpTtl)];
      if mailSent {
        reply := Reply(200, "OTP sent successfully");
      } else {
        reply := Reply(500, "Failed to send OTP");
      }
    }

    /** `/api/verify-otp1`: on success the matching account's password field
        is overwritten in place when a new password was submitted. */
    method HandleVerifyOtp(accounts: AccountTable, email: string, otp: string, newPassword: string,
                           hashed: string, now: int) returns (reply: Reply)
      modifies this, accounts
      ensures reply == VerifyOtp(old(accounts.records), old(entries), email, otp, newPassword, hashed, now).reply
      ensures entries == VerifyOtp(old(accounts.records), old(entries), email, otp, newPassword, hashed, now).table
      ensures accounts.records == VerifyOtp(old(accounts.records), old(entries), email, otp, newPassword, hashed, now).records
    {
      if email !in entries || entries[email].otp != otp {
        return Reply(400, "Invalid OTP");
      }
      if now > entries[email].expires {
        entries := entries - {email};
        return Reply(400, "OTP has expired");
      }
      if newPassword != "" {
        var found := FindByEmail(accounts.records, email);
        if found.Some? {
          var k := found.value;
          accounts.records := accounts.records[k := accounts.records[k].(password := hashed)];
        }
      }
      entries := entries - {email};
      reply := Reply(200, "Password updated successfully");
    }
  }
}
