/** The payment-confirmation OTP table of routes/paymentRoutes.js: a
    process-wide map from e-mail address to the last OTP issued for it and
    its expiry instant. `/send-payment-otp` issues (overwriting), and
    `/verify-payment-otp` checks and consumes. A timer sweeps out expired
    entries. The clock (`Date.now()`), the random draw and the outcome of
    sending the e-mail are parameters. A missing request field is the empty
    string, which is the falsy value the route tests for. */
module PaymentOtp {
  import opened OtpCode

  /** Validity window of a payment OTP: five minutes, in milliseconds. */
  const PaymentOtpTtl: int := 5 * 60 * 1000

  datatype Entry = Entry(otp: string, expiresAt: int)

  type Table = map<string, Entry>

  /** The JSON reply `{ success, message }` with its HTTP status. */
  datatype Reply = Reply(status: int, success: bool, message: string)

  /** The table and the reply after one verification request. */
  datatype VerifyStep = VerifyStep(reply: Reply, table: Table)

  /** The table after issuing `otp` for `email` at time `now`. */
  function Issue(m: Table, email: string, otp: string, now: int): (m': Table)
    ensures email in m' && m'[email] == Entry(otp, now + 300000)
    ensures forall e :: e in m && e != email ==> e in m' && m'[e] == m[e]
    ensures m'.Keys == m.Keys + {email}
  {
    m[email := Entry(otp, now + PaymentOtpTtl)]
  }

  /** An entry is still usable at `now` unless `now` is strictly after its
      expiry instant. */
  predicate Live(e: Entry, now: int) {
    now <= e.expiresAt
  }

  /** The reply to `/verify-payment-otp` and the table it leaves. */
  function Verify(m: Table, email: string, otp: string, now: int): (r: VerifyStep)
    // success exactly for a present, live, matching entry
    ensures r.reply.success <==>
      email != "" && otp != "" && email in m && Live(m[email], now) && m[email].otp == otp
    ensures r.reply.status == (if r.reply.success then 200 else 400)
    // the entry is removed exactly when it was consumed or found expired
    ensures email != "" && otp != "" && email in m &&
            (!Live(m[email], now) || m[email].otp == otp)
            ==> r.table == m - {email}
    ensures !(email != "" && otp != "" && email in m &&
              (!Live(m[email], now) || m[email].otp == otp))
            ==> r.table == m
  {
    if email == "" || otp == "" then
      VerifyStep(Reply(400, false, "Email and OTP are required"), m)
    else if email !in m then
      VerifyStep(Reply(400, false, "No OTP found for this email"), m)
    else if now > m[email].expiresAt then
      VerifyStep(Reply(400, false, "OTP has expired"), m - {email})
    else if m[email].otp != otp then
      VerifyStep(Reply(400, false, "Invalid OTP"), m)
    else
      VerifyStep(Reply(200, true, "OTP verified successfully"), m - {email})
  }

  /** The table after the periodic sweep at `now`: exactly the live entries. */
  function Swept(m: Table, now: int): (m': Table)
    ensures forall e :: e in m' <==> e in m && Live(m[e], now)
    ensures forall e :: e in m' ==> m'[e] == m[e]
  {
    map e | e in m && Live(m[e], now) :: m[e]
  }

  // ---------------------------------------------------------------------
  // Properties of the specification
  // ---------------------------------------------------------------------

  /** An OTP that was just issued verifies, at any instant up to and
      including its expiry, and only then. */
  lemma IssueThenVerify(m: Table, email: string, draw: OtpDraw, now: int, later: int)
    requires email != ""
    ensures Verify(Issue(m, email, GenerateOtp(draw), now), email, GenerateOtp(draw), later).reply.success
            <==> later <= now + PaymentOtpTtl
  {
  }

  /** Issuing again overwrites: the earlier OTP for the same address no
      longer verifies. */
  lemma ReissueInvalidatesEarlier(m: Table, email: string, otp1: string, otp2: string,
                                  t1: int, t2: int, later: int)
    requires otp1 != otp2
    ensures !Verify(Issue(Issue(m, email, otp1, t1), email, otp2, t2), email, otp1, later).reply.success
  {
  }

  /** A consumed OTP never verifies again, whatever is presented later,
      until a new one is issued for that address. */
  lemma ConsumedNeverVerifiesAgain(m: Table, email: string, otp: string, now: int,
                                   otp2: string, later: int)
    requires Verify(m, email, otp, now).reply.success
    ensures !Verify(Verify(m, email, otp, now).table, email, otp2, later).reply.success
  {
  }

  /** A wrong guess on a live entry keeps it, so the right OTP presented
      afterwards, still within validity, succeeds. */
  lemma WrongGuessKeepsEntry(m: Table, email: string, guess: string, now: int, later: int)
    requires email in m && email != "" && guess != "" && m[email].otp != ""
    requires guess != m[email].otp && now <= later && Live(m[email], later)
    ensures Verify(m, email, guess, now).table == m
    ensures Verify(Verify(m, email, guess, now).table, email, m[email].otp, later).reply.success
  {
  }

  /** Failure never adds or alters entries; it can only drop the presented
      address's entry. */
  lemma VerifyOnlyRemoves(m: Table, email: string, otp: string, now: int)
    ensures Verify(m, email, otp, now).table == m ||
            Verify(m, email, otp, now).table == m - {email}
  {
  }

  /** Sweeping never changes whether a later verification succeeds. */
  lemma {:induction false} SweepPreservesVerify(m: Table, now: int, email: string, otp: string, later: int)
    requires now <= later
    ensures Verify(Swept(m, now), email, otp, later).reply.success
            == Verify(m, email, otp, later).reply.success
  {
    if email in m && !Live(m[email], now) {
      assert !Live(m[email], later);
      assert email !in Swept(m, now);
    }
  }

  /** Sweeping twice at the same instant is the same as sweeping once. */
  lemma SweepIdempotent(m: Table, now: int)
    ensures Swept(Swept(m, now), now) == Swept(m, now)
  {
  }

  // ---------------------------------------------------------------------
  // The module-level `otpStore` and the three handlers that mutate it
  // ---------------------------------------------------------------------

  class PaymentOtpStore {
    var entries: Table

    constructor ()
      ensures entries == map[]
    {
      entries := map[];
    }

    /** `/send-payment-otp`. The entry is stored before the e-mail is
        sent, so a failed send (reply 500) still leaves it in place. */
    method SendOtp(email: string, draw: OtpDraw, now: int, mailSent: bool) returns (reply: Reply)
      modifies this
      ensures email == "" ==> reply == Reply(400, false, "Email is required") && entries == old(entries)
      ensures email != "" ==> entries == Issue(old(entries), email, GenerateOtp(draw), now)
      ensures email != "" && mailSent ==> reply == Reply(200, true, "OTP sent successfully")
      ensures email != "" && !mailSent ==> reply == Reply(500, false, "Failed to send OTP")
    {
      if email == "" {
        return Reply(400, false, "Email is required");
      }
      var otp := GenerateOtp(draw);
      entries := entries[email := Entry(otp, now + PaymentOtpTtl)];
      if mailSent {
        reply := Reply(200, true, "OTP sent successfully");
      } else {
        reply := Reply(500, false, "Failed to send OTP");
      }
    }

    /** `/verify-payment-otp`. */
    method VerifyOtp(email: string, otp: string, now: int) returns (reply: Reply)
      modifies this
      ensures reply == Verify(old(entries), email, otp, now).reply
      ensures entries == Verify(old(entries), email, otp, now).table
    {
      if email == "" || otp == "" {
        return Reply(400, false, "Email and OTP are required");
      }
      if email !in entries {
        return Reply(400, false, "No OTP found for this email");
      }
      var stored := entries[email];
      if now > stored.expiresAt {
        entries := entries - {email};
        return Reply(400, false, "OTP has expired");
      }
      if stored.otp != otp {
        return Reply(400, false, "Invalid OTP");
      }
      entries := entries - {email};
      reply := Reply(200, true, "OTP verified successfully");
    }

    /** The body of the `setInterval` callback: walk the entries, deleting
        every one whose expiry instant is before `now`. */
    method Sweep(now: int)
      modifies this
      ensures entries == Swept(old(entries), now)
    {
      var pending := entries.Keys;
      while pending != {}
        invariant pending <= old(entries).Keys
        invariant forall e :: e in entries <==>
                    e in old(entries) && (e in pending || Live(old(entries)[e], now))
        invariant forall e :: e in entries ==> entries[e] == old(entries)[e]
        decreases pending
      {
        var email :| email in pending;
        if now > entries[email].expiresAt {
          entries := entries - {email};
        }
        pending := pending - {email};
      }
    }
  }
}
