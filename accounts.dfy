/** The signup collection (`AllSignup`) that routes/signRoute.js inserts
    into, routes/authRoutes.js updates passwords in, and the login handler of
    app.js reads. A record carries the fields those handlers use: first
    name, e-mail, stored password, the pending verification OTP with its
    expiry, the verified flag and the role. The collection is a sequence in
    insertion order; `findOne` returns the first record that matches. A
    record's position stands for its `_id`: nothing in the model deletes
    or reorders records. */
module Accounts {
  import opened Common

  datatype Account = Account(
    firstname: string,
    email: string,
    password: string,
    otp: Option<string>,
    otpExpiry: Option<int>,
    isVerified: bool,
    role: string)

    predicate HasEmail(a: Account, email: string) {
    a.email == email
  }

  /** `findOne({ email })`. */
  function FindByEmail(rs: seq<Account>, email: string): (r: Option<nat>)
    ensures r.Some? ==> r.value < |rs| && rs[r.value].email == email
    ensures r.None? <==> forall j :: 0 <= j < |rs| ==> rs[j].email != email
  {
    FindFirst(rs, a => HasEmail(a, email))
  }

  /** No two records share an e-mail address. */
  ghost predicate UniqueEmails(rs: seq<Account>) {
    forall i, j :: 0 <= i < j < |rs| ==> rs[i].email != rs[j].email
  }

  /** Under unique addresses, the record found by e-mail is the only one
      with that address. */
  lemma FindByEmailUnique(rs: seq<Account>, email: string, k: nat)
    requires UniqueEmails(rs) && k < |rs| && rs[k].email == email
    ensures FindByEmail(rs, email) == Some(k)
  {
  }

  /** The collection itself, updated in place by the route handlers. */
  class AccountTable {
    var records: seq<Account>

    constructor ()
      ensures records == []
    {
      records := [];
    }
  }
}
