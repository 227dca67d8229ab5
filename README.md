# wenlirapp backend logic in Dafny

A Dafny model of the logic in the Express e-commerce backend wenlirapp that goes beyond database and mail plumbing:

- **Three keyed one-time-password flows.**
  - The payment-confirmation OTP table of `routes/paymentRoutes.js`: issue, verify and consume, and the periodic sweep.
  - The password-reset OTP table of `routes/authRoutes.js`.
  - The account lifecycle: signup and e-mail verification in `routes/signRoute.js`, and the login handler in `app.js`.
- **Request-decision chains.**
  - The bearer-token middleware in `middleware/authMiddleware.js`.
  - The payment-gateway routes in `cashfree.js`: order payload, status classification, and webhook signature check with event dispatch.
- **The string and paging helpers of `routes/productRoutes.js`.**
  - Title slug.
  - Regular-expression escape.
  - `sizes`/`colors` splitting.
  - Page arithmetic.
  - Slug backfill on the product found by title.
- **Payload builders and list transforms.**
  - The courier order of `routes/shiprocketRoutes.js`.
  - The text-slide validation and sort of `slidesController.js`.
  - The image-slide filter, filenames and numbering of `imageSlider.js`.

Each source file is modelled in its own form:

- **State changed in place is a class.** The OTP `Map`s, the account collection, the product collection, the slide collection and the request array sorted in place are classes. Their methods are proved against specification functions.
- **Pure code is functions and lemmas.** This covers the early-return decision chains, the string transforms and the payload literals.

Some things the code gets from outside are parameters:

- the clock (`Date.now()`, the ISO timestamp);
- the random draws (`Math.random`);
- whether an e-mail was sent;
- the library calls: `bcrypt.compare`, `jwt.sign`, `jwt.verify`, `JSON.stringify` and the HMAC-SHA256 hex digest of RFC 2104 over the SHA-256 of FIPS 180-4;
- the answers of the two remote gateways.

A request field that JavaScript sees as falsy is the empty string, and `undefined` is `None`. A Mongo `findOne` is the first match in insertion order.

Two facts about the code that shape the model:

- **Webhook signing.** `cashfree.js` computes the webhook signature over `JSON.stringify(req.body)`, the re-serialised parsed body rather than the bytes received, and compares it with `!==`. `Cashfree.Webhook` signs `stringify(body)` in the same way.
- **No order orchestration.** The sources contain no idempotency guard on order processing, no step that ships an order only after its payment is verified, and no cancel or return handling. `models/ProcessedOrder.js` and `models/OrderTracker.js` are schemas that no route reads or writes, so there is nothing of that kind to model.

Files: `common.dfy` (options, decimal rendering, split/join), `otp_code.dfy`, `payment_otp.dfy`, `password_reset.dfy`, `accounts.dfy`, `sign_route.dfy`, `login.dfy`, `account_lifecycle.dfy`, `auth_middleware.dfy`, `product_routes.dfy`, `slides_controller.dfy`, `image_slider.dfy`, `shiprocket.dfy`, `cashfree.dfy`.

## Model

| member | source | states |
|---|---|---|
| Common.Decimal | routes/paymentRoutes.js:147 | `toString()` of a natural: non-empty decimal digits without a leading zero; one digit exactly below 10 |
| Common.DecimalRoundTrip | routes/paymentRoutes.js:147 | reading the rendered digits back gives the number |
| Common.DecimalInjective | routes/paymentRoutes.js:147 | distinct numbers render differently |
| Common.Split | routes/productRoutes.js:80-81 | `split(sep)` on one character: at least one piece, no piece contains the separator, a string without it is one piece |
| Common.JoinSplit | routes/productRoutes.js:80-81 | joining the pieces with the separator gives the string back |
| Common.SplitJoin | middleware/authMiddleware.js:13 | splitting separator-free pieces joined by the separator gives the pieces back |
| Common.SplitPrefix | routes/shiprocketRoutes.js:35 | a separator-free prefix followed by the separator is the first piece |
| OtpCode.GenerateOtp | routes/paymentRoutes.js:147 | the OTP is six digits, no leading zero, denoting 100000 + draw, so within [100000, 999999] |
| OtpCode.GenerateOtpInjective | routes/authRoutes.js:31 | different draws give different OTPs |
| OtpCode.GenerateOtpNonEmpty | routes/signRoute.js:36 | an issued OTP is never falsy |
| PaymentOtp.Issue | routes/paymentRoutes.js:150-153 | the address maps to the new OTP with expiry now + 300000, overwriting; every other entry is kept |
| PaymentOtp.Verify | routes/paymentRoutes.js:199-240 | success iff both fields given, entry present, `now <= expiresAt` and OTP equal; status 200/400; the entry is deleted exactly when it was consumed or found expired, otherwise the table is unchanged |
| PaymentOtp.Swept | routes/paymentRoutes.js:243-250 | the sweep keeps exactly the entries with `now <= expiresAt`, unchanged |
| PaymentOtp.IssueThenVerify | routes/paymentRoutes.js:150-239 | a just-issued OTP verifies iff presented no later than five minutes after issue (the expiry instant itself included) |
| PaymentOtp.ReissueInvalidatesEarlier | routes/paymentRoutes.js:150-153 | after a re-issue the earlier OTP no longer verifies |
| PaymentOtp.ConsumedNeverVerifiesAgain | routes/paymentRoutes.js:234-239 | after a success, no OTP verifies for that address until a new issue |
| PaymentOtp.WrongGuessKeepsEntry | routes/paymentRoutes.js:226-231 | a wrong OTP on a live entry keeps it, and the right OTP later within validity succeeds |
| PaymentOtp.VerifyOnlyRemoves | routes/paymentRoutes.js:209-234 | a verification either leaves the table or removes the presented address only |
| PaymentOtp.SweepPreservesVerify | routes/paymentRoutes.js:243-250 | a sweep never changes the outcome of a later verification |
| PaymentOtp.SweepIdempotent | routes/paymentRoutes.js:243-250 | sweeping twice at one instant equals sweeping once |
| PaymentOtp.PaymentOtpStore.SendOtp | routes/paymentRoutes.js:135-196 | no address: 400 and table unchanged; otherwise the entry is issued before the e-mail, and the reply is 200 or 500 by the send outcome |
| PaymentOtp.PaymentOtpStore.VerifyOtp | routes/paymentRoutes.js:199-240 | the reply and the new table are those of `Verify` on the old table |
| PaymentOtp.PaymentOtpStore.Sweep | routes/paymentRoutes.js:243-250 | the loop deleting expired keys leaves exactly `Swept` of the old table |
| PasswordReset.SendOtp | routes/authRoutes.js:21-54 | unknown address: 404 and table unchanged; otherwise the entry with expiry now + 900000 overwrites, reply 200 or 500 by the send outcome |
| PasswordReset.SetPassword | routes/authRoutes.js:75-78 | the first record with the address gets the new hash, every other record is unchanged; no record, no change |
| PasswordReset.VerifyOtp | routes/authRoutes.js:57-90 | success iff entry present, OTP equal and `now <= expires`; a missing entry or wrong OTP is "Invalid OTP" with nothing changed; a matching entry is removed whether expired or consumed; the password changes only on success with a new password given |
| PasswordReset.WrongOtpKeepsExpiredEntry | routes/authRoutes.js:63-70 | the mismatch test comes first, so a wrong OTP leaves even an expired entry in place |
| PasswordReset.ResetOtpSingleUse | routes/authRoutes.js:82 | an OTP that reset a password is "Invalid OTP" on a later second use (requests taken one at a time) |
| PasswordReset.SendThenReset | routes/authRoutes.js:34-84 | send then verify within fifteen minutes resets the account's password and consumes the entry |
| PasswordReset.ResetKeepsEmailsUnique | routes/authRoutes.js:73-79 | a reset keeps addresses unique |
| PasswordReset.ResetOtpStore.HandleSendOtp | routes/authRoutes.js:21-54 | the reply and table are those of `SendOtp` |
| PasswordReset.ResetOtpStore.HandleVerifyOtp | routes/authRoutes.js:57-90 | reply, table and records (password updated in place) are those of `VerifyOtp` |
| Common.FindFirst | routes/signRoute.js:112-116 | `findOne`: the first record satisfying the filter, or none exactly when no record does |
| Accounts.FindByEmail | routes/signRoute.js:27 | `findOne({ email })`: a record with the address, none exactly when no record has it |
| Accounts.FindByEmailUnique | routes/authRoutes.js:24 | under unique addresses the lookup finds the one record with the address |
| SignRoute.NewAccount | routes/signRoute.js:36-46 | the inserted record: unverified, holding the OTP with expiry now + 600000 |
| SignRoute.Signup | routes/signRoute.js:22-78 | a known address is 400 with nothing inserted; otherwise 201 and exactly one record appended |
| SignRoute.Verified | routes/signRoute.js:126-128 | verified, OTP and expiry cleared, every other field kept |
| SignRoute.VerifyEmail | routes/signRoute.js:108-151 | success iff some record has the address, the OTP and an expiry strictly after now; failure is 400 with no change; success verifies one such record and returns the token |
| SignRoute.SignupKeepsEmailsUnique | routes/signRoute.js:27-48 | a signup after earlier ones have finished never creates a second account for an address (requests taken one at a time) |
| SignRoute.VerifyKeepsEmailsUnique | routes/signRoute.js:125-129 | verification keeps addresses unique |
| SignRoute.ReplayFails | routes/signRoute.js:126-128 | an accepted OTP fails when replayed after that verification saved (requests taken one at a time) |
| SignRoute.SignupThenVerify | routes/signRoute.js:36-116 | a fresh account verifies with its OTP iff presented strictly before now + 600000 |
| SignRoute.HandleSignup | routes/signRoute.js:22-78 | reply and records are those of `Signup`, storing the bcrypt hash (corrected, see Findings); the e-mail outcome does not change the reply |
| SignRoute.HandleVerifyOtp | routes/signRoute.js:108-151 | reply, token and records are those of `VerifyEmail` |
| LoginHandler.EffectiveRole | app.js:218 | `role || 'user'`: never empty, a set role is kept |
| LoginHandler.FindByFirstname | app.js:190 | `findOne({ firstname })`: the first record with the name |
| LoginHandler.Login | app.js:179-252 | 400 for a missing field before any lookup; unknown name 401 "Invalid credentials"; the verified check before the password check; wrong password the same 401 message; on success the token claims and the user view carry the same effective role |
| LoginHandler.UnknownUserLooksLikeWrongPassword | app.js:190-210 | an unknown name and a wrong password on a verified account get identical replies |
| AccountLifecycle.SignedUpAndVerified | routes/signRoute.js:40-129 | signup then in-time verification appends exactly one verified record with OTP cleared |
| AccountLifecycle.LoginBeforeVerifyRefused | app.js:198-203 | before verification, login is refused with "Please verify your email first" |
| AccountLifecycle.PlaintextSignupCannotLogIn | routes/signRoute.js:40-46 | as written, a verified account whose plain password was stored cannot log in with it |
| AccountLifecycle.HashedSignupCanLogIn | app.js:205-243 | with the hash stored, the verified account logs in, with role "user" |
| AccountLifecycle.LoginFindsNewAccount | app.js:190 | login by first name finds the appended account |
| AuthMiddleware.BearerToken | middleware/authMiddleware.js:12-13 | the token is the non-empty second space-separated field of the header; none exactly when the header is absent or that field is missing or empty |
| AuthMiddleware.Authenticate | middleware/authMiddleware.js:4-31 | session proceeds untouched; no token 401; verification failure 403; otherwise proceeds with the decoded payload as the user |
| AuthMiddleware.BearerTokenOfWellFormedHeader | middleware/authMiddleware.js:12-13 | `<scheme> <token>` yields exactly the token |
| AuthMiddleware.NoSpaceNoToken | middleware/authMiddleware.js:13-20 | a header without a space, such as `Bearer`, carries no token |
| AuthMiddleware.SessionIgnoresHeader | middleware/authMiddleware.js:7-9 | an authenticated session decides whatever the header and the verifier |
| ProductRoutes.LowerAscii | routes/productRoutes.js:173 | `toLowerCase` on ASCII: same length, each letter lowered |
| ProductRoutes.DashRuns | routes/productRoutes.js:174 | the output has only [a-z0-9-] with no doubled dash |
| ProductRoutes.SlugIsWellFormed | routes/productRoutes.js:172-176 | every slug has only [a-z0-9-], no dash at either end, no two dashes in a row |
| ProductRoutes.SlugKeepsLettersAndDigits | routes/productRoutes.js:172-176 | the slug keeps exactly the letters and digits of the lower-cased title, in order |
| ProductRoutes.CollapseIdentity | routes/productRoutes.js:176 | on a string without doubled dashes the last replace changes nothing |
| ProductRoutes.SlugOfSlug | routes/productRoutes.js:172-176 | a well-formed slug is its own slug |
| ProductRoutes.SlugIdempotent | routes/productRoutes.js:172-176 | slugging a slug returns it unchanged |
| ProductRoutes.EscapeRegex | routes/productRoutes.js:183 | a character outside the special set occurs in the output exactly when it occurs in the input; the output is at least as long as the input |
| ProductRoutes.UnescapeEscape | routes/productRoutes.js:183 | reading the escaped text back gives the title |
| ProductRoutes.EscapeIsLiteral | routes/productRoutes.js:183 | every special character of the output follows a backslash, every other character is copied |
| ProductRoutes.TitlePattern | routes/productRoutes.js:183 | the pattern is `^`, the escaped title, `$` |
| ProductRoutes.ListField | routes/productRoutes.js:80-81 | an array is kept, a string becomes comma-free pieces, an absent field fails |
| ProductRoutes.ListFieldOfText | routes/productRoutes.js:80-81 | the pieces joined with commas give the submitted text |
| ProductRoutes.PageNumber | routes/productRoutes.js:129 | NaN and 0 fall back to page 1, any other parse is kept |
| ProductRoutes.TotalPages | routes/productRoutes.js:154 | the least page count of 100 covering the total |
| ProductRoutes.Paginate | routes/productRoutes.js:129-155 | skip = (page - 1) * 100, totalPages = ceil(total / 100), hasMore iff skip + returned < total |
| ProductRoutes.PageSize | routes/productRoutes.js:144-146 | the database returns at most 100 products after skipping, none past the end |
| ProductRoutes.HasMoreIffBeforeLastPage | routes/productRoutes.js:129-155 | with a full window returned, hasMore holds exactly before the last page |
| ProductRoutes.FindByTitle | routes/productRoutes.js:179-185 | the first product matching the slug, the exact title or the title up to case; none exactly when none matches |
| ProductRoutes.Backfilled | routes/productRoutes.js:196-199 | the slug is written only when missing; a present slug is left alone |
| ProductRoutes.SecondLookupIsStable | routes/productRoutes.js:179-199 | after a lookup has backfilled the found product, looking the same title up again finds the same product and writes nothing more |
| ProductRoutes.ProductStore.LookupByTitle | routes/productRoutes.js:166-209 | 404 with the searched title and no change when nothing matches; otherwise the found product, backfilled in place, and no other product changes |
| SlidesController.Validate | slidesController.js:25-34 | passes iff slides are given, non-empty and all have text and an order (0 accepted); otherwise the matching 400 |
| SlidesController.OneInvalidRejectsAll | slidesController.js:29-34 | one invalid slide anywhere rejects the upload |
| SlidesController.PermutationKeepsValid | slidesController.js:36 | reordering keeps every slide valid |
| SlidesController.InsertDown | slidesController.js:36 | one insertion step extends the sorted prefix and permutes the array |
| SlidesController.SortSlides | slidesController.js:36 | the request array is sorted by ascending order and is a permutation of the input |
| SlidesController.GetSlides | slidesController.js:52-65 | 404 "No slides found" iff no document; otherwise the last document's slides |
| SlidesController.GetSlidesAfterUpload | slidesController.js:38-60 | after an upload, get-slides answers with that upload |
| SlidesController.SlideStore.UploadSlides | slidesController.js:20-49 | on the 400 paths nothing is sorted or stored; otherwise the sorted permutation is appended as a new document and 200 is returned |
| ImageSlider.UpperCaseRefused | imageSlider.js:27 | the filter is case-sensitive: `photo.JPG` is refused |
| ImageSlider.ExtName | imageSlider.js:19 | `path.extname`: empty, or a single leading dot with no slash, and a suffix of the path |
| ImageSlider.ExtNameOfPlainName | imageSlider.js:19 | a slash-free name whose dot is preceded by something has that suffix as extension |
| ImageSlider.DotFileHasNoExtension | imageSlider.js:19 | `.png` has no extension |
| ImageSlider.StoredFilename | imageSlider.js:17-20 | the stored name ends with the original's extension |
| ImageSlider.StoredFilenameKeepsExtension | imageSlider.js:17-20 | the stored name's extension is the original's |
| ImageSlider.AcceptedExtension | imageSlider.js:27-30 | an accepted name with an extension has one of the five image extensions |
| ImageSlider.StoredNameAccepted | imageSlider.js:17-30 | an accepted name with an extension is stored under an accepted name |
| ImageSlider.BareExtensionStoredWithout | imageSlider.js:17-30 | `.png` passes the filter but is stored without an extension |
| ImageSlider.SlidesFor | imageSlider.js:41-44 | one slide per file, in order, with order i + 1 and the URL ending in the stored filename |
| ImageSlider.SlidesForRoundTrip | imageSlider.js:42 | stripping `/uploads/slider/` gives the stored filenames back |
| ImageSlider.FirstRefused | imageSlider.js:23-35 | the first file past the tenth or refused by the filter; none iff every file passes |
| ImageSlider.AllAdmitted | imageSlider.js:23-35 | every file passes iff at most ten files, all image names |
| ImageSlider.FirstRefusedReason | imageSlider.js:23-35 | a refusal past the tenth file comes after ten image names; an earlier one is a non-image |
| ImageSlider.UploadImageSlides | imageSlider.js:35-57 | no file is 400; a non-image among the first ten is a 500 from the default error handler (the filter's "Only image files are allowed!"); eleven images are a 500 from the default error handler (multer's "Unexpected field"); otherwise every file becomes a slide numbered from 1 |
| Shiprocket.SubTotal | routes/shiprocketRoutes.js:60 | a number exactly when price and quantity both parse |
| Shiprocket.OrderIdFor | routes/shiprocketRoutes.js:34 | the caller's id when truthy, otherwise an id starting `WF-` |
| Shiprocket.GeneratedIdCarriesClock | routes/shiprocketRoutes.js:34 | a generated id carries the clock reading after `WF-` |
| Shiprocket.OrderDate | routes/shiprocketRoutes.js:35 | the date part contains no `T` |
| Shiprocket.OrderDateOfTimestamp | routes/shiprocketRoutes.js:35 | `<date>T<time>` gives `<date>` |
| Shiprocket.ItemFor | routes/shiprocketRoutes.js:48-58 | the one item: title, parsed units and price, discount 0, tax 18, hsn 621710, sku from the product id or the clock |
| Shiprocket.BuildOrder | routes/shiprocketRoutes.js:33-65 | COD iff `paymentMethod === 'COD'`, else Prepaid; last name defaults to NA; name, address, city, pincode, state, e-mail and phone copied; pickup "Home", channel "5794009"; country India; shipping is billing; exactly one item; dimensions 10/5/2/0.5 |
| Shiprocket.SubTotalMatchesItem | routes/shiprocketRoutes.js:52-60 | the sub-total is the sole item's selling price times its units |
| Shiprocket.PaymentMethodOnlyFromFlag | routes/shiprocketRoutes.js:59 | only the COD flag decides the payment method |
| Shiprocket.CreateOrder | routes/shiprocketRoutes.js:25-90 | a login failure is 500 with no order submitted; a missing body or product submits nothing; otherwise the built order is submitted and the courier's answer or error message (default "Failed to create Shiprocket order") is returned |
| Cashfree.Render | cashfree.js:27 | interpolating `undefined` gives the text "undefined" |
| Cashfree.OrderPayload | cashfree.js:13-28 | id `ORDER-<now>`, currency INR, customer id is the phone, note `title x quantity`, the two callback URLs |
| Cashfree.OrderIdsDistinct | cashfree.js:14 | distinct clock readings give distinct order ids |
| Cashfree.CreateOrder | cashfree.js:9-54 | a missing customer or product, or a gateway failure, is 500 "Order creation failed"; otherwise only the payment link is returned |
| Cashfree.OnlyPaymentLinkReturned | cashfree.js:44-46 | gateway replies agreeing on the link give the same answer |
| Cashfree.VerifyPayment | cashfree.js:57-81 | success iff the gateway says PAID; otherwise "Payment not completed", or 500 when the lookup fails |
| Cashfree.DispatchFor | cashfree.js:102-113 | paid and failed events take their branches with the order id; every other event is unhandled |
| Cashfree.Webhook | cashfree.js:84-120 | no secret is 500; a missing or different signature is 400 with nothing dispatched; a dispatch always comes with 200 |
| Cashfree.WebhookAcceptedIff | cashfree.js:87-115 | 200 iff the secret is set, the signature equals the HMAC of the serialised body and the body has an order, for any event; 200 iff dispatched |
| Cashfree.EventDoesNotDecideStatus | cashfree.js:87-115 | two correctly signed bodies with the same order get the same reply whatever their events: 200 iff the order is present |

## Left out

- Concurrency: each handler is modelled as one atomic step, as if requests were handled one at a time. Three handlers await between their check and their write, and three properties hold only for requests that do not overlap:
  - PasswordReset.ResetOtpSingleUse: `/api/verify-otp1` checks the entry (routes/authRoutes.js:59-61), then awaits `bcrypt.hash` and `findOneAndUpdate` (:74-78) before the delete (:82). Two overlapping requests with the right OTP both reset the password.
  - SignRoute.SignupKeepsEmailsUnique: `/signup` awaits `findOne` (routes/signRoute.js:27) and then `save` (:48), and `models/signupModel.js` declares no unique index. Two overlapping signups for one address both insert.
  - SignRoute.ReplayFails: `/verify-otp` awaits between `findOne` (:112) and `save` (:129). Two overlapping verifications with the same OTP both succeed.
  - The payment OTP handlers of routes/paymentRoutes.js do not await between check and delete, so the PaymentOtp properties are not affected.
- E-mail composition and delivery. Only the send outcome is a parameter, where it changes the reply.
- Mongoose strict mode. `models/signupModel.js` declares no `firstname`, `isVerified` or `otpExpiry`, and strict mode would drop them on save. The route logic is modelled as written, with those fields stored.
- ProductRoutes.Backfilled, ProductRoutes.SecondLookupIsStable, ProductRoutes.ProductStore.LookupByTitle: `models/productModel.js` declares no `slug` path, and strict mode is not turned off anywhere. In the running program `product.slug` therefore reads as undefined, the backfill at routes/productRoutes.js:196-199 saves nothing, and the `{ slug: searchSlug }` clause never matches a stored slug. Under Mongoose 6's default `strictQuery`, that clause is even stripped to `{}`, which matches every product. These members model the route as its text assumes, with a `slug` field that is stored and queried. The model does not capture that the slug is dropped or that the query is stripped. For example, after a lookup of "Red Shirt", a lookup of "red--shirt!" finds that product in the model but is 404 in the program.
- ProductRoutes.ProductStore.LookupByTitle: routes/productRoutes.js:168 calls `decodeURIComponent` on `req.params.title`, which Express has already decoded. A title containing `%` that is not a valid escape, such as `/title/100%25%20cotton`, makes the second decode throw, and the `catch` answers 500 "Server error". A title containing a literal `%20` is decoded twice. The method takes the title after both decodes, so it has neither the throwing path nor the double decoding.
- The 500 replies of the `catch` blocks for database failures: "Registration failed", "Login failed", "Failed to verify OTP", "Server error", "Error fetching products" and "Error saving product". The model has no failing database.
- PasswordReset.SendOtp: a request with no `email` is looked up as the empty address. How Mongo matches an `undefined` filter value is not modelled.
- LoginHandler.Login: `bcrypt.compare` is a boolean oracle, and its rejection on a malformed stored value, which reaches the 500 path, is not modelled.
- AuthMiddleware.Authenticate: the outer 500 "Authentication error", raised when `req.isAuthenticated` itself throws, is not modelled. `generateRandomSecretKey` is undefined in that file, so without `JWT_SECRET` every `jwt.verify` attempt throws into the 403 branch. That is a `verify` oracle that always answers `None`.
- ProductRoutes.LowerAscii: Unicode case mapping of `toLowerCase` is restricted to ASCII.
- ProductRoutes.FindByTitle: the case-insensitive regular-expression match is modelled as equality after ASCII lower-casing. Regex-engine details, such as `$` matching before a final newline, are not modelled.
- ProductRoutes.Paginate: negative page numbers are passed to the database as a negative skip, which the database rejects. The model only computes the numbers.
- The rest of `routes/productRoutes.js` is not modelled: create/update/delete, search by `$regex`, image paths. It is database CRUD.
- SlidesController.SortSlides: orders are integers. Non-numeric orders and NaN comparisons are not modelled, and stability of `Array.prototype.sort` is not stated.
- ImageSlider.UploadImageSlides: the two multer errors reach Express's default error handler, because the JSON error middleware of app.js:166 is registered before the routes (app.js:255-268). The reply is a 500 error page, and the model keeps only the status and the error's message text. Multer's 5 MB size limit, files under a field other than `images`, and the directory creation are not modelled.
- GET `/get-image-slides` of `imageSlider.js` is not modelled. It is a single database read with no logic of its own.
- Shiprocket.BuildOrder: the two `Date.now()` readings in the literal are taken as one. The random id part (`Math.random().toString(36)`) is a parameter. Prices are `real`, without IEEE rounding. The engine's `TypeError` text for a missing body or product is not modelled.
- Cashfree.CreateOrder: the `details` field of the 500 reply, which holds the gateway's or engine's error text, is not modelled.
- The processing-key idempotency guard, the verify-then-ship flow and cancel/return transitions are not modelled. No code for them exists in the sources, and nothing reads or writes `models/ProcessedOrder.js` or `models/OrderTracker.js`.
- Server setup, sessions, Google OAuth, `routes/userRoutes.js`, `routes/messageRoutes.js`, `routes/reviewRoutes.js`, `routes/slideRoutes.js`, `payment/cashfreepayment.js`, `paymentdone.js` and `utils/generateToken.js` are not part of this model. They are framework configuration, I/O, or CRUD without logic of their own.

## Findings

| source | as written | input that shows it | evidently intended | confidence | as-written member | corrected member |
|---|---|---|---|---|---|---|
| routes/signRoute.js:43 | `/signup` stores the submitted `password` itself, while login (app.js:205) checks it with `bcrypt.compare(password, user.password)`, which only accepts a bcrypt hash of the password | signup `{firstname: "asha", email: "a@x.in", password: "secret1"}`, then `/verify-otp` with the mailed OTP, then login `{firstname: "asha", password: "secret1"}`: `bcrypt.compare("secret1", "secret1")` is false, so the reply is 401 "Invalid credentials" | store `bcrypt.hash(password)` at signup, as the password-reset route does (routes/authRoutes.js:74), so the verified account can log in | high (not executed) | AccountLifecycle.PlaintextSignupCannotLogIn | AccountLifecycle.HashedSignupCanLogIn |
