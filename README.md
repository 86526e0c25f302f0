# Smart Cane backend: a verified model of its request handlers

The Smart Cane backend is a Flask service for guardians who look after visually
impaired people (VIPs) who use a connected cane. This project is a Dafny model of
its request-handling core, with proofs about that model:

- **Authentication** (`app/routes/auth.py`):
  - credential checks and registration;
  - login with an escalating lockout kept in a ledger of failed attempts;
  - one-time codes (OTPs) kept in a ledger: issuance with an hourly rate limit per
    (email, purpose), verification, e-mail change, and the password-reset flow.
- **Guardian profiles** (`app/routes/guardian.py`): listing a VIP's guardians,
  reading a profile, and self-only profile updates with uniqueness guards.
- **Device links** (`app/routes/device_guardian.py`, `app/routes/device_pairing.py`):
  - assigning guardians to canes, listing the links and removing them;
  - pairing tokens;
  - pairing, which creates the cane's VIP on first use.
- **Note reminders** (`app/routes/reminders.py`):
  - creation behind the "has a paired device" gate;
  - the caller's paginated, newest-first listing;
  - owner-only partial update and delete.
- **Helpers** (`app/utils/responses.py`, `app/utils/serializer.py`):
  - the response envelopes and snake_case to camelCase key renaming;
  - the pagination block;
  - the `model_to_dict` serialiser.

## Layout

- `common.dfy` (`Common`): optional values, request bodies, handler replies, and the
  sequence queries every table lookup is built from (`.first()`, `.filter().all()`).
- `store.dfy` (`Store`): the rows and the `Database` class. It holds one sequence per
  table plus the next autoincrement keys. `Valid()` states the keys and unique
  constraints of every table.
- `lockout.dfy` (`Lockout`): `get_login_block_info` and the purge a successful login
  performs.
- `otp.dfy` (`OtpPolicy`): code generation, the rate limit, and the two rules that pick
  the OTP record a verification checks.
- `auth.dfy`, `guardian.dfy`, `device_guardian.dfy`, `device_pairing.dfy` and
  `reminders.dfy` hold the route handlers.
- `responses.dfy` (`Responses`) and `serializer.dfy` (`Serializer`) hold the helpers.

Each handler is a method on a `Database`. Its `modifies` clause names the tables it
may write. Its `ensures` clause gives the reply and the new contents of those tables
for every branch the route takes, in the route's order. The signed-in guardian (the
JWT identity) is an `identity` parameter. Time is integer seconds, passed as `now`.
`GetGuardiansByVip`, `GetGuardian`, `ListAssignments` and `Login` return the `data` the
route hands to `success_response`, before `_camelize` renames its keys; what that
renaming does is stated once, by `Responses.SuccessEnvelope`. `GetReminders` returns the
whole camelised envelope, because its pagination block is built by the helper.

Random draws are parameters constrained to their ranges:
- the six digits of `generate_otp`;
- the number behind a password-reset code;
- the pairing token.

The outcome of sending mail is a `delivered` parameter.

Behaviour the model keeps as written:

- `reset_forgot_password` sets the password of any registered e-mail without
  consulting the OTP ledger.
- `remove_assignment` lets any signed-in guardian remove any link.
- `get_guardian` lets any signed-in guardian read any profile.
- `send_otp` and `request_email_change` commit the new code before mailing it, so a
  failed delivery leaves the code stored.

Three points where the code behaves otherwise than one might expect, kept as written:

- **Failed logins.** `get_login_block_info` allows every attempt while at most three
  failures are recent. After three failures the fourth attempt is still allowed, and
  the lockout starts after the fourth failure (`Lockout.ThreeFailuresAllowed`,
  `Lockout.FourthFailureLocks`). A three-strike lockout would refuse the fourth attempt;
  `get_login_block_info` refuses only after four failures.
- **OTP lifetime.** `send_otp` gives every code a 10-minute lifetime, whatever its
  purpose. Only `forgot_password_request` issues 5-minute codes.
- **Delivery failure.** A failed delivery answers 500 without removing the stored
  code.

`app/models.py` lacks several columns the routes use. The model follows the routes:

- `OTP.purpose`;
- the `LoginAttempt` table;
- `Guardian.village` and `Guardian.vip_id`, placed after `barangay` and after `role`
  respectively (an assumption that decides the key order of the login profile);
- `Device.pairing_token` and its expiry;
- a nullable `Device.vip_id`, which `pair_device` tests for.

## Model

| member | source | states |
|---|---|---|
| Common.FirstIndex | app/routes/auth.py:35 | `.first()` in table order: the index of the first row passing the filter, None exactly when no row passes, and no earlier row passes |
| Common.Filter | app/routes/guardian.py:18 | the definition of `.filter(...).all()`: it keeps table order and never adds rows; which rows it keeps is stated by `FilterMembers` |
| Common.FilterMembers | app/routes/guardian.py:18 | `.filter(...).all()` holds exactly the rows of the table that pass the filter |
| Common.Decimal | app/routes/auth.py:610 | `str(n)` is a non-empty string of decimal digits |
| Common.DecimalRoundTrip | app/routes/auth.py:610 | reading back `str(n)` as a number gives `n` |
| Store.Hash | app/models.py:64-68 | `set_password` stores a hash determined by the password, so `check_password` accepts exactly that password (stand-in for bcrypt; see Left out) |
| Store.GuardianWithId | app/utils/auth.py:14-18 | `Guardian.query.get(id)`: the row with that id, None exactly when no row has it |
| Store.GuardianWithUsername | app/routes/auth.py:81 | the row with that username, None exactly when none has it |
| Store.GuardianWithEmail | app/routes/auth.py:83 | the row with that e-mail, None exactly when none has it |
| Store.GuardianWithContact | app/routes/auth.py:45 | the row with that contact number, None exactly when none has it |
| Store.DeviceWithId | app/routes/device_guardian.py:28-30 | the device with that id, None exactly when none has it |
| Store.DeviceWithSerial | app/routes/device_pairing.py:62-64 | the device with that serial number, None exactly when none has it |
| Store.LinkWithId | app/routes/device_guardian.py:94-96 | the link with that id, None exactly when none has it |
| Store.LinkFor | app/routes/device_guardian.py:36-38 | the link for that (device, guardian) pair, None exactly when the pair is not linked |
| Store.ReminderWithId | app/routes/reminders.py:87-90 | the reminder with that id, None exactly when none has it |
| Store.ResolveDevice | app/routes/device_guardian.py:19-30 | neither a truthy id nor a truthy serial means no key; a truthy id is looked up by id, otherwise the serial by serial; a miss means an unknown device |
| Store.Database.constructor | app/models.py:40-117 | the tables start empty apart from the given canes, every counter starts at 1, and the constraints hold |
| Store.AddGuardianOk | app/models.py:44-49 | a new guardian with the next id and an unused username and e-mail keeps ids, usernames and e-mails unique |
| Store.SetEmailOk | app/routes/auth.py:560-565 | giving a guardian an e-mail no other guardian holds keeps e-mails unique |
| Store.SetPasswordOk | app/routes/auth.py:690 | replacing a password hash keeps the guardian table well formed |
| Store.AddLinkOk | app/models.py:85-91 | a link with the next id for a pair not yet linked keeps link ids and (device, guardian) pairs unique |
| Store.AssignedOnce | app/routes/device_guardian.py:36-42 | after inserting a link for an unlinked pair, that pair is linked exactly once (by the new row) and the guardian has a device |
| Store.AttachVipOk | app/routes/device_pairing.py:78-85 | a new VIP with the next id, attached to a device, keeps VIP ids unique and every device's VIP stored |
| Store.Database.AddLink | app/routes/device_guardian.py:40-42 | inserts exactly one link under the next link id and keeps the tables valid |
| Store.Database.AttachNewVip | app/routes/device_pairing.py:78-85 | appends exactly one VIP under the next VIP id, sets only that device's `vip_id` to it, and keeps the tables valid |
| Store.RemoveAt | app/routes/device_guardian.py:98-99 | deleting a row leaves the other rows in their order |
| Store.RemoveAtKeepsOthers | app/routes/reminders.py:124-125 | a row survives a deletion exactly when it is held at another position |
| Lockout.Matches | app/routes/auth.py:119-120 | the definition of the attempt filter (same username OR same address); its meaning over the ledger is stated by `Recent` and `Purge` |
| Lockout.Recent | app/routes/auth.py:119-122 | the counted attempts are exactly those matching the username OR the address made in the last 30 minutes |
| Lockout.Latest | app/routes/auth.py:133 | the time of the latest counted attempt: one of their times, and none is later |
| Lockout.LockoutFor | app/routes/auth.py:130-131 | the lockout for a count above three is an entry of [60, 180, 600, 1800] |
| Lockout.LoginBlockInfo | app/routes/auth.py:114-146 | allowed exactly when `retry_after` is 0; at most 3 attempts remain; attempts remaining imply allowed |
| Lockout.Purge | app/routes/auth.py:176-181 | the purge keeps exactly the attempts matching neither the username nor the address, whatever their age |
| Lockout.FreeAttemptsAllowed | app/routes/auth.py:124-128 | with N ≤ 3 counted attempts: allowed, `3 − N` remaining, no wait |
| Lockout.LockedOutAttempts | app/routes/auth.py:130-145 | with N > 3: none remaining; allowed exactly when the lockout since the latest attempt has passed; otherwise `now + retry_after` is its end |
| Lockout.RetryAfterBounded | app/routes/auth.py:137 | when no attempt lies in the future, `retry_after` never exceeds the lockout |
| Lockout.LockoutMonotone | app/routes/auth.py:130-131 | more counted attempts never shorten the lockout |
| Lockout.LockoutPlateau | app/routes/auth.py:130-131 | from the seventh counted attempt on, the lockout is 1800 seconds |
| Lockout.FailureCounts | app/routes/auth.py:170-173 | recording a failure adds exactly one counted attempt for that username and address |
| Lockout.PurgeResets | app/routes/auth.py:176-182 | after a successful login's purge, the user has three free attempts again |
| Lockout.PurgeCount | app/routes/auth.py:176-181 | the purge removes exactly the matching attempts, as many as match |
| Lockout.ThreeFailuresAllowed | app/routes/auth.py:124-128 | after three failures within the window the next attempt is allowed, with none remaining |
| Lockout.FourthFailureLocks | app/routes/auth.py:130-139 | after four failures the user is locked out for 60 seconds from the latest one |
| OtpPolicy.GenerateOtp | app/routes/auth.py:370-372 | the code is six decimal digits, digit i being draw i |
| OtpPolicy.ResetCode | app/routes/auth.py:610 | the definition of the reset code `str(randint(100000, 999999))`; `ResetCodeShape` states it is six digits that read back as the draw |
| OtpPolicy.ResetCodeShape | app/routes/auth.py:610 | a password-reset code is six digits and reads back as the drawn number in [100000, 999999] |
| OtpPolicy.RecentOtpCount | app/routes/auth.py:374-383 | the rate limit counts only records of the ledger: at most its length (which records count is stated by the three lemmas below) |
| OtpPolicy.RateOk | app/routes/auth.py:374-385 | the definition of the `recent_otps < 3` verdict; its behaviour is stated by `NothingIssuedAllowed`, `IssueCounts`, `ExpiredIssuesAllowed` and `FourthIssueRefused` |
| OtpPolicy.NothingIssuedAllowed | app/routes/auth.py:374-385 | with no records, nothing counts and a request is allowed |
| OtpPolicy.IssueCounts | app/routes/auth.py:378-383 | storing a record adds one to the count of (email, purpose) exactly when it has that e-mail and purpose and was created no more than an hour before `now`; any other record adds nothing |
| OtpPolicy.NoRecentIssueCountsZero | app/routes/auth.py:378-385 | the count is zero exactly when no record for (email, purpose) was created within the hour |
| OtpPolicy.ExpiredIssuesAllowed | app/routes/auth.py:378-385 | records older than an hour stop counting: when every record for the pair predates the window, a request is allowed |
| OtpPolicy.FourthIssueRefused | app/routes/auth.py:374-385 | three codes within the hour refuse a fourth for that (email, purpose) and leave every other purpose's allowance unchanged |
| OtpPolicy.NewestUnused | app/routes/auth.py:443-447 | the selected record is an unused one for (email, purpose) created no earlier than any other such record; None exactly when there is none |
| OtpPolicy.FirstWithCode | app/routes/auth.py:547-552 | an unused record for (email, purpose) holding that code, whatever its age (the query has no order, so which one is left open); None exactly when there is none |
| OtpPolicy.MarkUsed | app/routes/auth.py:458-459 | marks only that record used at `now`; its other fields and all other records are unchanged |
| OtpPolicy.MarkUsedKeepsOk | app/routes/auth.py:458-459 | `is_used` and `used_at` stay in agreement across the ledger |
| OtpPolicy.ReplayRejected | app/routes/auth.py:443-460 | after a successful verification the same record is never selected again; if it was the only candidate, nothing is selected ("not found") |
| OtpPolicy.ReplayRejectedWithCode | app/routes/auth.py:644-664 | a record used by a code-matching verification is not selected again by the same code |
| OtpPolicy.NewestIssueSelected | app/routes/auth.py:443-447 | a code issued after every other one is the one `verify_otp` selects |
| AuthRoutes.FirstMissing | app/routes/auth.py:77-79 | the first required field that is missing, null or empty; None exactly when all are present |
| AuthRoutes.CheckRequired | app/routes/auth.py:77-79 | the loop over the required fields returns the first missing one |
| AuthRoutes.CheckCredentials | app/routes/auth.py:29-52 | 200 exactly when none of the given username, e-mail and contact number is taken; otherwise 400 naming the username if it is taken, else the e-mail if it is taken, else the contact number |
| AuthRoutes.NewGuardian | app/routes/auth.py:86-100 | the definition of the row `register` adds; `RegisteredCanLogIn` states that it authenticates with the registered credentials and `Register` that it is stored under the next id |
| AuthRoutes.Register | app/routes/auth.py:59-108 | 400 for the first missing field, then for a taken username, then for a taken e-mail, with nothing stored; otherwise 201 with the new id and exactly one guardian appended |
| AuthRoutes.RegisteredCanLogIn | app/routes/auth.py:86-102 | a guardian just registered authenticates with the username and password it registered with |
| AuthRoutes.CheckedCredentialsRegister | app/routes/auth.py:34-42 | credentials `check_credentials` accepts are not refused by `register` as taken |
| AuthRoutes.GuardianColumnsOk | app/models.py:44-58 | a stored guardian's columns have distinct names and representable times |
| AuthRoutes.LoginProfile | app/routes/auth.py:184-204 | the definition of the login profile; `LoginProfileKeys` states its exact key set, without the password |
| AuthRoutes.LoginFieldsKept | app/routes/auth.py:193-200 | the serialiser keeps exactly the fields the login includes |
| AuthRoutes.LoginFieldsAreColumns | app/routes/auth.py:195-199 | every field the login includes is a column of the guardian table |
| AuthRoutes.LoginProfileKeys | app/routes/auth.py:193-205 | the login profile holds exactly the included fields and `device_registered`, and never the password hash |
| AuthRoutes.Login | app/routes/auth.py:150-205 | 400 and 429 leave the ledger unchanged; bad credentials append exactly one attempt; success purges every attempt matching the username or the address and returns the profile |
| AuthRoutes.PurposeOf | app/routes/auth.py:392 | the definition of `data.get('purpose', 'general')`; `SendOtp` and `VerifyOtp` state its use as the rate-limit and lookup key |
| AuthRoutes.SendOtp | app/routes/auth.py:387-425 | 400 and 429 store nothing; otherwise exactly one unused 6-digit code with a 10-minute lifetime is appended, and the reply follows delivery |
| AuthRoutes.VerifyOtp | app/routes/auth.py:431-465 | the newest unused record for (email, purpose) is checked for expiry before the code; any refusal leaves the ledger unchanged; a match marks only that record used |
| AuthRoutes.SentCodeVerifies | app/routes/auth.py:400-460 | a code just sent, checked within its lifetime and not superseded, is selected, unexpired and equal to the sent code |
| AuthRoutes.EmailHeldByOtherMeans | app/routes/auth.py:489-491 | with unique ids and e-mails, the e-mail check refuses exactly when another guardian holds the address |
| AuthRoutes.RequestEmailChange | app/routes/auth.py:472-522 | 400 / 404 / 400 (address taken by another guardian) / 429 store nothing; otherwise exactly one e-mail-change code is appended |
| AuthRoutes.VerifyEmailChange | app/routes/auth.py:529-576 | missing input, unknown caller, no matching code, an expired code or an address taken by another guardian change nothing; otherwise only the caller's e-mail changes and only that record is marked used |
| AuthRoutes.ChangedEmailFindsGuardian | app/routes/auth.py:564-570 | after the change, the new address finds the guardian that changed it |
| AuthRoutes.ForgotPasswordRequest | app/routes/auth.py:597-628 | 400 / 404 store nothing; otherwise exactly one password-reset code with a 5-minute lifetime is appended, with no rate limit |
| AuthRoutes.VerifyForgotPasswordOtp | app/routes/auth.py:634-669 | the first unused reset record with that code is checked for expiry; refusals change nothing; a match marks only that record used |
| AuthRoutes.ResetCodeLifetime | app/routes/auth.py:610-660 | a fresh reset code is the one selected, and it counts as expired exactly after 300 seconds |
| AuthRoutes.ResetForgotPassword | app/routes/auth.py:675-696 | 400 / 404 change nothing; otherwise only that guardian's password hash changes, with no OTP consulted |
| AuthRoutes.NewPasswordLogsIn | app/routes/auth.py:685-691 | after a reset the guardian authenticates with the new password and with no other |
| GuardianRoutes.GuardianSummary | app/routes/guardian.py:22-31 | the definition of a listing entry; `ViewsHidePassword` and `SummaryShowsId` state what it carries |
| GuardianRoutes.GuardianDetail | app/routes/guardian.py:47-60 | the definition of the profile; `ViewsHidePassword` and `DetailShowsEmail` state what it carries |
| GuardianRoutes.ViewsHidePassword | app/routes/guardian.py:20-60 | neither the listing entry nor the profile carries the password |
| GuardianRoutes.SummaryShowsId | app/routes/guardian.py:22-23 | the listing entry carries the guardian's id |
| GuardianRoutes.DetailShowsEmail | app/routes/guardian.py:47-51 | the profile carries the guardian's e-mail |
| GuardianRoutes.Summaries | app/routes/guardian.py:20-31 | the loop builds one entry per guardian, in order |
| GuardianRoutes.GetGuardiansByVip | app/routes/guardian.py:9-33 | 404 for an unknown caller; 400 without a truthy `vip_id`; otherwise exactly the guardians of that VIP, in table order, one entry each |
| GuardianRoutes.GetGuardian | app/routes/guardian.py:38-62 | 404 for an unknown caller or id; otherwise that guardian's profile |
| GuardianRoutes.SetField | app/routes/guardian.py:100 | `setattr` gives the field the request's value |
| GuardianRoutes.EditProfile | app/routes/guardian.py:93-100 | the whitelist loop's result is the edits of the fields the request names |
| GuardianRoutes.SetFieldOnly | app/routes/guardian.py:98-100 | setting one field leaves every other updatable field unchanged |
| GuardianRoutes.EditsTakeRequestValues | app/routes/guardian.py:98-100 | after the loop a field has the request's value when the request names it, and its old value otherwise |
| GuardianRoutes.EditsKeepIdentity | app/routes/guardian.py:93-100 | the loop never changes the id, username, password, role, VIP, relationship or creation time |
| GuardianRoutes.OtherWithEmail | app/routes/guardian.py:77-83 | None exactly when no guardian other than the given id holds the e-mail |
| GuardianRoutes.OtherWithUsername | app/routes/guardian.py:85-91 | None exactly when no guardian other than the given id holds the username |
| GuardianRoutes.UpdateGuardian | app/routes/guardian.py:67-107 | 404, 403 (another guardian's id), 400 (e-mail or username held by another) and 500 (the commit's e-mail constraints) change nothing; otherwise only the caller's row changes, as the edits and a truthy password say |
| GuardianRoutes.Updated | app/routes/guardian.py:98-103 | the definition of the row committed by an update; `UpdateEffect` and `UpdatedStaysOk` state its fields and that the constraints still hold |
| GuardianRoutes.UpdatedStaysOk | app/routes/guardian.py:77-105 | a committed update keeps ids, usernames and e-mails unique |
| GuardianRoutes.UpdateEffect | app/routes/guardian.py:93-103 | a successful update changes the fields the request names, keeps the others, and never changes the username or id, even when a new username is sent |
| GuardianRoutes.UpdateEmail | app/routes/guardian.py:98-100 | the e-mail committed is the request's when it names one, and the old one otherwise |
| DeviceGuardianRoutes.AssignGuardian | app/routes/device_guardian.py:10-44 | 404 / 400 (no device key) / 404 / 404 / 400 (pair already linked) change nothing; otherwise exactly one link for the pair is appended under the next id |
| DeviceGuardianRoutes.ListedLinks | app/routes/device_guardian.py:58-72 | by truthy `device_id` exactly the device's links; otherwise by truthy `guardian_id` the guardian's; otherwise none |
| DeviceGuardianRoutes.DeviceLinkEntry | app/routes/device_guardian.py:61-66 | the definition of an entry of a device's listing; `Entries` states one per link, in order |
| DeviceGuardianRoutes.GuardianLinkEntry | app/routes/device_guardian.py:74-79 | the definition of an entry of a guardian's listing; `Entries` states one per link, in order |
| DeviceGuardianRoutes.Entries | app/routes/device_guardian.py:60-81 | one entry per listed link, in order, of the device-side or guardian-side shape |
| DeviceGuardianRoutes.ListAssignments | app/routes/device_guardian.py:51-84 | 404 for an unknown caller; 400 with neither id; otherwise the entries of the listed links |
| DeviceGuardianRoutes.RemoveAssignment | app/routes/device_guardian.py:90-101 | 404 changes nothing; otherwise exactly the link with that id is deleted |
| DeviceGuardianRoutes.RemoveLinkOk | app/routes/device_guardian.py:98-99 | deleting a link keeps link ids and pairs unique |
| DeviceGuardianRoutes.RemovedLinkGone | app/routes/device_guardian.py:94-99 | after the deletion no link has that id, and every other link is still there |
| DevicePairingRoutes.GeneratePairingToken | app/routes/device_pairing.py:14-45 | 404 / 400 / 404 change nothing; otherwise only that device's token and expiry (now + 300 s) are overwritten |
| DevicePairingRoutes.TokenKeepsDevicesOk | app/routes/device_pairing.py:38-40 | storing a token keeps device ids, serial numbers and VIPs valid |
| DevicePairingRoutes.LatestTokenWins | app/routes/device_pairing.py:38-39 | issuing two tokens leaves only the second stored |
| DevicePairingRoutes.PlanPairing | app/routes/device_pairing.py:55-77 | a pairing goes ahead only for a known caller, a truthy serial of a known device, an unlinked pair, and either an existing VIP or a `vip_name`; a new VIP is created exactly when the device has none; refusals are 400 or 404 |
| DevicePairingRoutes.PairingOutcome | app/routes/device_pairing.py:73-91 | after pairing the caller is linked to the device exactly once and the device has a VIP: the one it had, or the new one |
| DevicePairingRoutes.PairDevice | app/routes/device_pairing.py:50-102 | refusals change nothing; a pairing appends exactly one (device, caller) link, and a VIP and the device's `vip_id` only when the device had none |
| ReminderRoutes.NewReminder | app/routes/reminders.py:22-28 | the reminder belongs to the caller and has the request's VIP, message and time; `is_active` defaults to true |
| ReminderRoutes.AddReminderOk | app/routes/reminders.py:30-31 | a reminder under the next id keeps reminder ids unique |
| ReminderRoutes.CreateReminder | app/routes/reminders.py:10-37 | 404, 403 (no paired device), 400 for the first missing field, and 500 (unknown VIP) store nothing; otherwise exactly one reminder is appended under the next id |
| ReminderRoutes.InsertNewestFirst | app/routes/reminders.py:56-57 | inserting into a newest-first list keeps it newest first and adds exactly that reminder |
| ReminderRoutes.ConsNewestFirst | app/routes/reminders.py:56-57 | a reminder at least as new as the head can go in front |
| ReminderRoutes.SortNewestFirst | app/routes/reminders.py:56-57 | `order_by(created_at.desc())` is newest first and a permutation |
| ReminderRoutes.PageArgs | app/routes/reminders.py:58-62 | a page below 1 is read as 1 and a page size below 1 as 20; valid values are kept |
| ReminderRoutes.PageOf | app/routes/reminders.py:58-62 | the page holds the items from `(page − 1) · per_page` on, in order: `per_page` of them, fewer on the last page, none past the end |
| ReminderRoutes.ReminderEntry | app/routes/reminders.py:66-74 | the definition of a reminder's entry; `ReminderEntries` and `ListEntries` state one per reminder, in order |
| ReminderRoutes.ReminderEntries | app/routes/reminders.py:64-74 | one entry per reminder on the page, in order |
| ReminderRoutes.ListEntries | app/routes/reminders.py:64-74 | the loop builds exactly those entries |
| ReminderRoutes.Listing | app/routes/reminders.py:51-57 | the definition of the filtered, ordered query; `ListingIsCallersNewestFirst` states that it holds exactly the caller's reminders, newest first |
| ReminderRoutes.Shown | app/routes/reminders.py:48-62 | the definition of the page shown; `PageIsCallersNewestFirst`, `PageWithin` and `PageKeepsOrder` state what it holds |
| ReminderRoutes.ListingIsCallersNewestFirst | app/routes/reminders.py:51-57 | the listing holds exactly the caller's reminders (for the VIP when one is given), newest first |
| ReminderRoutes.GetReminders | app/routes/reminders.py:43-78 | 404 for an unknown caller; 500 for a page size of 0; otherwise the requested page of the listing inside the pagination envelope, with the listing's size as the total |
| ReminderRoutes.PageKeepsOrder | app/routes/reminders.py:56-62 | a page of a newest-first listing is newest first |
| ReminderRoutes.PageWithin | app/routes/reminders.py:58-62 | a page holds only items of the listing |
| ReminderRoutes.PageIsCallersNewestFirst | app/routes/reminders.py:51-65 | every page shows only the caller's reminders, newest first |
| ReminderRoutes.Revised | app/routes/reminders.py:97-102 | `message` and `reminder_time` change only when truthy, `is_active` only when sent; nothing else changes |
| ReminderRoutes.EmptyUpdateIsIdentity | app/routes/reminders.py:97-102 | an update naming nothing leaves the reminder as it was |
| ReminderRoutes.ReviseReminderOk | app/routes/reminders.py:97-104 | an in-place update keeps reminder ids unique |
| ReminderRoutes.OwnedReminder | app/routes/reminders.py:87-93 | ownership holds exactly when the reminder exists and belongs to the caller; an unknown reminder is 404, another guardian's is 403 |
| ReminderRoutes.UpdateReminder | app/routes/reminders.py:83-106 | refusals change nothing; otherwise only that reminder changes, as `Revised` says |
| ReminderRoutes.RemoveReminderOk | app/routes/reminders.py:124-125 | deleting a reminder keeps ids unique |
| ReminderRoutes.DeleteReminder | app/routes/reminders.py:112-127 | refusals change nothing; otherwise exactly the owned reminder is deleted |
| ReminderRoutes.DeletedReminderGone | app/routes/reminders.py:124-125 | after the deletion no reminder has that id, and every other reminder is still there |
| ReminderRoutes.DeleteShrinksListing | app/routes/reminders.py:116-125 | a deletion shortens a listing by one exactly when the listing held the deleted reminder |
| Responses.PutGet | app/utils/responses.py:9 | after `d[k] = v`, `k` holds `v` and every other key keeps its value |
| Responses.PutDistinct | app/utils/responses.py:9 | assignment keeps the keys of a dict distinct |
| Responses.Split | app/utils/responses.py:6 | `split("_")` yields at least one part and no part contains `_` |
| Responses.SplitJoin | app/utils/responses.py:6 | joining the parts of a split with `_` gives the string back |
| Responses.JoinSplit | app/utils/responses.py:6 | splitting a join of `_`-free parts gives the parts back |
| Responses.Capitalize | app/utils/responses.py:7 | `capitalize`: the first character upper-cased, every other character lower-cased, the length kept |
| Responses.SnakeToCamel | app/utils/responses.py:5-7 | the definition of the key renaming; `SnakeToCamelSegments`, `SnakeToCamelFixed`, `SnakeToCamelNoUnderscore` and `SnakeToCamelIdempotent` state its meaning |
| Responses.SnakeToCamelSegments | app/utils/responses.py:5-7 | a key made of `_`-free segments becomes its first segment followed by each later segment capitalised |
| Responses.SnakeToCamelFixed | app/utils/responses.py:6-7 | a key without `_` is mapped to itself |
| Responses.SnakeToCamelNoUnderscore | app/utils/responses.py:5-7 | a renamed key contains no `_` |
| Responses.SnakeToCamelIdempotent | app/utils/responses.py:5-7 | renaming twice is renaming once |
| Responses.PerPageKey | app/utils/responses.py:42 | `per_page` is delivered as `perPage` |
| Responses.PaginationKeys | app/utils/responses.py:40-45 | the pagination keys come out as `page`, `perPage`, `total`, `pages` |
| Responses.SnakeToCamelDict | app/utils/responses.py:4-9 | the definition of `snake_to_camel_dict`; `RenameKeysGet`, `RenameKeysDistinct` and `SnakeToCamelDictFixed` state its content |
| Responses.RenameKeys | app/utils/responses.py:9 | the renamed dict has no more keys than the input |
| Responses.RenameKeysDistinct | app/utils/responses.py:9 | the renamed dict has distinct keys |
| Responses.LastRenamedTo | app/utils/responses.py:9 | a value exists exactly when some input key renames to the key |
| Responses.RenameKeysGet | app/utils/responses.py:9 | each renamed key holds the value of the last input entry renamed to it, untouched, and no other key is present |
| Responses.RenamedKeyOrigin | app/utils/responses.py:9 | every output key is the renaming of an input key |
| Responses.RenamedInOrder | app/utils/responses.py:9 | when the keys rename to distinct names, each entry keeps its place and value under its new name |
| Responses.SnakeToCamelDictFixed | app/utils/responses.py:9 | a dict already in camelCase with distinct keys is unchanged |
| Responses.Camelize | app/utils/responses.py:12-21 | the definition of `_camelize`; `CamelizeItemsAt` and `CamelizeIdempotent` state its meaning |
| Responses.CamelizeItems | app/utils/responses.py:17-20 | a camelised list has the same length and keeps its scalars |
| Responses.CamelizeItemsAt | app/utils/responses.py:17-20 | each element of a camelised list is the camelised element |
| Responses.CamelizeIdempotent | app/utils/responses.py:12-21 | camelising a camelised payload changes nothing |
| Responses.CamelizeItemsIdempotent | app/utils/responses.py:17-20 | the same for lists |
| Responses.SuccessResponse | app/utils/responses.py:24-26 | the definition of `success_response`; `SuccessEnvelope` states its exact body and status |
| Responses.ErrorResponse | app/utils/responses.py:29-36 | the definition of `error_response`; `ErrorEnvelope` states its exact body and status |
| Responses.SuccessEnvelope | app/utils/responses.py:24-26 | `{success: true, message, data: _camelize(data)}` and nothing else, sent with the given status |
| Responses.ErrorEnvelope | app/utils/responses.py:29-36 | `{success: false, error: status, message, details: _camelize(details)}` and nothing else, sent with that status |
| Responses.PageCount | app/utils/responses.py:44 | the definition of `(total + per_page - 1) // per_page`; `PageCountIsCeiling` states it is the ceiling of total / per_page |
| Responses.PageCountIsCeiling | app/utils/responses.py:44 | for a positive page size the page count is the ceiling of total / per_page: `pages · per_page ≥ total > (pages − 1) · per_page` |
| Responses.PaginatedResponse | app/utils/responses.py:39-50 | defined exactly for a non-zero page size (0 raises `ZeroDivisionError`) |
| Responses.PaginationBlockRenamed | app/utils/responses.py:40-49 | camelising the pagination block renames only `per_page`, keeping order and values |
| Responses.PaginatedResponseShape | app/utils/responses.py:39-50 | the body carries `success: true`, the camelised data, and `{page, perPage, total, pages}` with pages computed from total and per_page |
| Serializer.MonthDay | app/utils/serializer.py:17-18 | the month and day of a day of the year: a real date of that year, starting that many days after 1 January |
| Serializer.CivilFromOrdinal | app/utils/serializer.py:17-18 | the date `n` days after 0001-01-01 is a real date whose day count from 0001-01-01 is `n` |
| Serializer.YearsAdjoin | app/utils/serializer.py:17-18 | a year lasts 366 days when it is a leap year and 365 otherwise |
| Serializer.YearsInOrder | app/utils/serializer.py:17-18 | every year ends no later than any later year starts |
| Serializer.OrdinalInjective | app/utils/serializer.py:17-18 | two real dates with the same day count are the same date |
| Serializer.CivilRoundTrip | app/utils/serializer.py:17-18 | converting a real date to its day count and back gives the date |
| Serializer.IsoDate | app/utils/serializer.py:17-18 | `YYYY-MM-DD` reads back as the date it was made from |
| Serializer.IsoFormat | app/utils/serializer.py:17-18 | `isoformat()` is `YYYY-MM-DDTHH:MM:SS` with digits where digits belong, and its clock part reads back as the instant's second of the day |
| Serializer.IsoFormatDate | app/utils/serializer.py:17-18 | the date part of `isoformat()` reads back as the one real date whose day count from 0001-01-01 is the instant's day |
| Serializer.Convert | app/utils/serializer.py:17-20 | every value with `isoformat` becomes its ISO string: a datetime 19 characters, a date 10 (`YYYY-MM-DD`), a time of day 8 (`HH:MM:SS`); other values are copied |
| Serializer.ConvertNamesSameDay | app/utils/serializer.py:17-18 | a date's `isoformat()` is digits around its dashes and reads back as that same day |
| Serializer.ConvertNamesSameSecond | app/utils/serializer.py:17-18 | a time's `isoformat()` is digits around its colons and reads back as that same second of the day |
| Serializer.Exclusions | app/utils/serializer.py:5-7 | exactly `password`, `_sa_instance_state` and the fields in `exclude_fields` are excluded: those always, nothing else |
| Serializer.Serialize | app/utils/serializer.py:9-16 | the serialised dict has at most one entry per column |
| Serializer.SerializeKeys | app/utils/serializer.py:10-16 | a key is in the output exactly when it names a column that passes both filters |
| Serializer.SerializeHidesPassword | app/utils/serializer.py:5 | `password` and `_sa_instance_state` never appear, whatever `include_fields` says |
| Serializer.SerializeHonoursExclude | app/utils/serializer.py:6-13 | no field of `exclude_fields` appears |
| Serializer.SerializeHonoursInclude | app/utils/serializer.py:14-15 | with a non-empty `include_fields`, every output key is on it |
| Serializer.KeptColumns | app/utils/serializer.py:10-15 | the kept columns are exactly those passing both filters |
| Serializer.SerializeIsKeptColumns | app/utils/serializer.py:10-20 | every kept column appears once, in column order, under its name, with its value converted |
| Serializer.SerializeValue | app/utils/serializer.py:16-20 | with distinct column names, a kept column's key holds its converted value |
| Serializer.ModelToDict | app/utils/serializer.py:1-22 | None exactly for a missing row; otherwise the loop builds the serialised dict, which never holds the password |

## Left out

- JWT signing, cookies and the `logout`, `refresh`, `verify_token` and `get_profile`
  routes: library behaviour. The signed-in guardian is the `identity` parameter, and an
  invalid token (401) is not modelled.
- Password hashing: bcrypt is replaced by a hash that `check_password` compares
  exactly. Salting is foreign cryptography.
  bcrypt reads only the first 72 bytes of a password (recent releases refuse longer
  ones), so a longer password shares its hash with any password of the same 72-byte
  prefix; `Store.Hash` and the "no other password" half of
  `AuthRoutes.NewPasswordLogsIn` rest on the exact stand-in.
- Mail delivery is the `delivered` parameter. The repository's mail helpers return
  True on every path, so the 500 "failed to send" branch the model keeps is unreachable
  as the code stands.
- Randomness (`random.choices`, `random.randint`, `secrets.token_urlsafe`) becomes
  parameters constrained to their ranges.
- Time zones and sub-second precision: time is whole UTC seconds. `int()` truncation
  of `retry_after` and microseconds in `isoformat()` are therefore identities.
- `updated_at` columns: set by the database on every write, and never read by the
  modelled routes.
- `is_login_allowed`: never called.
- `vip.py`, `alerts.py` and `location.py`: CRUD routes outside this core.
- Bootstrapping: `__init__.py`, `run.py` and `init_db.py` are configuration and
  seeding.
- Concurrency: the race between counting attempts and inserting one, and transaction
  isolation in general.
- Exceptions other than those named in the table: a request body that is not a JSON
  object, string-typed ids, and a database failure. The handlers' generic 500 answer
  to these is not modelled.
- AuthRoutes.Login: the body's JWT cookies and claims are not modelled. Only the reply,
  the attempt ledger and the returned profile are.
- DevicePairingRoutes.GeneratePairingToken: the 201 body (the token and its ISO
  expiry) is not modelled. The token is a 32-character parameter.
- DevicePairingRoutes.PairDevice: the ids in the 201 body are not modelled.
- DeviceGuardianRoutes.AssignGuardian: the `data` of the 201 reply is the link id
  carried in `Created`. A JSON string given as an id is not modelled.
- ReminderRoutes.CreateReminder: `reminder_time` is stored as the request's text. An
  unparsable time, which fails the commit of the `Time` column, is not modelled.
  `is_active` is a JSON boolean or absent.
- ReminderRoutes.UpdateReminder: the same restrictions on `reminder_time` and
  `is_active` apply.
- ReminderRoutes.GetReminders: `reminder_time` is returned as its stored text rather
  than formatted with `strftime('%H:%M:%S')`. When reminders share a `created_at`,
  their relative order is the database's choice; the model keeps table order.
- GuardianRoutes.UpdateGuardian: request values are strings or null. Of the commit's
  failures, only the `email` column's non-null and unique constraints are modelled,
  since no other updatable column has one.
- OtpPolicy.NewestUnused: among records with the same `created_at`, the one stored last
  is selected; this stands for the sub-second order the database keeps, which
  `order_by(created_at.desc())` does not otherwise fix. `AuthRoutes.SentCodeVerifies`
  relies on it when the code is checked in the second it was sent.
- Serializer.IsoFormat: only whole seconds between years 1 and 9999 are formatted.
- Serializer.Convert: datetimes and times of day are whole seconds, so the `.ffffff` part `isoformat()` adds for microseconds and any time-zone offset are not modelled.
- Responses.Capitalize: ASCII only; Python's `str.capitalize` also maps other letters,
  sometimes to longer strings (`'ß'` to `'Ss'`). Every key the handlers rename is an
  ASCII literal.
