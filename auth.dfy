/** The authentication routes (app/routes/auth.py): credential checks, registration,
    login with lockout, one-time codes, e-mail change and password reset. Each handler
    is a method on the `Database`; the clock, the client address, the random draws and
    the outcome of sending mail are its parameters. */
module AuthRoutes {
  import opened Common
  import opened Store
  import opened Responses
  import opened Serializer
  import opened Lockout
  import opened OtpPolicy

  /** The text of a field known to be present. */
  function Text(req: Request, key: string): string {
    Lookup(req, key).GetOr("")
  }

  /** `data.get('purpose', 'general')`: an explicit null stays null. */
  function PurposeOf(req: Request): Option<string> {
    if "purpose" in req then req["purpose"] else Some("general")
  }

  function OptNumber(o: Option<int>): Json {
    if o.Some? then JInt(o.value) else JNull
  }

  // ---------------------------------------------------------------------------
  // Required fields
  // ---------------------------------------------------------------------------

  /** The first of `fields` that the request lacks (missing, null or empty). */
  function FirstMissing(req: Request, fields: seq<string>): (r: Option<string>)
    ensures r.None? <==> forall i :: 0 <= i < |fields| ==> Present(req, fields[i])
    ensures r.Some? ==> exists i :: 0 <= i < |fields| && fields[i] == r.value && !Present(req, r.value)
                           && forall j :: 0 <= j < i ==> Present(req, fields[j])
  {
    if fields == [] then None
    else if !Present(req, fields[0]) then Some(fields[0])
    else
      var rest := FirstMissing(req, fields[1..]);
      assert forall i :: 1 <= i < |fields| ==> fields[i] == fields[1..][i - 1];
      rest
  }

  /** The loop over the required fields that returns at the first one missing. */
  method CheckRequired(req: Request, fields: seq<string>) returns (missing: Option<string>)
    ensures missing == FirstMissing(req, fields)
  {
    for i := 0 to |fields|
      invariant FirstMissing(req, fields) == FirstMissing(req, fields[i..])
    {
      assert fields[i..][0] == fields[i] && fields[i..][1..] == fields[i + 1..];
      if !Present(req, fields[i]) {
        return Some(fields[i]);
      }
    }
    return None;
  }

  const RegisterFields: seq<string> :=
    ["username", "password", "guardian_name", "email", "contact_number",
     "village", "province", "city", "barangay", "street_address"]

  // ---------------------------------------------------------------------------
  // Credentials and registration
  // ---------------------------------------------------------------------------

  /** A given username is held by a stored guardian. */
  predicate UsernameTaken(gs: seq<Guardian>, req: Request) {
    TruthyStr(Lookup(req, "username")) && exists i :: 0 <= i < |gs| && gs[i].username == Text(req, "username")
  }

  /** A given e-mail is held by a stored guardian. */
  predicate EmailTaken(gs: seq<Guardian>, req: Request) {
    TruthyStr(Lookup(req, "email")) && exists i :: 0 <= i < |gs| && gs[i].email == Text(req, "email")
  }

  /** A given contact number is held by a stored guardian. */
  predicate ContactTaken(gs: seq<Guardian>, req: Request) {
    TruthyStr(Lookup(req, "contact_number")) && exists i :: 0 <= i < |gs| && gs[i].contact == Lookup(req, "contact_number")
  }

  /** `check_credentials`: each of username, e-mail and contact number that is given is
      checked against the stored guardians, in that order, and the first one taken is
      named in the 400. */
  function CheckCredentials(gs: seq<Guardian>, req: Request): (r: Reply)
    ensures r.status == 200 <==> !UsernameTaken(gs, req) && !EmailTaken(gs, req) && !ContactTaken(gs, req)
    ensures r.status != 200 ==> r.status == 400 && r.reason.AlreadyExists?
    ensures UsernameTaken(gs, req) ==> r == Reply(400, AlreadyExists("username"))
    ensures !UsernameTaken(gs, req) && EmailTaken(gs, req) ==> r == Reply(400, AlreadyExists("email"))
    ensures !UsernameTaken(gs, req) && !EmailTaken(gs, req) && ContactTaken(gs, req) ==>
              r == Reply(400, AlreadyExists("contact_number"))
  {
    if TruthyStr(Lookup(req, "username")) && GuardianWithUsername(gs, Text(req, "username")).Some? then
      Reply(400, AlreadyExists("username"))
    else if TruthyStr(Lookup(req, "email")) && GuardianWithEmail(gs, Text(req, "email")).Some? then
      Reply(400, AlreadyExists("email"))
    else if TruthyStr(Lookup(req, "contact_number")) && GuardianWithContact(gs, Text(req, "contact_number")).Some? then
      Reply(400, AlreadyExists("contact_number"))
    else
      Reply(200, Done)
  }

  /** The row `register` adds; the role takes its column default. */
  function NewGuardian(req: Request, id: nat, now: int): Guardian {
    Guardian(id, Text(req, "username"), Hash(Text(req, "password")),
             Lookup(req, "guardian_name"), Lookup(req, "guardian_image_url"), Text(req, "email"),
             Lookup(req, "contact_number"), None, Lookup(req, "province"), Lookup(req, "city"),
             Lookup(req, "barangay"), Lookup(req, "village"), Lookup(req, "street_address"),
             "guardian", None, now)
  }

  /** Whether `password` logs in as `username`: the guardian stored under that name
      exists and its hash accepts the password. */
  predicate Authenticates(gs: seq<Guardian>, username: string, password: string) {
    match GuardianWithUsername(gs, username)
    case None => false
    case Some(i) => CheckPassword(gs[i].password, password)
  }

  /** `register`: every required field, then a free username, then a free e-mail. */
  method Register(db: Database, req: Request, now: int) returns (reply: Reply)
    requires db.Valid() && InDatetimeRange(now)
    modifies db`guardians, db`nextGuardianId
    ensures db.Valid()
    ensures var gs, next := old(db.guardians), old(db.nextGuardianId);
            var missing := FirstMissing(req, RegisterFields);
            if missing.Some? then
              reply == Reply(400, MissingField(missing.value)) && db.guardians == gs && db.nextGuardianId == next
            else if GuardianWithUsername(gs, Text(req, "username")).Some? then
              reply == Reply(400, AlreadyExists("username")) && db.guardians == gs && db.nextGuardianId == next
            else if GuardianWithEmail(gs, Text(req, "email")).Some? then
              reply == Reply(400, AlreadyExists("email")) && db.guardians == gs && db.nextGuardianId == next
            else
              && reply == Reply(201, Created(next))
              && db.guardians == gs + [NewGuardian(req, next, now)]
              && db.nextGuardianId == next + 1
  {
    var missing := CheckRequired(req, RegisterFields);
    if missing.Some? {
      return Reply(400, MissingField(missing.value));
    }
    if GuardianWithUsername(db.guardians, Text(req, "username")).Some? {
      return Reply(400, AlreadyExists("username"));
    }
    if GuardianWithEmail(db.guardians, Text(req, "email")).Some? {
      return Reply(400, AlreadyExists("email"));
    }
    var id := db.nextGuardianId;
    var g := NewGuardian(req, id, now);
    AddGuardianOk(db.guardians, id, g);
    db.guardians := db.guardians + [g];
    db.nextGuardianId := id + 1;
    reply := Reply(201, Created(id));
  }

  /** A guardian just registered logs in with the username and password it registered with. */
  lemma {:induction false} RegisteredCanLogIn(gs: seq<Guardian>, req: Request, id: nat, now: int)
    requires GuardianWithUsername(gs, Text(req, "username")).None?
    ensures Authenticates(gs + [NewGuardian(req, id, now)], Text(req, "username"), Text(req, "password"))
  {
    var gs' := gs + [NewGuardian(req, id, now)];
    var u := Text(req, "username");
    var m := GuardianWithUsername(gs', u);
    assert gs'[|gs|].username == u;
    assert m.Some?;
    forall i | 0 <= i < |gs| ensures gs'[i].username != u {
      assert gs'[i] == gs[i];
    }
    assert m.value == |gs|;
  }

  /** Credentials `check_credentials` accepts do not make `register` refuse a conflict. */
  lemma CheckedCredentialsRegister(gs: seq<Guardian>, req: Request)
    requires CheckCredentials(gs, req).status == 200
    requires FirstMissing(req, RegisterFields).None?
    ensures GuardianWithUsername(gs, Text(req, "username")).None?
    ensures GuardianWithEmail(gs, Text(req, "email")).None?
  {
    assert RegisterFields[0] == "username" && RegisterFields[3] == "email";
    assert Present(req, RegisterFields[0]) && Present(req, RegisterFields[3]);
  }

  // ---------------------------------------------------------------------------
  // Login
  // ---------------------------------------------------------------------------

  /** The columns of a guardian row in table order (`updated_at` is not modelled). The
      guardian table declares no `village` or `vip_id` column; the routes use both, and
      their places here (after `barangay`, and after `role`) are assumed. They decide the
      key order of the login profile. */
  function GuardianColumns(g: Guardian): seq<Column> {
    [ Column("guardian_id", Plain(JInt(g.id))),
      Column("username", Plain(JStr(g.username))),
      Column("password", Plain(JStr(g.password.image))),
      Column("guardian_name", Plain(OptText(g.name))),
      Column("guardian_image_url", Plain(OptText(g.imageUrl))),
      Column("email", Plain(JStr(g.email))),
      Column("contact_number", Plain(OptText(g.contact))),
      Column("relationship_to_vip", Plain(OptText(g.relationship))),
      Column("province", Plain(OptText(g.province))),
      Column("city", Plain(OptText(g.city))),
      Column("barangay", Plain(OptText(g.barangay))),
      Column("village", Plain(OptText(g.village))),
      Column("street_address", Plain(OptText(g.streetAddress))),
      Column("role", Plain(JStr(g.role))),
      Column("vip_id", Plain(OptNumber(g.vipId))),
      Column("created_at", Timestamp(g.createdAt)) ]
  }

  /** A stored guardian's columns can be serialised. */
  lemma GuardianColumnsOk(g: Guardian)
    requires InDatetimeRange(g.createdAt)
    ensures DistinctNames(GuardianColumns(g)) && Representable(GuardianColumns(g))
  {
  }

  /** The columns the login response includes. */
  const LoginFields: seq<string> :=
    ["guardian_id", "username", "guardian_name", "email", "contact_number",
     "role", "province", "city", "barangay", "village",
     "street_address", "guardian_image_url"]

  /** `{**user_data, "device_registered": ...}`, the login response's data. */
  function LoginProfile(g: Guardian, registered: bool): Dict
    requires InDatetimeRange(g.createdAt)
  {
    GuardianColumnsOk(g);
    Serialize(GuardianColumns(g), None, Some(LoginFields)) + [("device_registered", JBool(registered))]
  }

  /** The serialiser keeps exactly the included columns: none of them is excluded by default. */
  lemma LoginFieldsKept(k: string)
    ensures Kept(k, None, Some(LoginFields)) <==> k in LoginFields
  {
  }

  /** Every included field names a column of the guardian table. */
  lemma LoginFieldsAreColumns(g: Guardian, k: string)
    requires k in LoginFields
    ensures exists j :: 0 <= j < |GuardianColumns(g)| && GuardianColumns(g)[j].name == k
  {
    var cols := GuardianColumns(g);
    var fromField := [0, 1, 3, 5, 6, 13, 8, 9, 10, 11, 12, 4];
    var i :| 0 <= i < |LoginFields| && LoginFields[i] == k;
    assert cols[fromField[i]].name == LoginFields[i];
  }

  /** The login profile holds exactly the included columns and the device flag; in
      particular never the password hash. */
  lemma LoginProfileKeys(g: Guardian, registered: bool, k: string)
    requires InDatetimeRange(g.createdAt)
    ensures HasKey(LoginProfile(g, registered), k) <==> k in LoginFields || k == "device_registered"
  {
    var cols := GuardianColumns(g);
    GuardianColumnsOk(g);
    var d := Serialize(cols, None, Some(LoginFields));
    var flag: Dict := [("device_registered", JBool(registered))];
    SerializeKeys(cols, None, Some(LoginFields), k);
    LoginFieldsKept(k);
    HasKeyAppend(d, flag, k);
    if k in LoginFields {
      LoginFieldsAreColumns(g, k);
    }
    assert HasKey(flag, k) <==> k == "device_registered" by {
      assert flag[0].0 == "device_registered";
    }
  }

  /** `login`. */
  method Login(db: Database, req: Request, ip: Option<string>, now: int) returns (reply: Reply, user: Option<Dict>)
    requires db.Valid()
    modifies db`attempts
    ensures db.Valid()
    ensures user.Some? <==> reply.status == 200
    ensures var username, password := Lookup(req, "username"), Lookup(req, "password");
            var info := LoginBlockInfo(old(db.attempts), username, ip, now);
            if !TruthyStr(username) || !TruthyStr(password) then
              reply == Reply(400, MissingInput) && db.attempts == old(db.attempts)
            else if !info.allowed then
              reply == Reply(429, Locked(info.retryAfter)) && db.attempts == old(db.attempts)
            else if !Authenticates(db.guardians, username.value, password.value) then
              reply == Reply(401, BadCredentials) && db.attempts == old(db.attempts) + [LoginAttempt(username, ip, now)]
            else
              var g := db.guardians[GuardianWithUsername(db.guardians, username.value).value];
              && reply == Reply(200, Done)
              && db.attempts == Purge(old(db.attempts), username, ip)
              && user == Some(LoginProfile(g, GuardianHasDevice(db.links, g.id)))
  {
    var username, password := Lookup(req, "username"), Lookup(req, "password");
    if !TruthyStr(username) || !TruthyStr(password) {
      return Reply(400, MissingInput), None;
    }
    var info := LoginBlockInfo(db.attempts, username, ip, now);
    if !info.allowed {
      return Reply(429, Locked(info.retryAfter)), None;
    }
    var found := GuardianWithUsername(db.guardians, username.value);
    if found.None? || !CheckPassword(db.guardians[found.value].password, password.value) {
      db.attempts := db.attempts + [LoginAttempt(username, ip, now)];
      return Reply(401, BadCredentials), None;
    }
    db.attempts := Purge(db.attempts, username, ip);
    var g := db.guardians[found.value];
    var registered := GuardianHasDevice(db.links, g.id);
    GuardianColumnsOk(g);
    var userData := ModelToDict(Some(GuardianColumns(g)), None, Some(LoginFields));
    user := Some(userData.value + [("device_registered", JBool(registered))]);
    reply := Reply(200, Done);
  }

  // ---------------------------------------------------------------------------
  // One-time codes
  // ---------------------------------------------------------------------------

  /** `send_otp`: the code is stored before it is mailed, so a failed delivery keeps it. */
  method SendOtp(db: Database, req: Request, draws: seq<nat>, delivered: bool, now: int) returns (reply: Reply)
    requires db.Valid()
    requires |draws| == OtpLength && forall i :: 0 <= i < |draws| ==> draws[i] < 10
    modifies db`otps
    ensures db.Valid()
    ensures var email, purpose := Lookup(req, "email"), PurposeOf(req);
            if !TruthyStr(email) then
              reply == Reply(400, MissingInput) && db.otps == old(db.otps)
            else if !RateOk(old(db.otps), email.value, purpose, now) then
              reply == Reply(429, TooManyRequests) && db.otps == old(db.otps)
            else
              && db.otps == old(db.otps) + [OtpRecord(email.value, GenerateOtp(draws), purpose, false, now, now + OtpLifetime, None)]
              && reply == (if delivered then Reply(200, Done) else Reply(500, DeliveryFailed))
  {
    var email, purpose := Lookup(req, "email"), PurposeOf(req);
    if !TruthyStr(email) {
      return Reply(400, MissingInput);
    }
    if !RateOk(db.otps, email.value, purpose, now) {
      return Reply(429, TooManyRequests);
    }
    var code := GenerateOtp(draws);
    db.otps := db.otps + [OtpRecord(email.value, code, purpose, false, now, now + OtpLifetime, None)];
    if !delivered {
      return Reply(500, DeliveryFailed);
    }
    reply := Reply(200, Done);
  }

  /** `verify_otp`: the newest unused record for (email, purpose) is checked, for expiry
      first and then for the code. */
  method VerifyOtp(db: Database, req: Request, now: int) returns (reply: Reply)
    requires db.Valid()
    modifies db`otps
    ensures db.Valid()
    ensures var email, code, purpose := Lookup(req, "email"), Lookup(req, "otp_code"), PurposeOf(req);
            var os := old(db.otps);
            if !TruthyStr(email) || !TruthyStr(code) then
              reply == Reply(400, MissingInput) && db.otps == os
            else match NewestUnused(os, email.value, purpose)
              case None => reply == Reply(400, NotFound) && db.otps == os
              case Some(i) =>
                if now > os[i].expiresAt then reply == Reply(400, Expired) && db.otps == os
                else if os[i].code != code.value then reply == Reply(400, InvalidCode) && db.otps == os
                else reply == Reply(200, Done) && db.otps == MarkUsed(os, i, now)
  {
    var email, code, purpose := Lookup(req, "email"), Lookup(req, "otp_code"), PurposeOf(req);
    if !TruthyStr(email) || !TruthyStr(code) {
      return Reply(400, MissingInput);
    }
    var found := NewestUnused(db.otps, email.value, purpose);
    if found.None? {
      return Reply(400, NotFound);
    }
    var i := found.value;
    if now > db.otps[i].expiresAt {
      return Reply(400, Expired);
    }
    if db.otps[i].code != code.value {
      return Reply(400, InvalidCode);
    }
    MarkUsedKeepsOk(db.otps, i, now);
    db.otps := MarkUsed(db.otps, i, now);
    reply := Reply(200, Done);
  }

  /** A code sent and then verified before it expires is accepted, when no unused code
      for that (email, purpose) was issued later than it. */
  lemma SentCodeVerifies(os: seq<OtpRecord>, email: string, purpose: Option<string>, draws: seq<nat>, now: int, later: int)
    requires |draws| == OtpLength && forall i :: 0 <= i < |draws| ==> draws[i] < 10
    requires forall j :: 0 <= j < |os| ==> os[j].createdAt <= now
    requires now <= later <= now + OtpLifetime
    ensures var r := OtpRecord(email, GenerateOtp(draws), purpose, false, now, now + OtpLifetime, None);
            var i := NewestUnused(os + [r], email, purpose);
            i == Some(|os|) && !(later > (os + [r])[|os|].expiresAt) && (os + [r])[|os|].code == GenerateOtp(draws)
  {
    var r := OtpRecord(email, GenerateOtp(draws), purpose, false, now, now + OtpLifetime, None);
    NewestIssueSelected(os, r);
  }

  // ---------------------------------------------------------------------------
  // E-mail change
  // ---------------------------------------------------------------------------

  /** Another guardian than the one with id `id` already holds `email`. */
  predicate EmailHeldByOther(gs: seq<Guardian>, email: string, id: nat) {
    match GuardianWithEmail(gs, email)
    case None => false
    case Some(m) => gs[m].id != id
  }

  /** With unique ids and e-mails, the e-mail is free for guardian `k` exactly when no other
      guardian holds it. */
  lemma EmailHeldByOtherMeans(gs: seq<Guardian>, next: nat, email: string, k: nat)
    requires GuardiansOk(gs, next) && k < |gs|
    ensures !EmailHeldByOther(gs, email, gs[k].id) <==> forall j :: 0 <= j < |gs| && j != k ==> gs[j].email != email
  {
    match GuardianWithEmail(gs, email)
    case None =>
    case Some(m) =>
      if gs[m].id == gs[k].id {
        assert m == k;
        forall j | 0 <= j < |gs| && j != k ensures gs[j].email != email {
          assert j != m;
        }
      }
  }

  /** `request_email_change` for the guardian whose id the access token carries. */
  method RequestEmailChange(db: Database, identity: int, req: Request, draws: seq<nat>, delivered: bool, now: int) returns (reply: Reply)
    requires db.Valid()
    requires |draws| == OtpLength && forall i :: 0 <= i < |draws| ==> draws[i] < 10
    modifies db`otps
    ensures db.Valid()
    ensures var email, gs, os := Lookup(req, "new_email"), db.guardians, old(db.otps);
            var purpose := Some(EmailChangePurpose);
            if !TruthyStr(email) then
              reply == Reply(400, MissingInput) && db.otps == os
            else if GuardianWithId(gs, identity).None? then
              reply == Reply(404, NotFound) && db.otps == os
            else if EmailHeldByOther(gs, email.value, gs[GuardianWithId(gs, identity).value].id) then
              reply == Reply(400, AlreadyExists("email")) && db.otps == os
            else if !RateOk(os, email.value, purpose, now) then
              reply == Reply(429, TooManyRequests) && db.otps == os
            else
              && db.otps == os + [OtpRecord(email.value, GenerateOtp(draws), purpose, false, now, now + OtpLifetime, None)]
              && reply == (if delivered then Reply(200, Done) else Reply(500, DeliveryFailed))
  {
    var email := Lookup(req, "new_email");
    if !TruthyStr(email) {
      return Reply(400, MissingInput);
    }
    var me := GuardianWithId(db.guardians, identity);
    if me.None? {
      return Reply(404, NotFound);
    }
    if EmailHeldByOther(db.guardians, email.value, db.guardians[me.value].id) {
      return Reply(400, AlreadyExists("email"));
    }
    var purpose := Some(EmailChangePurpose);
    if !RateOk(db.otps, email.value, purpose, now) {
      return Reply(429, TooManyRequests);
    }
    var code := GenerateOtp(draws);
    db.otps := db.otps + [OtpRecord(email.value, code, purpose, false, now, now + OtpLifetime, None)];
    if !delivered {
      return Reply(500, DeliveryFailed);
    }
    reply := Reply(200, Done);
  }

  /** `verify_email_change`: the first unused e-mail-change record with that address and
      code is checked for expiry, then the address is checked to be still free, and only
      then is it stored and the record marked used. */
  method VerifyEmailChange(db: Database, identity: int, req: Request, now: int) returns (reply: Reply)
    requires db.Valid()
    modifies db`guardians, db`otps
    ensures db.Valid()
    ensures var email, code := Lookup(req, "new_email"), Lookup(req, "otp_code");
            var gs, os := old(db.guardians), old(db.otps);
            var same := db.guardians == gs && db.otps == os;
            if !TruthyStr(email) || !TruthyStr(code) then
              reply == Reply(400, MissingInput) && same
            else match GuardianWithId(gs, identity)
              case None => reply == Reply(404, NotFound) && same
              case Some(k) =>
                match FirstWithCode(os, email.value, code.value, Some(EmailChangePurpose))
                case None => reply == Reply(400, InvalidCode) && same
                case Some(i) =>
                  if now > os[i].expiresAt then reply == Reply(400, Expired) && same
                  else if EmailHeldByOther(gs, email.value, gs[k].id) then
                    reply == Reply(400, AlreadyExists("email")) && same
                  else
                    && reply == Reply(200, Done)
                    && db.guardians == gs[k := gs[k].(email := email.value)]
                    && db.otps == MarkUsed(os, i, now)
  {
    var email, code := Lookup(req, "new_email"), Lookup(req, "otp_code");
    if !TruthyStr(email) || !TruthyStr(code) {
      return Reply(400, MissingInput);
    }
    var me := GuardianWithId(db.guardians, identity);
    if me.None? {
      return Reply(404, NotFound);
    }
    var k := me.value;
    var found := FirstWithCode(db.otps, email.value, code.value, Some(EmailChangePurpose));
    if found.None? {
      return Reply(400, InvalidCode);
    }
    var i := found.value;
    if now > db.otps[i].expiresAt {
      return Reply(400, Expired);
    }
    if EmailHeldByOther(db.guardians, email.value, db.guardians[k].id) {
      return Reply(400, AlreadyExists("email"));
    }
    EmailHeldByOtherMeans(db.guardians, db.nextGuardianId, email.value, k);
    SetEmailOk(db.guardians, db.nextGuardianId, k, email.value);
    MarkUsedKeepsOk(db.otps, i, now);
    db.guardians := db.guardians[k := db.guardians[k].(email := email.value)];
    db.otps := MarkUsed(db.otps, i, now);
    reply := Reply(200, Done);
  }

  /** After an e-mail change the new address finds the guardian that changed it. */
  lemma {:induction false} ChangedEmailFindsGuardian(gs: seq<Guardian>, next: nat, k: nat, email: string)
    requires k < |gs|
    requires GuardiansOk(gs[k := gs[k].(email := email)], next)
    ensures GuardianWithEmail(gs[k := gs[k].(email := email)], email) == Some(k)
  {
    var gs' := gs[k := gs[k].(email := email)];
    var m := GuardianWithEmail(gs', email);
    assert gs'[k].email == email;
    forall j | 0 <= j < |gs'| && j != k ensures gs'[j].email != email {
      if j < k {
        assert gs'[j].email != gs'[k].email;
      } else {
        assert gs'[k].email != gs'[j].email;
      }
    }
    assert m.Some? && m.value == k;
  }

  // ---------------------------------------------------------------------------
  // Password reset
  // ---------------------------------------------------------------------------

  /** `forgot_password_request`: no rate limit is applied, and the reset mail's outcome
      does not change the reply. */
  method ForgotPasswordRequest(db: Database, req: Request, n: nat, now: int) returns (reply: Reply)
    requires db.Valid()
    requires 100000 <= n <= 999999
    modifies db`otps
    ensures db.Valid()
    ensures var email := Lookup(req, "email");
            if !TruthyStr(email) then
              reply == Reply(400, MissingInput) && db.otps == old(db.otps)
            else if GuardianWithEmail(db.guardians, email.value).None? then
              reply == Reply(404, NotFound) && db.otps == old(db.otps)
            else
              && reply == Reply(200, Done)
              && db.otps == old(db.otps) + [OtpRecord(email.value, ResetCode(n), Some(PasswordResetPurpose), false, now, now + ResetLifetime, None)]
  {
    var email := Lookup(req, "email");
    if !TruthyStr(email) {
      return Reply(400, MissingInput);
    }
    if GuardianWithEmail(db.guardians, email.value).None? {
      return Reply(404, NotFound);
    }
    var code := ResetCode(n);
    db.otps := db.otps + [OtpRecord(email.value, code, Some(PasswordResetPurpose), false, now, now + ResetLifetime, None)];
    reply := Reply(200, Done);
  }

  /** `verify_forgot_password_otp`: the first unused reset record with that address and
      code, if it has not expired, is marked used. */
  method VerifyForgotPasswordOtp(db: Database, req: Request, now: int) returns (reply: Reply)
    requires db.Valid()
    modifies db`otps
    ensures db.Valid()
    ensures var email, code, os := Lookup(req, "email"), Lookup(req, "otp_code"), old(db.otps);
            if !TruthyStr(email) || !TruthyStr(code) then
              reply == Reply(400, MissingInput) && db.otps == os
            else match FirstWithCode(os, email.value, code.value, Some(PasswordResetPurpose))
              case None => reply == Reply(400, InvalidCode) && db.otps == os
              case Some(i) =>
                if now > os[i].expiresAt then reply == Reply(400, Expired) && db.otps == os
                else reply == Reply(200, Done) && db.otps == MarkUsed(os, i, now)
  {
    var email, code := Lookup(req, "email"), Lookup(req, "otp_code");
    if !TruthyStr(email) || !TruthyStr(code) {
      return Reply(400, MissingInput);
    }
    var found := FirstWithCode(db.otps, email.value, code.value, Some(PasswordResetPurpose));
    if found.None? {
      return Reply(400, InvalidCode);
    }
    var i := found.value;
    if now > db.otps[i].expiresAt {
      return Reply(400, Expired);
    }
    MarkUsedKeepsOk(db.otps, i, now);
    db.otps := MarkUsed(db.otps, i, now);
    reply := Reply(200, Done);
  }

  /** A reset code is accepted up to and including its fifth minute, and refused after. */
  lemma ResetCodeLifetime(os: seq<OtpRecord>, email: string, n: nat, issued: int, later: int)
    requires 100000 <= n <= 999999
    requires forall j :: 0 <= j < |os| ==> !(Candidate(os[j], email, Some(PasswordResetPurpose)) && os[j].code == ResetCode(n))
    ensures var r := OtpRecord(email, ResetCode(n), Some(PasswordResetPurpose), false, issued, issued + ResetLifetime, None);
            && FirstWithCode(os + [r], email, ResetCode(n), Some(PasswordResetPurpose)) == Some(|os|)
            && ((os + [r])[|os|].expiresAt < later <==> later > issued + 300)
  {
    var r := OtpRecord(email, ResetCode(n), Some(PasswordResetPurpose), false, issued, issued + ResetLifetime, None);
    var os' := os + [r];
    var m := FirstWithCode(os', email, ResetCode(n), Some(PasswordResetPurpose));
    assert os'[|os|] == r;
    assert m.Some?;
    forall j | 0 <= j < |os| ensures !(Candidate(os'[j], email, Some(PasswordResetPurpose)) && os'[j].code == ResetCode(n)) {
      assert os'[j] == os[j];
    }
    assert m.value == |os|;
  }

  /** `reset_forgot_password`: sets the password of the guardian with that address; it
      does not consult the one-time codes. */
  method ResetForgotPassword(db: Database, req: Request) returns (reply: Reply)
    requires db.Valid()
    modifies db`guardians
    ensures db.Valid()
    ensures var email, password, gs := Lookup(req, "email"), Lookup(req, "new_password"), old(db.guardians);
            if !TruthyStr(email) || !TruthyStr(password) then
              reply == Reply(400, MissingInput) && db.guardians == gs
            else match GuardianWithEmail(gs, email.value)
              case None => reply == Reply(404, NotFound) && db.guardians == gs
              case Some(k) =>
                reply == Reply(200, Done) && db.guardians == gs[k := gs[k].(password := Hash(password.value))]
  {
    var email, password := Lookup(req, "email"), Lookup(req, "new_password");
    if !TruthyStr(email) || !TruthyStr(password) {
      return Reply(400, MissingInput);
    }
    var found := GuardianWithEmail(db.guardians, email.value);
    if found.None? {
      return Reply(404, NotFound);
    }
    var k := found.value;
    SetPasswordOk(db.guardians, db.nextGuardianId, k, Hash(password.value));
    db.guardians := db.guardians[k := db.guardians[k].(password := Hash(password.value))];
    reply := Reply(200, Done);
  }

  /** After a password is set, the guardian logs in with the new password and no longer
      with any other. */
  lemma {:induction false} NewPasswordLogsIn(gs: seq<Guardian>, next: nat, k: nat, password: string, other: string)
    requires GuardiansOk(gs, next) && k < |gs|
    requires other != password
    ensures var gs' := gs[k := gs[k].(password := Hash(password))];
            && Authenticates(gs', gs[k].username, password)
            && !Authenticates(gs', gs[k].username, other)
  {
    var gs' := gs[k := gs[k].(password := Hash(password))];
    var m := GuardianWithUsername(gs', gs[k].username);
    assert gs'[k].username == gs[k].username;
    forall j | 0 <= j < |gs'| && j != k ensures gs'[j].username != gs[k].username {
      assert gs'[j] == gs[j];
      if j < k {
        assert gs[j].username != gs[k].username;
      } else {
        assert gs[k].username != gs[j].username;
      }
    }
    assert m.Some? && m.value == k;
  }
}
