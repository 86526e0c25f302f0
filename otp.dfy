/** One-time codes (app/routes/auth.py): code generation, the per-(email, purpose) hourly
    rate limit, and the rules that pick the record a verification is checked against. */
module OtpPolicy {
  import opened Common
  import opened Store

  const OtpLength: nat := 6
  const RateWindowSeconds: int := 3600
  const RateLimit: nat := 3
  /** Lifetime of a code issued by `send_otp` and `request_email_change`. */
  const OtpLifetime: int := 600
  /** Lifetime of a code issued by `forgot_password_request`. */
  const ResetLifetime: int := 300

  const EmailChangePurpose: string := "email_change"
  const PasswordResetPurpose: string := "password_reset"

  predicate IsOtpCode(code: string) {
    |code| == OtpLength && forall i :: 0 <= i < |code| ==> IsDigit(code[i])
  }

  /** `generate_otp()`: six characters drawn from the decimal digits; the draws are the
      random choices. */
  function GenerateOtp(draws: seq<nat>): (code: string)
    requires |draws| == OtpLength && forall i :: 0 <= i < |draws| ==> draws[i] < 10
    ensures IsOtpCode(code)
    ensures forall i :: 0 <= i < |code| ==> DigitValue(code[i]) == draws[i]
  {
    seq(|draws|, i requires 0 <= i < |draws| => DigitChar(draws[i]))
  }

  /** `str(random.randint(100000, 999999))`, the password-reset code. */
  function ResetCode(n: nat): (code: string)
    requires 100000 <= n <= 999999
  {
    Decimal(n)
  }

  /** A password-reset code is a six-digit code that reads back as the drawn number. */
  lemma ResetCodeShape(n: nat)
    requires 100000 <= n <= 999999
    ensures IsOtpCode(ResetCode(n)) && ParseDecimal(ResetCode(n)) == n
  {
    assert Pow10(5) == 100000 && Pow10(6) == 1000000 by {
      assert Pow10(1) == 10 && Pow10(2) == 100 && Pow10(3) == 1000 && Pow10(4) == 10000;
    }
    DecimalLength(n, 6);
    DecimalRoundTrip(n);
  }

  // ---------------------------------------------------------------------------
  // Rate limit (`check_otp_rate_limit`)
  // ---------------------------------------------------------------------------

  function IssuedWithinHour(email: string, purpose: Option<string>, now: int): OtpRecord -> bool {
    (r: OtpRecord) => r.email == email && r.purpose == purpose && r.createdAt >= now - RateWindowSeconds
  }

  /** The records for (email, purpose) created in the last hour. */
  function RecentOtpCount(ledger: seq<OtpRecord>, email: string, purpose: Option<string>, now: int): (n: nat)
    ensures n <= |ledger|
  {
    |Filter(ledger, IssuedWithinHour(email, purpose, now))|
  }

  /** `check_otp_rate_limit`: fewer than three such records. */
  predicate RateOk(ledger: seq<OtpRecord>, email: string, purpose: Option<string>, now: int) {
    RecentOtpCount(ledger, email, purpose, now) < RateLimit
  }

  /** With nothing in the ledger nothing counts, so the first request is allowed. */
  lemma NothingIssuedAllowed(email: string, purpose: Option<string>, now: int)
    ensures RecentOtpCount([], email, purpose, now) == 0 && RateOk([], email, purpose, now)
  {
  }

  /** Storing a record adds one to the count of (email, purpose) exactly when it is for that
      e-mail and purpose and was created no more than an hour before `now`; a record of
      another pair, or one older than an hour, does not count. */
  lemma IssueCounts(ledger: seq<OtpRecord>, r: OtpRecord, email: string, purpose: Option<string>, now: int)
    ensures RecentOtpCount(ledger + [r], email, purpose, now)
         == RecentOtpCount(ledger, email, purpose, now)
            + (if r.email == email && r.purpose == purpose && r.createdAt >= now - RateWindowSeconds then 1 else 0)
  {
    FilterAppend(ledger, r, IssuedWithinHour(email, purpose, now));
  }

  /** The count is zero exactly when no record for (email, purpose) lies within the hour. */
  lemma {:induction false} NoRecentIssueCountsZero(ledger: seq<OtpRecord>, email: string, purpose: Option<string>, now: int)
    ensures RecentOtpCount(ledger, email, purpose, now) == 0
        <==> forall i :: 0 <= i < |ledger| ==>
                !(ledger[i].email == email && ledger[i].purpose == purpose && ledger[i].createdAt >= now - RateWindowSeconds)
  {
    var p := IssuedWithinHour(email, purpose, now);
    FilterMembers(ledger, p);
    if forall i :: 0 <= i < |ledger| ==> !p(ledger[i]) {
      FilterNone(ledger, p);
    } else {
      var i :| 0 <= i < |ledger| && p(ledger[i]);
      assert ledger[i] in Filter(ledger, p);
    }
  }

  /** Records older than an hour stop counting: a ledger whose records for (email, purpose)
      all predate the window allows a new request, however many there are. */
  lemma {:induction false} ExpiredIssuesAllowed(ledger: seq<OtpRecord>, email: string, purpose: Option<string>, now: int)
    requires forall i :: 0 <= i < |ledger| && ledger[i].email == email && ledger[i].purpose == purpose ==>
                ledger[i].createdAt < now - RateWindowSeconds
    ensures RateOk(ledger, email, purpose, now)
  {
    NoRecentIssueCountsZero(ledger, email, purpose, now);
  }

  /** Three issues within the hour for one (email, purpose) refuse a fourth for that pair,
      and leave every other purpose's allowance as it was. */
  lemma {:induction false} FourthIssueRefused(ledger: seq<OtpRecord>, issued: seq<OtpRecord>, email: string, purpose: Option<string>, other: Option<string>, now: int)
    requires |issued| == 3
    requires forall i :: 0 <= i < 3 ==> issued[i].email == email && issued[i].purpose == purpose
    requires forall i :: 0 <= i < 3 ==> now - RateWindowSeconds <= issued[i].createdAt
    requires other != purpose
    ensures !RateOk(ledger + issued, email, purpose, now)
    ensures RateOk(ledger + issued, email, other, now) <==> RateOk(ledger, email, other, now)
  {
    var p := IssuedWithinHour(email, purpose, now);
    var q := IssuedWithinHour(email, other, now);
    var s0, s1, s2 := ledger + [issued[0]], ledger + [issued[0]] + [issued[1]], ledger + [issued[0]] + [issued[1]] + [issued[2]];
    assert s2 == ledger + issued;
    FilterAppend(ledger, issued[0], p);
    FilterAppend(s0, issued[1], p);
    FilterAppend(s1, issued[2], p);
    FilterAppend(ledger, issued[0], q);
    FilterAppend(s0, issued[1], q);
    FilterAppend(s1, issued[2], q);
  }

  // ---------------------------------------------------------------------------
  // Selecting the record a verification checks
  // ---------------------------------------------------------------------------

  /** An unused record for (email, purpose). */
  predicate Candidate(r: OtpRecord, email: string, purpose: Option<string>) {
    r.email == email && r.purpose == purpose && !r.isUsed
  }

  /** `filter_by(email, is_used=False, purpose).order_by(created_at.desc()).first()`: the
      unused record for (email, purpose) created last; among records created at the same
      time, the one stored last. */
  function NewestUnused(ledger: seq<OtpRecord>, email: string, purpose: Option<string>): (r: Option<nat>)
    ensures r.None? <==> forall j :: 0 <= j < |ledger| ==> !Candidate(ledger[j], email, purpose)
    ensures r.Some? ==> r.value < |ledger| && Candidate(ledger[r.value], email, purpose)
    ensures r.Some? ==> forall j :: 0 <= j < |ledger| && Candidate(ledger[j], email, purpose)
                          ==> ledger[j].createdAt <= ledger[r.value].createdAt
  {
    if ledger == [] then None
    else
      var init, last := ledger[..|ledger| - 1], ledger[|ledger| - 1];
      assert forall j :: 0 <= j < |init| ==> init[j] == ledger[j];
      var best := NewestUnused(init, email, purpose);
      if Candidate(last, email, purpose) && (best.None? || init[best.value].createdAt <= last.createdAt)
      then Some(|init|)
      else best
  }

  /** `filter_by(email, otp_code, is_used=False, purpose).first()`: the first unused record
      for (email, purpose) holding that code, whatever its age. */
  function FirstWithCode(ledger: seq<OtpRecord>, email: string, code: string, purpose: Option<string>): (r: Option<nat>)
    ensures r.None? <==> forall j :: 0 <= j < |ledger| ==> !(Candidate(ledger[j], email, purpose) && ledger[j].code == code)
    ensures r.Some? ==> r.value < |ledger| && Candidate(ledger[r.value], email, purpose) && ledger[r.value].code == code
  {
    FirstIndex(ledger, (x: OtpRecord) => Candidate(x, email, purpose) && x.code == code)
  }

  /** `is_used = True; used_at = now` on the record at `i`. */
  function MarkUsed(ledger: seq<OtpRecord>, i: nat, now: int): (r: seq<OtpRecord>)
    requires i < |ledger|
    ensures |r| == |ledger|
    ensures r[i].isUsed && r[i].usedAt == Some(now)
    ensures r[i].email == ledger[i].email && r[i].code == ledger[i].code && r[i].purpose == ledger[i].purpose
    ensures r[i].createdAt == ledger[i].createdAt && r[i].expiresAt == ledger[i].expiresAt
    ensures forall j :: 0 <= j < |ledger| && j != i ==> r[j] == ledger[j]
  {
    ledger[i := ledger[i].(isUsed := true, usedAt := Some(now))]
  }

  /** Marking a record used keeps the ledger's `is_used`/`used_at` agreement. */
  lemma MarkUsedKeepsOk(ledger: seq<OtpRecord>, i: nat, now: int)
    requires OtpsOk(ledger) && i < |ledger|
    ensures OtpsOk(MarkUsed(ledger, i, now))
  {
  }

  /** A verified code cannot be replayed: the record it used is never selected again, and
      if it was the only unused one for (email, purpose) nothing is selected. */
  lemma ReplayRejected(ledger: seq<OtpRecord>, email: string, purpose: Option<string>, now: int)
    requires NewestUnused(ledger, email, purpose).Some?
    ensures var i := NewestUnused(ledger, email, purpose).value;
            var after := NewestUnused(MarkUsed(ledger, i, now), email, purpose);
            && after != Some(i)
            && ((forall j :: 0 <= j < |ledger| && j != i ==> !Candidate(ledger[j], email, purpose)) ==> after.None?)
  {
  }

  /** The same holds for the code-matching selection of the email-change and
      password-reset flows. */
  lemma ReplayRejectedWithCode(ledger: seq<OtpRecord>, email: string, code: string, purpose: Option<string>, now: int)
    requires FirstWithCode(ledger, email, code, purpose).Some?
    ensures var i := FirstWithCode(ledger, email, code, purpose).value;
            FirstWithCode(MarkUsed(ledger, i, now), email, code, purpose) != Some(i)
  {
  }

  /** A code issued after every other one supersedes them: it is the one selected. */
  lemma NewestIssueSelected(ledger: seq<OtpRecord>, r: OtpRecord)
    requires !r.isUsed
    requires forall j :: 0 <= j < |ledger| ==> ledger[j].createdAt <= r.createdAt
    ensures NewestUnused(ledger + [r], r.email, r.purpose) == Some(|ledger|)
  {
    assert (ledger + [r])[..|ledger|] == ledger;
  }
}
