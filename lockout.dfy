/** The login lockout policy (`get_login_block_info`, app/routes/auth.py): failed attempts
    that match the username or the client address within the last 30 minutes are
    counted; three are free, after that each further attempt is locked out for an
    escalating period measured from the most recent one. */
module Lockout {
  import opened Common
  import opened Store

  const WindowSeconds: int := 1800
  const FreeAttempts: nat := 3
  const Lockouts: seq<nat> := [60, 180, 600, 1800]

  /** `or_(LoginAttempt.username == username, LoginAttempt.ip_address == ip)`; comparing
      with a null value matches null columns, as SQLAlchemy's `== None` does. */
  predicate Matches(a: LoginAttempt, username: Option<string>, ip: Option<string>) {
    a.username == username || a.ip == ip
  }

  /** The matching attempts made at or after `now - 30 min`, in ledger order. */
  function Recent(ledger: seq<LoginAttempt>, username: Option<string>, ip: Option<string>, now: int): (r: seq<LoginAttempt>)
    ensures |r| <= |ledger|
    ensures forall a :: a in r <==> a in ledger && Matches(a, username, ip) && a.createdAt >= now - WindowSeconds
  {
    FilterMembers(ledger, InWindow(username, ip, now));
    Filter(ledger, InWindow(username, ip, now))
  }

  function InWindow(username: Option<string>, ip: Option<string>, now: int): LoginAttempt -> bool {
    (a: LoginAttempt) => Matches(a, username, ip) && a.createdAt >= now - WindowSeconds
  }

  /** The creation time of the latest attempt (`recent_attempts[-1]` after ordering by time). */
  function Latest(attempts: seq<LoginAttempt>): (t: int)
    requires attempts != []
    ensures exists i :: 0 <= i < |attempts| && attempts[i].createdAt == t
    ensures forall i :: 0 <= i < |attempts| ==> attempts[i].createdAt <= t
  {
    if |attempts| == 1 then attempts[0].createdAt
    else
      var t' := Latest(attempts[1..]);
      assert forall i :: 1 <= i < |attempts| ==> attempts[i] == attempts[1..][i - 1];
      if attempts[0].createdAt >= t' then attempts[0].createdAt else t'
  }

  /** The lockout for the `count`-th recent attempt, `count > 3`: the table entry at the
      clamped index `min(count - 4, 3)`. */
  function LockoutFor(count: nat): (seconds: nat)
    requires count > FreeAttempts
    ensures seconds in Lockouts
  {
    var index := if count - FreeAttempts - 1 < |Lockouts| - 1 then count - FreeAttempts - 1 else |Lockouts| - 1;
    Lockouts[index]
  }

  datatype BlockInfo = BlockInfo(allowed: bool, remaining: nat, retryAfter: nat)

  /** `get_login_block_info(username, ip)` at time `now`. */
  function LoginBlockInfo(ledger: seq<LoginAttempt>, username: Option<string>, ip: Option<string>, now: int): (b: BlockInfo)
    ensures b.allowed <==> b.retryAfter == 0
    ensures b.remaining <= FreeAttempts
    ensures b.remaining > 0 ==> b.allowed
  {
    var recent := Recent(ledger, username, ip, now);
    var count := |recent|;
    if count <= FreeAttempts then
      BlockInfo(true, if FreeAttempts - count > 0 then FreeAttempts - count else 0, 0)
    else
      var lockout := LockoutFor(count);
      var wait := Latest(recent) + lockout - now;
      var retryAfter: nat := if wait > 0 then wait else 0;
      BlockInfo(retryAfter == 0, 0, retryAfter)
  }

  function MatchesUser(username: Option<string>, ip: Option<string>): LoginAttempt -> bool {
    (a: LoginAttempt) => Matches(a, username, ip)
  }

  /** The purge a successful login performs: every attempt matching the username or the
      address goes, whatever its age. */
  function Purge(ledger: seq<LoginAttempt>, username: Option<string>, ip: Option<string>): (r: seq<LoginAttempt>)
    ensures forall a :: a in r <==> a in ledger && !Matches(a, username, ip)
  {
    FilterMembers(ledger, Negate(MatchesUser(username, ip)));
    Filter(ledger, Negate(MatchesUser(username, ip)))
  }

  // ---------------------------------------------------------------------------
  // Properties
  // ---------------------------------------------------------------------------

  /** Up to three recent attempts: allowed, with `3 - N` attempts left and no wait. */
  lemma FreeAttemptsAllowed(ledger: seq<LoginAttempt>, username: Option<string>, ip: Option<string>, now: int)
    requires |Recent(ledger, username, ip, now)| <= FreeAttempts
    ensures LoginBlockInfo(ledger, username, ip, now)
         == BlockInfo(true, FreeAttempts - |Recent(ledger, username, ip, now)|, 0)
  {
  }

  /** Beyond three recent attempts no attempts are left, and the caller must wait until
      the lockout measured from the latest attempt has passed. */
  lemma LockedOutAttempts(ledger: seq<LoginAttempt>, username: Option<string>, ip: Option<string>, now: int)
    requires |Recent(ledger, username, ip, now)| > FreeAttempts
    ensures var recent := Recent(ledger, username, ip, now);
            var b := LoginBlockInfo(ledger, username, ip, now);
            && b.remaining == 0
            && (b.allowed <==> now >= Latest(recent) + LockoutFor(|recent|))
            && (!b.allowed ==> now + b.retryAfter == Latest(recent) + LockoutFor(|recent|))
  {
  }

  /** When no recorded attempt lies in the future, the wait never exceeds the lockout. */
  lemma RetryAfterBounded(ledger: seq<LoginAttempt>, username: Option<string>, ip: Option<string>, now: int)
    requires forall i :: 0 <= i < |ledger| ==> ledger[i].createdAt <= now
    requires |Recent(ledger, username, ip, now)| > FreeAttempts
    ensures LoginBlockInfo(ledger, username, ip, now).retryAfter <= LockoutFor(|Recent(ledger, username, ip, now)|)
  {
    var recent := Recent(ledger, username, ip, now);
    var i :| 0 <= i < |recent| && recent[i].createdAt == Latest(recent);
    assert recent[i] in ledger;
  }

  /** More recent attempts never shorten the lockout. */
  lemma LockoutMonotone(n: nat, m: nat)
    requires FreeAttempts < n <= m
    ensures LockoutFor(n) <= LockoutFor(m)
  {
  }

  /** From the seventh recent attempt on, the lockout stays at 30 minutes. */
  lemma LockoutPlateau(n: nat)
    requires n >= 7
    ensures LockoutFor(n) == 1800
  {
  }

  /** Recording a failure made now adds exactly one recent attempt for that user and address. */
  lemma {:induction false} FailureCounts(ledger: seq<LoginAttempt>, username: string, ip: Option<string>, now: int)
    ensures var after := ledger + [LoginAttempt(Some(username), ip, now)];
            |Recent(after, Some(username), ip, now)| == |Recent(ledger, Some(username), ip, now)| + 1
  {
    FilterAppend(ledger, LoginAttempt(Some(username), ip, now), InWindow(Some(username), ip, now));
  }

  /** After a purge nothing counts against that user or address: three free attempts again. */
  lemma PurgeResets(ledger: seq<LoginAttempt>, username: Option<string>, ip: Option<string>, now: int)
    ensures LoginBlockInfo(Purge(ledger, username, ip), username, ip, now) == BlockInfo(true, FreeAttempts, 0)
  {
    var purged := Purge(ledger, username, ip);
    forall i | 0 <= i < |purged| ensures !InWindow(username, ip, now)(purged[i]) {
      assert purged[i] in purged;
    }
    FilterNone(purged, InWindow(username, ip, now));
  }

  /** A purge removes exactly the matching attempts: the others stay, and the ledger
      shrinks by the number of matching ones. */
  lemma PurgeCount(ledger: seq<LoginAttempt>, username: Option<string>, ip: Option<string>)
    ensures |Purge(ledger, username, ip)| == |ledger| - |Filter(ledger, MatchesUser(username, ip))|
  {
    PartitionCount(ledger, MatchesUser(username, ip));
  }

  /** Three failures in a row leave a fourth attempt allowed, with none left. */
  lemma ThreeFailuresAllowed(ledger: seq<LoginAttempt>, username: string, ip: Option<string>, t: int, d: int)
    requires |ledger| == 3 && forall i :: 0 <= i < 3 ==> ledger[i] == LoginAttempt(Some(username), ip, t)
    requires 0 <= d <= WindowSeconds
    ensures LoginBlockInfo(ledger, Some(username), ip, t + d) == BlockInfo(true, 0, 0)
  {
    FilterAll(ledger, InWindow(Some(username), ip, t + d));
  }

  /** After a fourth failure the user is locked out for one minute from it. */
  lemma FourthFailureLocks(ledger: seq<LoginAttempt>, username: string, ip: Option<string>, t: int, d: int)
    requires |ledger| == 4 && forall i :: 0 <= i < 4 ==> ledger[i] == LoginAttempt(Some(username), ip, t)
    requires 0 <= d <= WindowSeconds
    ensures LoginBlockInfo(ledger, Some(username), ip, t + d)
              == (if d < 60 then BlockInfo(false, 0, 60 - d) else BlockInfo(true, 0, 0))
  {
    FilterAll(ledger, InWindow(Some(username), ip, t + d));
    LatestOfCopies(ledger, t);
  }

  /** Attempts all made at `t` have `t` as their latest time. */
  lemma LatestOfCopies(attempts: seq<LoginAttempt>, t: int)
    requires attempts != [] && forall i :: 0 <= i < |attempts| ==> attempts[i].createdAt == t
    ensures Latest(attempts) == t
  {
  }
}
