/** Note reminders (app/routes/reminders.py): a guardian with a paired cane creates
    reminders for a VIP, lists their own newest first one page at a time, and edits or
    deletes only the reminders they own. */
module ReminderRoutes {
  import opened Common
  import opened Store
  import opened Responses
  import opened Serializer

  // ---------------------------------------------------------------------------
  // create_reminder
  // ---------------------------------------------------------------------------

  /** The reminder table's foreign key: `vip_id` names a stored VIP. */
  predicate VipExists(vs: seq<Vip>, vipId: int) {
    exists k :: 0 <= k < |vs| && vs[k].id == vipId
  }

  /** `is_active` takes the request's value when the key is sent, and defaults to true. */
  function NewReminder(id: nat, guardianId: nat, vipId: int, req: Request, isActive: Option<bool>, now: int): (r: Reminder)
    requires TruthyStr(Lookup(req, "message")) && TruthyStr(Lookup(req, "reminder_time"))
    ensures r.id == id && r.guardianId == guardianId && r.vipId == vipId && r.createdAt == now
    ensures r.message == Lookup(req, "message").value && r.time == Lookup(req, "reminder_time").value
    ensures isActive.None? ==> r.isActive
    ensures isActive.Some? ==> r.isActive == isActive.value
  {
    Reminder(id, guardianId, vipId, Lookup(req, "message").value, Lookup(req, "reminder_time").value,
             isActive.GetOr(true), now)
  }

  /** Appending a reminder under the next id keeps the table well formed. */
  lemma AddReminderOk(rs: seq<Reminder>, next: nat, r: Reminder)
    requires RemindersOk(rs, next) && r.id == next && InDatetimeRange(r.createdAt)
    ensures RemindersOk(rs + [r], next + 1)
  {
    var rs' := rs + [r];
    assert forall i :: 0 <= i < |rs| ==> rs'[i] == rs[i];
    assert rs'[|rs|] == r;
  }

  /** `create_reminder`, behind `guardian_required` and `guardian_with_device_required`:
      404 for an unknown caller, 403 for a caller without a paired device, 400 for the
      first missing field among `vip_id`, `message`, `reminder_time`, 500 when the VIP
      does not exist (the foreign key fails at commit); otherwise the caller's reminder
      is stored under the next id. */
  method CreateReminder(db: Database, identity: int, vipId: Option<int>, req: Request, isActive: Option<bool>, now: int)
    returns (reply: Reply)
    requires db.Valid() && InDatetimeRange(now)
    modifies db`reminders, db`nextReminderId
    ensures db.Valid()
    ensures reply.status != 201 ==> db.reminders == old(db.reminders) && db.nextReminderId == old(db.nextReminderId)
    ensures GuardianWithId(db.guardians, identity).None? ==> reply == Reply(404, NotFound)
    ensures GuardianWithId(db.guardians, identity).Some? ==>
              if !GuardianHasDevice(db.links, identity) then reply == Reply(403, Forbidden)
              else if !TruthyInt(vipId) then reply == Reply(400, MissingField("vip_id"))
              else if !TruthyStr(Lookup(req, "message")) then reply == Reply(400, MissingField("message"))
              else if !TruthyStr(Lookup(req, "reminder_time")) then reply == Reply(400, MissingField("reminder_time"))
              else if !VipExists(db.vips, vipId.value) then reply == Reply(500, Failed)
              else
                && reply == Reply(201, Created(old(db.nextReminderId)))
                && db.nextReminderId == old(db.nextReminderId) + 1
                && db.reminders == old(db.reminders)
                     + [NewReminder(old(db.nextReminderId), db.guardians[GuardianWithId(db.guardians, identity).value].id,
                                    vipId.value, req, isActive, now)]
  {
    var caller := GuardianWithId(db.guardians, identity);
    if caller.None? {
      reply := Reply(404, NotFound);
    } else if !GuardianHasDevice(db.links, identity) {
      reply := Reply(403, Forbidden);
    } else if !TruthyInt(vipId) {
      reply := Reply(400, MissingField("vip_id"));
    } else if !TruthyStr(Lookup(req, "message")) {
      reply := Reply(400, MissingField("message"));
    } else if !TruthyStr(Lookup(req, "reminder_time")) {
      reply := Reply(400, MissingField("reminder_time"));
    } else if !VipExists(db.vips, vipId.value) {
      reply := Reply(500, Failed);
    } else {
      var id := db.nextReminderId;
      var r := NewReminder(id, db.guardians[caller.value].id, vipId.value, req, isActive, now);
      AddReminderOk(db.reminders, id, r);
      db.reminders := db.reminders + [r];
      db.nextReminderId := id + 1;
      reply := Reply(201, Created(id));
    }
  }

  // ---------------------------------------------------------------------------
  // get_reminders
  // ---------------------------------------------------------------------------

  /** `filter_by(guardian_id=...)`, then `filter_by(vip_id=...)` when `vip_id` is non-zero. */
  function Mine(identity: int, vipId: Option<int>): Reminder -> bool {
    (r: Reminder) => r.guardianId == identity && (TruthyInt(vipId) ==> r.vipId == vipId.value)
  }

  /** `order_by(created_at.desc())`. */
  predicate NewestFirst(rs: seq<Reminder>) {
    forall i, j :: 0 <= i < j < |rs| ==> rs[i].createdAt >= rs[j].createdAt
  }

  /** Places `x` before the first reminder that is not newer than it. */
  function InsertNewestFirst(x: Reminder, s: seq<Reminder>): (r: seq<Reminder>)
    requires NewestFirst(s)
    ensures NewestFirst(r)
    ensures multiset(r) == multiset(s) + multiset{x}
    ensures |r| == |s| + 1
    ensures r[0] == x || (|s| > 0 && r[0] == s[0])
  {
    if s == [] || s[0].createdAt <= x.createdAt then
      ConsNewestFirst(x, s);
      [x] + s
    else
      var rest := InsertNewestFirst(x, s[1..]);
      assert s == [s[0]] + s[1..];
      ConsNewestFirst(s[0], rest);
      [s[0]] + rest
  }

  /** A reminder at least as new as the head of a newest-first listing can go in front. */
  lemma ConsNewestFirst(y: Reminder, rest: seq<Reminder>)
    requires NewestFirst(rest) && (|rest| > 0 ==> rest[0].createdAt <= y.createdAt)
    ensures NewestFirst([y] + rest)
  {
    var l := [y] + rest;
    forall i, j | 0 <= i < j < |l| ensures l[i].createdAt >= l[j].createdAt {
      if i > 0 {
        assert l[i] == rest[i - 1] && l[j] == rest[j - 1];
      } else {
        assert l[j] == rest[j - 1];
      }
    }
  }

  /** The order the database returns: newest first (ties in an order the database
      chooses; here, table order). */
  function SortNewestFirst(rs: seq<Reminder>): (r: seq<Reminder>)
    ensures NewestFirst(r)
    ensures multiset(r) == multiset(rs)
    ensures |r| == |rs|
  {
    if rs == [] then []
    else
      assert rs == [rs[0]] + rs[1..];
      InsertNewestFirst(rs[0], SortNewestFirst(rs[1..]))
  }

  /** `paginate(page, per_page, error_out=False)` reads a page below 1 as page 1 and a
      page size below 1 as 20. */
  function PageArgs(page: int, perPage: int): (r: (int, int))
    ensures r.0 >= 1 && r.1 >= 1
    ensures page >= 1 ==> r.0 == page
    ensures perPage >= 1 ==> r.1 == perPage
  {
    (if page < 1 then 1 else page, if perPage < 1 then 20 else perPage)
  }

  /** The number of items before page `page`. */
  function PageStart(page: int, perPage: int): (n: nat)
    requires page >= 1 && perPage >= 1
  {
    (page - 1) * perPage
  }

  /** Page `page` of `s`, `perPage` items to a page. */
  function PageOf<T>(s: seq<T>, page: int, perPage: int): (r: seq<T>)
    requires page >= 1 && perPage >= 1
    ensures |r| <= perPage
    ensures forall i :: 0 <= i < |r| ==> PageStart(page, perPage) + i < |s| && r[i] == s[PageStart(page, perPage) + i]
    ensures PageStart(page, perPage) + perPage <= |s| ==> |r| == perPage
    ensures PageStart(page, perPage) < |s| < PageStart(page, perPage) + perPage ==> |r| == |s| - PageStart(page, perPage)
    ensures |s| <= PageStart(page, perPage) ==> r == []
  {
    var start := PageStart(page, perPage);
    if |s| <= start then []
    else if start + perPage <= |s| then s[start..start + perPage]
    else s[start..]
  }

  /** One listed reminder; the stored `reminder_time` text is returned as stored. */
  function ReminderEntry(r: Reminder): Json
    requires InDatetimeRange(r.createdAt)
  {
    JObject([("note_reminder_id", JInt(r.id)), ("guardian_id", JInt(r.guardianId)), ("vip_id", JInt(r.vipId)),
             ("message", JStr(r.message)), ("reminder_time", JStr(r.time)), ("is_active", JBool(r.isActive)),
             ("created_at", JStr(IsoFormat(r.createdAt)))])
  }

  /** One entry per reminder, in order. */
  function ReminderEntries(rs: seq<Reminder>): (r: seq<Json>)
    requires forall i :: 0 <= i < |rs| ==> InDatetimeRange(rs[i].createdAt)
    ensures |r| == |rs|
    ensures forall i :: 0 <= i < |rs| ==> r[i] == ReminderEntry(rs[i])
  {
    seq(|rs|, i requires 0 <= i < |rs| => ReminderEntry(rs[i]))
  }

  /** The loop building the listing, one entry per reminder of the page, in order. */
  method ListEntries(rs: seq<Reminder>) returns (list: seq<Json>)
    requires forall i :: 0 <= i < |rs| ==> InDatetimeRange(rs[i].createdAt)
    ensures |list| == |rs|
    ensures forall i :: 0 <= i < |list| ==> list[i] == ReminderEntry(rs[i])
  {
    list := [];
    for i := 0 to |rs|
      invariant |list| == i
      invariant forall j :: 0 <= j < i ==> list[j] == ReminderEntry(rs[j])
    {
      list := list + [ReminderEntry(rs[i])];
    }
  }

  /** The reminders `get_reminders` pages through. */
  function Listing(rs: seq<Reminder>, identity: int, vipId: Option<int>): seq<Reminder> {
    SortNewestFirst(Filter(rs, Mine(identity, vipId)))
  }

  /** The listing holds exactly the caller's reminders (for the requested VIP when one
      is given), newest first. */
  lemma ListingIsCallersNewestFirst(rs: seq<Reminder>, identity: int, vipId: Option<int>)
    ensures NewestFirst(Listing(rs, identity, vipId))
    ensures forall r :: r in Listing(rs, identity, vipId) <==>
              r in rs && r.guardianId == identity && (TruthyInt(vipId) ==> r.vipId == vipId.value)
    ensures |Listing(rs, identity, vipId)| == |Filter(rs, Mine(identity, vipId))|
  {
    var f := Filter(rs, Mine(identity, vipId));
    var l := Listing(rs, identity, vipId);
    FilterMembers(rs, Mine(identity, vipId));
    forall r ensures r in l <==> r in f {
      assert r in l <==> r in multiset(l);
      assert r in f <==> r in multiset(f);
    }
  }

  /** The reminders on the requested page, with `page` defaulting to 1 and `per_page`
      to 10 as the query string is read. */
  function Shown(rs: seq<Reminder>, identity: int, vipId: Option<int>, page: Option<int>, perPage: Option<int>): seq<Reminder> {
    var args := PageArgs(page.GetOr(1), perPage.GetOr(10));
    PageOf(Listing(rs, identity, vipId), args.0, args.1)
  }

  /** Reminders shown from a well-formed table carry representable times. */
  lemma ShownTimes(rs: seq<Reminder>, next: nat, identity: int, vipId: Option<int>, page: Option<int>, perPage: Option<int>)
    requires RemindersOk(rs, next)
    ensures var shown := Shown(rs, identity, vipId, page, perPage);
            forall i :: 0 <= i < |shown| ==> InDatetimeRange(shown[i].createdAt)
  {
    var shown := Shown(rs, identity, vipId, page, perPage);
    ListingIsCallersNewestFirst(rs, identity, vipId);
    forall i | 0 <= i < |shown| ensures InDatetimeRange(shown[i].createdAt) {
      assert shown[i] in Listing(rs, identity, vipId);
    }
  }

  /** `get_reminders`: page `page` (default 1) of the listing, `per_page` (default 10) to
      a page, with the listing's size as the total. A `per_page` of 0 makes the page count
      divide by zero, which the handler answers with 500. */
  method GetReminders(db: Database, identity: int, vipId: Option<int>, page: Option<int>, perPage: Option<int>)
    returns (reply: Reply, body: Option<Json>)
    requires db.Valid()
    ensures body.Some? <==> reply.status == 200
    ensures GuardianWithId(db.guardians, identity).None? ==> reply == Reply(404, NotFound)
    ensures GuardianWithId(db.guardians, identity).Some? && perPage.GetOr(10) == 0 ==> reply == Reply(500, Failed)
    ensures GuardianWithId(db.guardians, identity).Some? && perPage.GetOr(10) != 0 ==>
              && reply == Reply(200, Done)
              && (ShownTimes(db.reminders, db.nextReminderId, identity, vipId, page, perPage);
                  body == Some(SuccessResponse(
                    PaginatedResponse(JList(ReminderEntries(Shown(db.reminders, identity, vipId, page, perPage))),
                                      page.GetOr(1), perPage.GetOr(10), |Listing(db.reminders, identity, vipId)|).value,
                    "Success", 200).0))
  {
    if GuardianWithId(db.guardians, identity).None? {
      reply, body := Reply(404, NotFound), None;
    } else if perPage.GetOr(10) == 0 {
      reply, body := Reply(500, Failed), None;
    } else {
      var shown := Shown(db.reminders, identity, vipId, page, perPage);
      ShownTimes(db.reminders, db.nextReminderId, identity, vipId, page, perPage);
      var list := ListEntries(shown);
      assert list == ReminderEntries(shown);
      var total := |Listing(db.reminders, identity, vipId)|;
      var paged := PaginatedResponse(JList(list), page.GetOr(1), perPage.GetOr(10), total);
      reply, body := Reply(200, Done), Some(SuccessResponse(paged.value, "Success", 200).0);
    }
  }

  /** A page of a newest-first listing is newest first. */
  lemma PageKeepsOrder(l: seq<Reminder>, page: int, perPage: int)
    requires NewestFirst(l) && page >= 1 && perPage >= 1
    ensures NewestFirst(PageOf(l, page, perPage))
  {
    var shown := PageOf(l, page, perPage);
    var start := PageStart(page, perPage);
    forall i, j | 0 <= i < j < |shown| ensures shown[i].createdAt >= shown[j].createdAt {
      assert shown[i] == l[start + i] && shown[j] == l[start + j];
    }
  }

  /** A page holds only items of what it pages through. */
  lemma PageWithin<T>(s: seq<T>, page: int, perPage: int, x: T)
    requires page >= 1 && perPage >= 1
    requires x in PageOf(s, page, perPage)
    ensures x in s
  {
    var shown := PageOf(s, page, perPage);
    var i :| 0 <= i < |shown| && shown[i] == x;
    assert s[PageStart(page, perPage) + i] == x;
  }

  /** A page shows only the caller's reminders, newest first. */
  lemma PageIsCallersNewestFirst(rs: seq<Reminder>, identity: int, vipId: Option<int>, page: int, perPage: int)
    requires page >= 1 && perPage >= 1
    ensures var shown := PageOf(Listing(rs, identity, vipId), page, perPage);
            && NewestFirst(shown)
            && forall r :: r in shown ==> r in rs && r.guardianId == identity
  {
    var l := Listing(rs, identity, vipId);
    ListingIsCallersNewestFirst(rs, identity, vipId);
    PageKeepsOrder(l, page, perPage);
    forall r | r in PageOf(l, page, perPage) ensures r in rs && r.guardianId == identity {
      PageWithin(l, page, perPage, r);
    }
  }

  // ---------------------------------------------------------------------------
  // update_reminder and delete_reminder
  // ---------------------------------------------------------------------------

  /** The partial update: `message` and `reminder_time` when truthy, `is_active` when the
      key is sent; nothing else moves. */
  function Revised(r: Reminder, req: Request, isActive: Option<bool>): (r': Reminder)
    ensures r'.id == r.id && r'.guardianId == r.guardianId && r'.vipId == r.vipId && r'.createdAt == r.createdAt
    ensures r'.message == (if TruthyStr(Lookup(req, "message")) then Lookup(req, "message").value else r.message)
    ensures r'.time == (if TruthyStr(Lookup(req, "reminder_time")) then Lookup(req, "reminder_time").value else r.time)
    ensures r'.isActive == (if isActive.Some? then isActive.value else r.isActive)
  {
    var message := Lookup(req, "message");
    var time := Lookup(req, "reminder_time");
    var r1 := if TruthyStr(message) then r.(message := message.value) else r;
    var r2 := if TruthyStr(time) then r1.(time := time.value) else r1;
    if isActive.Some? then r2.(isActive := isActive.value) else r2
  }

  /** An empty update leaves the reminder as it was. */
  lemma EmptyUpdateIsIdentity(r: Reminder, req: Request)
    requires !TruthyStr(Lookup(req, "message")) && !TruthyStr(Lookup(req, "reminder_time"))
    ensures Revised(r, req, None) == r
  {
  }

  /** Rewriting one reminder in place with its key and timestamp kept keeps the table
      well formed. */
  lemma ReviseReminderOk(rs: seq<Reminder>, next: nat, k: nat, r: Reminder)
    requires RemindersOk(rs, next) && k < |rs| && r.id == rs[k].id && r.createdAt == rs[k].createdAt
    ensures RemindersOk(rs[k := r], next)
  {
    var rs' := rs[k := r];
    forall i | 0 <= i < |rs'| ensures rs'[i].id == rs[i].id && rs'[i].createdAt == rs[i].createdAt {
    }
  }

  /** The outcome of the ownership guard: the refusal, or the index of the reminder. */
  datatype Ownership = Refused(reply: Reply) | Owned(index: nat)

  /** The ownership guard shared by update and delete: the reminder's index when it
      exists and belongs to the caller, or the refusal. */
  function OwnedReminder(gs: seq<Guardian>, rs: seq<Reminder>, identity: int, reminderId: int): (r: Ownership)
    ensures r.Owned? ==> r.index < |rs| && rs[r.index].id == reminderId && rs[r.index].guardianId == identity
    ensures r.Owned? <==> (GuardianWithId(gs, identity).Some? && ReminderWithId(rs, reminderId).Some?
                           && rs[ReminderWithId(rs, reminderId).value].guardianId == identity)
    ensures r.Refused? && GuardianWithId(gs, identity).Some? && ReminderWithId(rs, reminderId).Some? ==> r.reply == Reply(403, Forbidden)
    ensures r.Refused? && (GuardianWithId(gs, identity).None? || ReminderWithId(rs, reminderId).None?) ==> r.reply == Reply(404, NotFound)
  {
    if GuardianWithId(gs, identity).None? then Refused(Reply(404, NotFound))
    else match ReminderWithId(rs, reminderId)
      case None => Refused(Reply(404, NotFound))
      case Some(k) => if rs[k].guardianId != identity then Refused(Reply(403, Forbidden)) else Owned(k)
  }

  /** `update_reminder`: only the owner may change a reminder, and only as `Revised`
      says. */
  method UpdateReminder(db: Database, identity: int, reminderId: int, req: Request, isActive: Option<bool>)
    returns (reply: Reply)
    requires db.Valid()
    modifies db`reminders
    ensures db.Valid()
    ensures match OwnedReminder(db.guardians, old(db.reminders), identity, reminderId)
            case Refused(refusal) => reply == refusal && db.reminders == old(db.reminders)
            case Owned(k) =>
              reply == Reply(200, Done) && db.reminders == old(db.reminders)[k := Revised(old(db.reminders)[k], req, isActive)]
  {
    var owned := OwnedReminder(db.guardians, db.reminders, identity, reminderId);
    if owned.Refused? {
      reply := owned.reply;
    } else {
      var k := owned.index;
      ReviseReminderOk(db.reminders, db.nextReminderId, k, Revised(db.reminders[k], req, isActive));
      db.reminders := db.reminders[k := Revised(db.reminders[k], req, isActive)];
      reply := Reply(200, Done);
    }
  }

  /** Removing a reminder keeps the table well formed. */
  lemma RemoveReminderOk(rs: seq<Reminder>, next: nat, k: nat)
    requires RemindersOk(rs, next) && k < |rs|
    ensures RemindersOk(RemoveAt(rs, k), next)
  {
    var r := RemoveAt(rs, k);
    forall i, j | 0 <= i < j < |r| ensures r[i].id != r[j].id {
      var i', j' := if i < k then i else i + 1, if j < k then j else j + 1;
      assert r[i] == rs[i'] && r[j] == rs[j'] && i' < j';
    }
  }

  /** `delete_reminder`: only the owner may delete a reminder, and exactly that one
      goes. */
  method DeleteReminder(db: Database, identity: int, reminderId: int) returns (reply: Reply)
    requires db.Valid()
    modifies db`reminders
    ensures db.Valid()
    ensures match OwnedReminder(db.guardians, old(db.reminders), identity, reminderId)
            case Refused(refusal) => reply == refusal && db.reminders == old(db.reminders)
            case Owned(k) => reply == Reply(200, Done) && db.reminders == RemoveAt(old(db.reminders), k)
  {
    var owned := OwnedReminder(db.guardians, db.reminders, identity, reminderId);
    if owned.Refused? {
      reply := owned.reply;
    } else {
      RemoveReminderOk(db.reminders, db.nextReminderId, owned.index);
      db.reminders := RemoveAt(db.reminders, owned.index);
      reply := Reply(200, Done);
    }
  }

  /** After a deletion the reminder's id is gone and every other reminder is still
      there. */
  lemma DeletedReminderGone(rs: seq<Reminder>, next: nat, k: nat, x: Reminder)
    requires RemindersOk(rs, next) && k < |rs|
    ensures ReminderWithId(RemoveAt(rs, k), rs[k].id).None?
    ensures x in RemoveAt(rs, k) <==> x in rs && x != rs[k]
  {
    var r := RemoveAt(rs, k);
    forall i | 0 <= i < |r| ensures r[i].id != rs[k].id {
      if i < k {
        assert r[i] == rs[i];
      } else {
        assert r[i] == rs[i + 1];
      }
    }
    RemoveAtKeepsOthers(rs, k, x);
    if x in rs && x != rs[k] {
      var j :| 0 <= j < |rs| && rs[j] == x;
      assert j != k;
    }
    if exists j :: 0 <= j < |rs| && j != k && rs[j] == x {
      var j :| 0 <= j < |rs| && j != k && rs[j] == x;
      assert rs[j].id != rs[k].id;
    }
  }

  /** Deleting a reminder shortens a listing by one exactly when the listing showed it. */
  lemma DeleteShrinksListing(rs: seq<Reminder>, k: nat, identity: int, vipId: Option<int>)
    requires k < |rs|
    ensures |Listing(RemoveAt(rs, k), identity, vipId)|
         == |Listing(rs, identity, vipId)| - (if rs[k].guardianId == identity && (TruthyInt(vipId) ==> rs[k].vipId == vipId.value) then 1 else 0)
  {
    ListingIsCallersNewestFirst(rs, identity, vipId);
    ListingIsCallersNewestFirst(RemoveAt(rs, k), identity, vipId);
    FilterRemove(rs, k, Mine(identity, vipId));
  }
}
