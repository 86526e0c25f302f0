/** The guardian profile routes (app/routes/guardian.py) behind the `guardian_required`
    decorator (app/utils/auth.py): listing a VIP's guardians, reading a profile and
    updating one's own profile. */
module GuardianRoutes {
  import opened Common
  import opened Store
  import opened Responses
  import opened Serializer

  // ---------------------------------------------------------------------------
  // Reading
  // ---------------------------------------------------------------------------

  /** The entry `get_guardians_by_vip` lists for a guardian. */
  function GuardianSummary(g: Guardian): (j: Json)
    requires InDatetimeRange(g.createdAt)
  {
    JObject([
      ("guardian_id", JInt(g.id)),
      ("username", JStr(g.username)),
      ("guardian_name", OptText(g.name)),
      ("email", JStr(g.email)),
      ("contact_number", OptText(g.contact)),
      ("relationship_to_vip", OptText(g.relationship)),
      ("guardian_image_url", OptText(g.imageUrl)),
      ("created_at", JStr(IsoFormat(g.createdAt)))])
  }

  /** The profile `get_guardian` returns. */
  function GuardianDetail(g: Guardian): (j: Json)
    requires InDatetimeRange(g.createdAt)
  {
    JObject([
      ("guardian_id", JInt(g.id)),
      ("username", JStr(g.username)),
      ("guardian_name", OptText(g.name)),
      ("email", JStr(g.email)),
      ("contact_number", OptText(g.contact)),
      ("relationship_to_vip", OptText(g.relationship)),
      ("province", OptText(g.province)),
      ("city", OptText(g.city)),
      ("barangay", OptText(g.barangay)),
      ("street_address", OptText(g.streetAddress)),
      ("guardian_image_url", OptText(g.imageUrl)),
      ("created_at", JStr(IsoFormat(g.createdAt)))])
  }

  /** Neither view of a guardian carries its password hash. */
  lemma ViewsHidePassword(g: Guardian)
    requires InDatetimeRange(g.createdAt)
    ensures !HasKey(GuardianSummary(g).entries, "password") && !HasKey(GuardianDetail(g).entries, "password")
  {
    var s, d := GuardianSummary(g).entries, GuardianDetail(g).entries;
    assert forall i :: 0 <= i < |s| ==> s[i].0 != "password";
    assert forall i :: 0 <= i < |d| ==> d[i].0 != "password";
  }

  /** The listing entry carries the guardian's id. */
  lemma SummaryShowsId(g: Guardian)
    requires InDatetimeRange(g.createdAt)
    ensures Get(GuardianSummary(g).entries, "guardian_id") == Some(JInt(g.id))
  {
    var s := GuardianSummary(g).entries;
    assert s == [s[0]] + s[1..];
    GetCons(s[0], s[1..], "guardian_id");
  }

  /** The profile carries the guardian's e-mail. */
  lemma {:induction false} DetailShowsEmail(g: Guardian)
    requires InDatetimeRange(g.createdAt)
    ensures Get(GuardianDetail(g).entries, "email") == Some(JStr(g.email))
  {
    var d := GuardianDetail(g).entries;
    var d3 := [d[3]] + d[4..];
    var d2 := [d[2]] + d3;
    var d1 := [d[1]] + d2;
    assert d == [d[0]] + d1;
    GetCons(d[0], d1, "email");
    GetCons(d[1], d2, "email");
    GetCons(d[2], d3, "email");
    GetCons(d[3], d[4..], "email");
  }

  function HasVip(vipId: int): Guardian -> bool {
    (g: Guardian) => g.vipId == Some(vipId)
  }

  /** The loop building the listing, one summary per guardian in order. */
  method Summaries(guardians: seq<Guardian>) returns (list: seq<Json>)
    requires forall i :: 0 <= i < |guardians| ==> InDatetimeRange(guardians[i].createdAt)
    ensures |list| == |guardians|
    ensures forall i :: 0 <= i < |list| ==> list[i] == GuardianSummary(guardians[i])
  {
    list := [];
    for i := 0 to |guardians|
      invariant |list| == i
      invariant forall j :: 0 <= j < i ==> list[j] == GuardianSummary(guardians[j])
    {
      list := list + [GuardianSummary(guardians[i])];
    }
  }

  /** `get_guardians_by_vip`: the guardians whose `vip_id` is the requested one, in table
      order. */
  method GetGuardiansByVip(db: Database, identity: int, vipId: Option<int>) returns (reply: Reply, data: Option<seq<Json>>)
    requires db.Valid()
    ensures data.Some? <==> reply.status == 200
    ensures GuardianWithId(db.guardians, identity).None? ==> reply == Reply(404, NotFound)
    ensures GuardianWithId(db.guardians, identity).Some? && !TruthyInt(vipId) ==> reply == Reply(400, MissingInput)
    ensures GuardianWithId(db.guardians, identity).Some? && TruthyInt(vipId) ==>
              var listed := Filter(db.guardians, HasVip(vipId.value));
              && reply == Reply(200, Done)
              && |data.value| == |listed|
              && (forall g :: g in listed <==> g in db.guardians && g.vipId == vipId)
              && forall i :: 0 <= i < |listed| ==> data.value[i] == GuardianSummary(listed[i])
  {
    if GuardianWithId(db.guardians, identity).None? {
      return Reply(404, NotFound), None;
    }
    if !TruthyInt(vipId) {
      return Reply(400, MissingInput), None;
    }
    var listed := Filter(db.guardians, HasVip(vipId.value));
    FilterMembers(db.guardians, HasVip(vipId.value));
    forall i | 0 <= i < |listed| ensures InDatetimeRange(listed[i].createdAt) {
      assert listed[i] in db.guardians;
    }
    var list := Summaries(listed);
    return Reply(200, Done), Some(list);
  }

  /** `get_guardian`: any signed-in guardian may read any profile. */
  method GetGuardian(db: Database, identity: int, guardianId: int) returns (reply: Reply, data: Option<Json>)
    requires db.Valid()
    ensures data.Some? <==> reply.status == 200
    ensures GuardianWithId(db.guardians, identity).None? ==> reply == Reply(404, NotFound)
    ensures GuardianWithId(db.guardians, identity).Some? ==>
              match GuardianWithId(db.guardians, guardianId)
              case None => reply == Reply(404, NotFound)
              case Some(k) => reply == Reply(200, Done) && data == Some(GuardianDetail(db.guardians[k]))
  {
    if GuardianWithId(db.guardians, identity).None? {
      return Reply(404, NotFound), None;
    }
    var found := GuardianWithId(db.guardians, guardianId);
    if found.None? {
      return Reply(404, NotFound), None;
    }
    return Reply(200, Done), Some(GuardianDetail(db.guardians[found.value]));
  }

  // ---------------------------------------------------------------------------
  // Updating
  // ---------------------------------------------------------------------------

  const UpdatableFields: seq<string> :=
    ["guardian_name", "email", "contact_number",
     "province", "city", "barangay", "village", "street_address", "guardian_image_url"]

  /** A profile being edited: the row, and the e-mail it will be committed with, which
      the request may have set to null. */
  datatype Edit = Edit(row: Guardian, email: Option<string>)

  /** The value an edit holds for one of the updatable fields. */
  function FieldOf(e: Edit, field: string): Option<string> {
    match field
    case "guardian_name" => e.row.name
    case "email" => e.email
    case "contact_number" => e.row.contact
    case "province" => e.row.province
    case "city" => e.row.city
    case "barangay" => e.row.barangay
    case "village" => e.row.village
    case "street_address" => e.row.streetAddress
    case "guardian_image_url" => e.row.imageUrl
    case _ => None
  }

  /** `setattr(guardian, field, value)` for one updatable field. */
  function SetField(e: Edit, field: string, v: Option<string>): (r: Edit)
    requires field in UpdatableFields
    ensures FieldOf(r, field) == v
  {
    match field
    case "guardian_name" => e.(row := e.row.(name := v))
    case "email" => e.(email := v)
    case "contact_number" => e.(row := e.row.(contact := v))
    case "province" => e.(row := e.row.(province := v))
    case "city" => e.(row := e.row.(city := v))
    case "barangay" => e.(row := e.row.(barangay := v))
    case "village" => e.(row := e.row.(village := v))
    case "street_address" => e.(row := e.row.(streetAddress := v))
    case "guardian_image_url" => e.(row := e.row.(imageUrl := v))
  }

  /** The whitelist loop's effect after visiting `fields`: each field the request names
      is set to the request's value. */
  function ApplyEdits(e: Edit, req: Request, fields: seq<string>): Edit
    requires forall i :: 0 <= i < |fields| ==> fields[i] in UpdatableFields
  {
    if fields == [] then e
    else
      var init, last := fields[..|fields| - 1], fields[|fields| - 1];
      var e' := ApplyEdits(e, req, init);
      if last in req then SetField(e', last, req[last]) else e'
  }

  /** The loop over the updatable fields. */
  method EditProfile(g: Guardian, req: Request) returns (e: Edit)
    ensures e == ApplyEdits(Edit(g, Some(g.email)), req, UpdatableFields)
  {
    e := Edit(g, Some(g.email));
    for i := 0 to |UpdatableFields|
      invariant e == ApplyEdits(Edit(g, Some(g.email)), req, UpdatableFields[..i])
    {
      var field := UpdatableFields[i];
      assert UpdatableFields[..i + 1][..i] == UpdatableFields[..i];
      if field in req {
        e := SetField(e, field, req[field]);
      }
    }
    assert UpdatableFields[..|UpdatableFields|] == UpdatableFields;
  }

  /** Setting one field leaves every other updatable field as it was. */
  lemma SetFieldOnly(e: Edit, field: string, v: Option<string>, other: string)
    requires field in UpdatableFields && other != field
    ensures FieldOf(SetField(e, field, v), other) == FieldOf(e, other)
  {
  }

  /** After the loop, a field takes the request's value when the request names it and
      keeps its old value otherwise. */
  lemma {:induction false} EditsTakeRequestValues(e: Edit, req: Request, fields: seq<string>, f: string)
    requires forall i :: 0 <= i < |fields| ==> fields[i] in UpdatableFields
    ensures FieldOf(ApplyEdits(e, req, fields), f) == if f in fields && f in req then req[f] else FieldOf(e, f)
  {
    if fields != [] {
      var init, last := fields[..|fields| - 1], fields[|fields| - 1];
      EditsTakeRequestValues(e, req, init, f);
      assert fields == init + [last];
      if last in req && last != f {
        SetFieldOnly(ApplyEdits(e, req, init), last, req[last], f);
      }
    }
  }

  /** The loop never touches the id, username, password, role, VIP, relationship or
      creation time. */
  lemma {:induction false} EditsKeepIdentity(e: Edit, req: Request, fields: seq<string>)
    requires forall i :: 0 <= i < |fields| ==> fields[i] in UpdatableFields
    ensures var r := ApplyEdits(e, req, fields).row;
            && r.id == e.row.id && r.username == e.row.username && r.password == e.row.password
            && r.role == e.row.role && r.vipId == e.row.vipId && r.relationship == e.row.relationship
            && r.createdAt == e.row.createdAt && r.email == e.row.email
  {
    if fields != [] {
      EditsKeepIdentity(e, req, fields[..|fields| - 1]);
    }
  }

  /** `filter(Guardian.email == email, Guardian.guardian_id != id).first()`. */
  function OtherWithEmail(gs: seq<Guardian>, email: string, id: int): (r: Option<nat>)
    ensures r.None? <==> forall i :: 0 <= i < |gs| ==> gs[i].email != email || gs[i].id == id
  {
    FirstIndex(gs, (g: Guardian) => g.email == email && g.id != id)
  }

  /** `filter(Guardian.username == username, Guardian.guardian_id != id).first()`. */
  function OtherWithUsername(gs: seq<Guardian>, username: string, id: int): (r: Option<nat>)
    ensures r.None? <==> forall i :: 0 <= i < |gs| ==> gs[i].username != username || gs[i].id == id
  {
    FirstIndex(gs, (g: Guardian) => g.username == username && g.id != id)
  }

  /** The commit succeeds when the e-mail is not null and no other guardian holds it
      (the column is non-null and unique). */
  predicate Committable(gs: seq<Guardian>, k: nat, email: Option<string>) {
    email.Some? && forall j :: 0 <= j < |gs| && j != k ==> gs[j].email != email.value
  }

  /** The row stored by a successful update: the edited fields, then the new password if
      one was given. */
  function Updated(e: Edit, req: Request): Guardian
    requires e.email.Some?
  {
    var row := e.row.(email := e.email.value);
    if TruthyStr(Lookup(req, "password")) then row.(password := Hash(Lookup(req, "password").value)) else row
  }

  /** `update_guardian`: a guardian may update only its own profile. */
  method UpdateGuardian(db: Database, identity: int, guardianId: int, req: Request) returns (reply: Reply)
    requires db.Valid()
    modifies db`guardians
    ensures db.Valid()
    ensures var gs := old(db.guardians);
            match GuardianWithId(gs, identity)
            case None => reply == Reply(404, NotFound) && db.guardians == gs
            case Some(k) =>
              var email, username := Lookup(req, "email"), Lookup(req, "username");
              var e := ApplyEdits(Edit(gs[k], Some(gs[k].email)), req, UpdatableFields);
              if gs[k].id != guardianId then
                reply == Reply(403, Forbidden) && db.guardians == gs
              else if TruthyStr(email) && OtherWithEmail(gs, email.value, guardianId).Some? then
                reply == Reply(400, AlreadyExists("email")) && db.guardians == gs
              else if TruthyStr(username) && OtherWithUsername(gs, username.value, guardianId).Some? then
                reply == Reply(400, AlreadyExists("username")) && db.guardians == gs
              else if !Committable(gs, k, e.email) then
                reply == Reply(500, CommitFailed) && db.guardians == gs
              else
                reply == Reply(200, Done) && db.guardians == gs[k := Updated(e, req)]
  {
    var me := GuardianWithId(db.guardians, identity);
    if me.None? {
      return Reply(404, NotFound);
    }
    var k := me.value;
    if db.guardians[k].id != guardianId {
      return Reply(403, Forbidden);
    }
    var email, username := Lookup(req, "email"), Lookup(req, "username");
    if TruthyStr(email) && OtherWithEmail(db.guardians, email.value, guardianId).Some? {
      return Reply(400, AlreadyExists("email"));
    }
    if TruthyStr(username) && OtherWithUsername(db.guardians, username.value, guardianId).Some? {
      return Reply(400, AlreadyExists("username"));
    }
    var e := EditProfile(db.guardians[k], req);
    if !Committable(db.guardians, k, e.email) {
      // the unique or non-null constraint on `email` fails the commit, which is rolled back
      return Reply(500, CommitFailed);
    }
    var row := Updated(e, req);
    EditsKeepIdentity(Edit(db.guardians[k], Some(db.guardians[k].email)), req, UpdatableFields);
    UpdatedStaysOk(db.guardians, db.nextGuardianId, k, e, req);
    db.guardians := db.guardians[k := row];
    reply := Reply(200, Done);
  }

  /** A committed update keeps the guardian table well formed. */
  lemma UpdatedStaysOk(gs: seq<Guardian>, next: nat, k: nat, e: Edit, req: Request)
    requires GuardiansOk(gs, next) && k < |gs|
    requires Committable(gs, k, e.email)
    requires e.row.id == gs[k].id && e.row.username == gs[k].username && e.row.createdAt == gs[k].createdAt
    ensures GuardiansOk(gs[k := Updated(e, req)], next)
  {
  }

  /** A successful update changes the profile fields the request names, keeps the others,
      and never changes the username, even when the request supplies a new one. */
  lemma UpdateEffect(g: Guardian, req: Request, f: string)
    requires f in UpdatableFields && f != "email"
    ensures var e := ApplyEdits(Edit(g, Some(g.email)), req, UpdatableFields);
            && FieldOf(e, f) == (if f in req then req[f] else FieldOf(Edit(g, Some(g.email)), f))
            && (e.email.Some? ==> Updated(e, req).username == g.username && Updated(e, req).id == g.id)
  {
    EditsTakeRequestValues(Edit(g, Some(g.email)), req, UpdatableFields, f);
    EditsKeepIdentity(Edit(g, Some(g.email)), req, UpdatableFields);
  }

  /** The e-mail an update commits is the request's when it names one, and the old one
      otherwise. */
  lemma UpdateEmail(g: Guardian, req: Request)
    ensures ApplyEdits(Edit(g, Some(g.email)), req, UpdatableFields).email
         == if "email" in req then req["email"] else Some(g.email)
  {
    EditsTakeRequestValues(Edit(g, Some(g.email)), req, UpdatableFields, "email");
  }
}
