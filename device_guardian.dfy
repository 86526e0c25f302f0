/** Assigning guardians to devices (app/routes/device_guardian.py): creating a link,
    listing the links of a device or of a guardian, and removing a link. */
module DeviceGuardianRoutes {
  import opened Common
  import opened Store
  import opened Responses
  import opened Serializer

  /** `assign_guardian`: the device is named by id or, when the id is falsy, by serial
      number; the guardian by `guardian_id` (a null id finds no guardian). */
  method AssignGuardian(db: Database, identity: int, deviceId: Option<int>, guardianId: Option<int>, serial: Option<string>, now: int)
    returns (reply: Reply)
    requires db.Valid() && InDatetimeRange(now)
    modifies db`links, db`nextLinkId
    ensures db.Valid()
    ensures var ls, next := old(db.links), old(db.nextLinkId);
            var same := db.links == ls && db.nextLinkId == next;
            if GuardianWithId(db.guardians, identity).None? then reply == Reply(404, NotFound) && same
            else match ResolveDevice(db.devices, deviceId, serial)
              case NoDeviceKey => reply == Reply(400, MissingInput) && same
              case UnknownDevice => reply == Reply(404, NotFound) && same
              case FoundDevice(d) =>
                if guardianId.None? || GuardianWithId(db.guardians, guardianId.value).None? then
                  reply == Reply(404, NotFound) && same
                else if LinkFor(ls, db.devices[d].id, guardianId.value).Some? then
                  reply == Reply(400, AlreadyExists("assignment")) && same
                else
                  && reply == Reply(201, Created(next))
                  && db.links == ls + [DeviceLink(next, db.devices[d].id, guardianId.value, now)]
                  && db.nextLinkId == next + 1
  {
    var key := ResolveDevice(db.devices, deviceId, serial);
    if GuardianWithId(db.guardians, identity).None? {
      reply := Reply(404, NotFound);
    } else if key.NoDeviceKey? {
      reply := Reply(400, MissingInput);
    } else if key.UnknownDevice? {
      reply := Reply(404, NotFound);
    } else if guardianId.None? || GuardianWithId(db.guardians, guardianId.value).None? {
      reply := Reply(404, NotFound);
    } else if LinkFor(db.links, db.devices[key.index].id, guardianId.value).Some? {
      reply := Reply(400, AlreadyExists("assignment"));
    } else {
      var g := GuardianWithId(db.guardians, guardianId.value).value;
      var id := db.AddLink(db.devices[key.index].id, db.guardians[g].id, now);
      reply := Reply(201, Created(id));
    }
  }

  function OnDevice(deviceId: int): DeviceLink -> bool {
    (l: DeviceLink) => l.deviceId == deviceId
  }

  function OfGuardian(guardianId: int): DeviceLink -> bool {
    (l: DeviceLink) => l.guardianId == guardianId
  }

  /** An entry of a device's listing: the link and its guardian's name. */
  function DeviceLinkEntry(gs: seq<Guardian>, l: DeviceLink): Json
    requires InDatetimeRange(l.assignedAt)
  {
    var name := match GuardianWithId(gs, l.guardianId)
      case None => JNull
      case Some(k) => OptText(gs[k].name);
    JObject([("id", JInt(l.id)), ("guardian_id", JInt(l.guardianId)), ("guardian_name", name),
             ("assigned_at", JStr(IsoFormat(l.assignedAt)))])
  }

  /** An entry of a guardian's listing: the link and its device's serial number. */
  function GuardianLinkEntry(ds: seq<Device>, l: DeviceLink): Json
    requires InDatetimeRange(l.assignedAt)
  {
    var serial := match DeviceWithId(ds, l.deviceId)
      case None => JNull
      case Some(k) => JStr(ds[k].serial);
    JObject([("id", JInt(l.id)), ("device_id", JInt(l.deviceId)), ("device_serial_number", serial),
             ("assigned_at", JStr(IsoFormat(l.assignedAt)))])
  }

  /** The links a listing shows: a device's when `device_id` is truthy, otherwise a
      guardian's when `guardian_id` is truthy. */
  function ListedLinks(ls: seq<DeviceLink>, deviceId: Option<int>, guardianId: Option<int>): (r: seq<DeviceLink>)
    ensures forall l :: l in r <==>
              l in ls && (if TruthyInt(deviceId) then l.deviceId == deviceId.value
                          else TruthyInt(guardianId) && l.guardianId == guardianId.value)
  {
    if TruthyInt(deviceId) then FilterMembers(ls, OnDevice(deviceId.value)); Filter(ls, OnDevice(deviceId.value))
    else if TruthyInt(guardianId) then FilterMembers(ls, OfGuardian(guardianId.value)); Filter(ls, OfGuardian(guardianId.value))
    else []
  }

  /** The listing's entries, one per link in order. */
  function Entries(gs: seq<Guardian>, ds: seq<Device>, links: seq<DeviceLink>, byDevice: bool): (r: seq<Json>)
    requires forall i :: 0 <= i < |links| ==> InDatetimeRange(links[i].assignedAt)
    ensures |r| == |links|
    ensures forall i :: 0 <= i < |links| ==>
              r[i] == if byDevice then DeviceLinkEntry(gs, links[i]) else GuardianLinkEntry(ds, links[i])
  {
    if byDevice then seq(|links|, i requires 0 <= i < |links| => DeviceLinkEntry(gs, links[i]))
    else seq(|links|, i requires 0 <= i < |links| => GuardianLinkEntry(ds, links[i]))
  }

  /** Links taken from a well-formed table carry representable times. */
  lemma ListedLinksTimes(ls: seq<DeviceLink>, next: nat, deviceId: Option<int>, guardianId: Option<int>)
    requires LinksOk(ls, next)
    ensures var listed := ListedLinks(ls, deviceId, guardianId);
            forall i :: 0 <= i < |listed| ==> InDatetimeRange(listed[i].assignedAt)
  {
    var listed := ListedLinks(ls, deviceId, guardianId);
    forall i | 0 <= i < |listed| ensures InDatetimeRange(listed[i].assignedAt) {
      assert listed[i] in ls;
    }
  }

  /** `list_assignments`: `device_id` takes precedence over `guardian_id`; with neither
      the request is refused. */
  method ListAssignments(db: Database, identity: int, deviceId: Option<int>, guardianId: Option<int>)
    returns (reply: Reply, data: Option<seq<Json>>)
    requires db.Valid()
    ensures data.Some? <==> reply.status == 200
    ensures GuardianWithId(db.guardians, identity).None? ==> reply == Reply(404, NotFound)
    ensures GuardianWithId(db.guardians, identity).Some? && !TruthyInt(deviceId) && !TruthyInt(guardianId) ==>
              reply == Reply(400, MissingInput)
    ensures GuardianWithId(db.guardians, identity).Some? && (TruthyInt(deviceId) || TruthyInt(guardianId)) ==>
              && reply == Reply(200, Done)
              && (ListedLinksTimes(db.links, db.nextLinkId, deviceId, guardianId);
                  data == Some(Entries(db.guardians, db.devices, ListedLinks(db.links, deviceId, guardianId), TruthyInt(deviceId))))
  {
    if GuardianWithId(db.guardians, identity).None? {
      return Reply(404, NotFound), None;
    }
    if !TruthyInt(deviceId) && !TruthyInt(guardianId) {
      return Reply(400, MissingInput), None;
    }
    var links := ListedLinks(db.links, deviceId, guardianId);
    ListedLinksTimes(db.links, db.nextLinkId, deviceId, guardianId);
    return Reply(200, Done), Some(Entries(db.guardians, db.devices, links, TruthyInt(deviceId)));
  }

  /** `remove_assignment`: any signed-in guardian may remove any link. */
  method RemoveAssignment(db: Database, identity: int, linkId: int) returns (reply: Reply)
    requires db.Valid()
    modifies db`links
    ensures db.Valid()
    ensures if GuardianWithId(db.guardians, identity).None? then reply == Reply(404, NotFound) && db.links == old(db.links)
            else match LinkWithId(old(db.links), linkId)
              case None => reply == Reply(404, NotFound) && db.links == old(db.links)
              case Some(k) => reply == Reply(200, Done) && db.links == RemoveAt(old(db.links), k)
  {
    if GuardianWithId(db.guardians, identity).None? {
      return Reply(404, NotFound);
    }
    var found := LinkWithId(db.links, linkId);
    if found.None? {
      return Reply(404, NotFound);
    }
    RemoveLinkOk(db.links, db.nextLinkId, found.value);
    db.links := RemoveAt(db.links, found.value);
    reply := Reply(200, Done);
  }

  /** Removing a link keeps the table well formed. */
  lemma RemoveLinkOk(ls: seq<DeviceLink>, next: nat, k: nat)
    requires LinksOk(ls, next) && k < |ls|
    ensures LinksOk(RemoveAt(ls, k), next)
  {
    var r := RemoveAt(ls, k);
    forall i, j | 0 <= i < j < |r|
      ensures r[i].id != r[j].id
      ensures r[i].deviceId != r[j].deviceId || r[i].guardianId != r[j].guardianId
    {
      var i', j' := if i < k then i else i + 1, if j < k then j else j + 1;
      assert r[i] == ls[i'] && r[j] == ls[j'] && i' < j';
    }
  }

  /** After a removal the link is gone and every other link is still there. */
  lemma RemovedLinkGone(ls: seq<DeviceLink>, next: nat, k: nat, l: DeviceLink)
    requires LinksOk(ls, next) && k < |ls|
    ensures LinkWithId(RemoveAt(ls, k), ls[k].id).None?
    ensures l in RemoveAt(ls, k) <==> l in ls && l != ls[k]
  {
    var r := RemoveAt(ls, k);
    forall i | 0 <= i < |r| ensures r[i].id != ls[k].id {
      if i < k {
        assert r[i] == ls[i];
      } else {
        assert r[i] == ls[i + 1];
      }
    }
    RemoveAtKeepsOthers(ls, k, l);
    if l in ls && l != ls[k] {
      var j :| 0 <= j < |ls| && ls[j] == l;
      assert j != k;
    }
    if exists j :: 0 <= j < |ls| && j != k && ls[j] == l {
      var j :| 0 <= j < |ls| && j != k && ls[j] == l;
      if j < k {
        assert ls[j].id != ls[k].id;
      } else {
        assert ls[k].id != ls[j].id;
      }
    }
  }
}
