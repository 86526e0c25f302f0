/** Pairing a cane with a guardian by QR code (app/routes/device_pairing.py): issuing a
    short-lived pairing token for a device, and pairing, which creates the device's VIP
    on first use and links the caller to the device. */
module DevicePairingRoutes {
  import opened Common
  import opened Store

  /** Lifetime of a pairing token. */
  const PairingTokenLifetime: int := 300

  /** Length of `secrets.token_urlsafe(24)`: 24 random bytes in unpadded base64url. */
  const PairingTokenLength: nat := 32

  /** `generate_pairing_token`: the token and its expiry overwrite the device's previous
      ones; the token is the random draw. */
  method GeneratePairingToken(db: Database, identity: int, deviceId: Option<int>, serial: Option<string>, token: string, now: int)
    returns (reply: Reply)
    requires db.Valid() && |token| == PairingTokenLength
    modifies db`devices
    ensures db.Valid()
    ensures var ds := old(db.devices);
            if GuardianWithId(db.guardians, identity).None? then reply == Reply(404, NotFound) && db.devices == ds
            else match ResolveDevice(ds, deviceId, serial)
              case NoDeviceKey => reply == Reply(400, MissingInput) && db.devices == ds
              case UnknownDevice => reply == Reply(404, NotFound) && db.devices == ds
              case FoundDevice(d) =>
                && reply == Reply(201, Done)
                && db.devices == ds[d := ds[d].(pairingToken := Some(token), tokenExpiresAt := Some(now + PairingTokenLifetime))]
  {
    var key := ResolveDevice(db.devices, deviceId, serial);
    if GuardianWithId(db.guardians, identity).None? {
      reply := Reply(404, NotFound);
    } else if key.NoDeviceKey? {
      reply := Reply(400, MissingInput);
    } else if key.UnknownDevice? {
      reply := Reply(404, NotFound);
    } else {
      var d := key.index;
      TokenKeepsDevicesOk(db.devices, db.vips, d, token, now + PairingTokenLifetime);
      db.devices := db.devices[d := db.devices[d].(pairingToken := Some(token), tokenExpiresAt := Some(now + PairingTokenLifetime))];
      reply := Reply(201, Done);
    }
  }

  /** Storing a token changes neither a device's id, serial number nor VIP. */
  lemma TokenKeepsDevicesOk(ds: seq<Device>, vs: seq<Vip>, d: nat, token: string, expiresAt: int)
    requires DevicesOk(ds, vs) && d < |ds|
    ensures DevicesOk(ds[d := ds[d].(pairingToken := Some(token), tokenExpiresAt := Some(expiresAt))], vs)
  {
    var ds' := ds[d := ds[d].(pairingToken := Some(token), tokenExpiresAt := Some(expiresAt))];
    forall i | 0 <= i < |ds'| && ds'[i].vipId.Some?
      ensures exists k :: 0 <= k < |vs| && vs[k].id == ds'[i].vipId.value
    {
      assert ds'[i].vipId == ds[i].vipId;
    }
  }

  /** A newest token replaces any earlier one: only the last issued token is stored. */
  lemma LatestTokenWins(ds: seq<Device>, d: nat, t1: string, t2: string, e1: int, e2: int)
    requires d < |ds|
    ensures var once := ds[d := ds[d].(pairingToken := Some(t1), tokenExpiresAt := Some(e1))];
            var twice := once[d := once[d].(pairingToken := Some(t2), tokenExpiresAt := Some(e2))];
            twice == ds[d := ds[d].(pairingToken := Some(t2), tokenExpiresAt := Some(e2))]
  {
  }

  /** What `pair_device` decides before it writes: a refusal, or to link guardian `me`
      to device `d`, creating a VIP first when the device has none. */
  datatype PairPlan = Refuse(reply: Reply) | Pair(me: nat, d: nat, newVip: bool)

  /** The checks of `pair_device`, in the order the route makes them. */
  function PlanPairing(gs: seq<Guardian>, ds: seq<Device>, ls: seq<DeviceLink>, identity: int, req: Request): (p: PairPlan)
    ensures p.Pair? ==>
              && p.me < |gs| && gs[p.me].id == identity
              && p.d < |ds| && TruthyStr(Lookup(req, "device_serial_number"))
              && ds[p.d].serial == Lookup(req, "device_serial_number").value
              && LinkFor(ls, ds[p.d].id, gs[p.me].id).None?
              && (p.newVip <==> !TruthyInt(ds[p.d].vipId))
              && (p.newVip ==> TruthyStr(Lookup(req, "vip_name")))
    ensures p.Refuse? ==> p.reply.status == 400 || p.reply.status == 404
    ensures p.Refuse? && GuardianWithId(gs, identity).Some? && TruthyStr(Lookup(req, "device_serial_number"))
              && DeviceWithSerial(ds, Lookup(req, "device_serial_number").value).Some? ==>
              var d := DeviceWithSerial(ds, Lookup(req, "device_serial_number").value).value;
              || LinkFor(ls, ds[d].id, identity).Some?
              || (!TruthyInt(ds[d].vipId) && !TruthyStr(Lookup(req, "vip_name")))
  {
    var serial, name := Lookup(req, "device_serial_number"), Lookup(req, "vip_name");
    match GuardianWithId(gs, identity)
    case None => Refuse(Reply(404, NotFound))
    case Some(me) =>
      if !TruthyStr(serial) then Refuse(Reply(400, MissingField("device_serial_number")))
      else match DeviceWithSerial(ds, serial.value)
        case None => Refuse(Reply(404, NotFound))
        case Some(d) =>
          if LinkFor(ls, ds[d].id, gs[me].id).Some? then Refuse(Reply(400, AlreadyExists("pairing")))
          else if TruthyInt(ds[d].vipId) then Pair(me, d, false)
          else if !TruthyStr(name) then Refuse(Reply(400, MissingField("vip_name")))
          else Pair(me, d, true)
  }

  /** A planned pairing leaves the caller linked to the device exactly once, and the
      device with a VIP: the one it had, or the new one. */
  lemma {:induction false} PairingOutcome(gs: seq<Guardian>, ds: seq<Device>, ls: seq<DeviceLink>, nextLink: nat, nextVip: nat,
                                          identity: int, req: Request, now: int)
    requires LinksOk(ls, nextLink) && nextVip >= 1 && InDatetimeRange(now)
    requires PlanPairing(gs, ds, ls, identity, req).Pair?
    ensures var p := PlanPairing(gs, ds, ls, identity, req);
            var ds' := if p.newVip then ds[p.d := ds[p.d].(vipId := Some(nextVip))] else ds;
            var ls' := ls + [DeviceLink(nextLink, ds[p.d].id, gs[p.me].id, now)];
            && TruthyInt(ds'[p.d].vipId)
            && (!p.newVip ==> ds'[p.d].vipId == ds[p.d].vipId)
            && LinkFor(ls', ds[p.d].id, identity) == Some(|ls|)
            && GuardianHasDevice(ls', identity)
  {
    var p := PlanPairing(gs, ds, ls, identity, req);
    AssignedOnce(ls, nextLink, DeviceLink(nextLink, ds[p.d].id, gs[p.me].id, now));
  }

  /** `pair_device` for the signed-in guardian: a device without a VIP needs `vip_name`
      and gets a new VIP; one with a VIP keeps it, so every guardian of a cane shares
      its VIP. */
  method PairDevice(db: Database, identity: int, req: Request, now: int) returns (reply: Reply)
    requires db.Valid() && InDatetimeRange(now)
    modifies db`devices, db`vips, db`nextVipId, db`links, db`nextLinkId
    ensures db.Valid()
    ensures var plan := PlanPairing(db.guardians, old(db.devices), old(db.links), identity, req);
            plan.Refuse? ==>
              && reply == plan.reply
              && db.devices == old(db.devices) && db.vips == old(db.vips) && db.links == old(db.links)
              && db.nextVipId == old(db.nextVipId) && db.nextLinkId == old(db.nextLinkId)
    ensures var plan := PlanPairing(db.guardians, old(db.devices), old(db.links), identity, req);
            plan.Pair? ==>
              && reply == Reply(201, Done)
              && db.links == old(db.links) + [DeviceLink(old(db.nextLinkId), old(db.devices)[plan.d].id, db.guardians[plan.me].id, now)]
              && db.nextLinkId == old(db.nextLinkId) + 1
    ensures var plan := PlanPairing(db.guardians, old(db.devices), old(db.links), identity, req);
            plan.Pair? && !plan.newVip ==>
              db.devices == old(db.devices) && db.vips == old(db.vips) && db.nextVipId == old(db.nextVipId)
    ensures var plan := PlanPairing(db.guardians, old(db.devices), old(db.links), identity, req);
            plan.Pair? && plan.newVip ==>
              && db.vips == old(db.vips) + [Vip(old(db.nextVipId), Lookup(req, "vip_name").value, Lookup(req, "vip_address"), now)]
              && db.nextVipId == old(db.nextVipId) + 1
              && db.devices == old(db.devices)[plan.d := old(db.devices)[plan.d].(vipId := Some(old(db.nextVipId)))]
  {
    var plan := PlanPairing(db.guardians, db.devices, db.links, identity, req);
    if plan.Refuse? {
      reply := plan.reply;
    } else {
      if plan.newVip {
        var _ := db.AttachNewVip(plan.d, Lookup(req, "vip_name").value, Lookup(req, "vip_address"), now);
      }
      var _ := db.AddLink(db.devices[plan.d].id, db.guardians[plan.me].id, now);
      reply := Reply(201, Done);
    }
  }
}
