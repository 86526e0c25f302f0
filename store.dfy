/** The tables the routes read and write (app/models.py, with the columns the routes
    rely on that the declared schema lacks), held by one `Database` object whose
    sequence fields the handlers reassign. Time is integer seconds since the epoch. */
module Store {
  import opened Common

  /** A stored password hash; only its relation to the password that produced it is modelled. */
  datatype PasswordHash = Hashed(image: string)

  /** `set_password`: the hash of a password. */
  function Hash(password: string): (h: PasswordHash)
    ensures h.image == password
  {
    Hashed(password)
  }

  /** `check_password`: accepts exactly the password the hash was made from. */
  predicate CheckPassword(h: PasswordHash, password: string) {
    h == Hash(password)
  }

  datatype Guardian = Guardian(
    id: nat,
    username: string,
    password: PasswordHash,
    name: Option<string>,
    imageUrl: Option<string>,
    email: string,
    contact: Option<string>,
    relationship: Option<string>,
    province: Option<string>,
    city: Option<string>,
    barangay: Option<string>,
    village: Option<string>,
    streetAddress: Option<string>,
    role: string,
    vipId: Option<int>,
    createdAt: int)

  /** A failed login, kept for the lockout policy; both columns may be null. */
  datatype LoginAttempt = LoginAttempt(username: Option<string>, ip: Option<string>, createdAt: int)

  /** A one-time code; `purpose` is whatever tag the request carried (possibly null). */
  datatype OtpRecord = OtpRecord(
    email: string,
    code: string,
    purpose: Option<string>,
    isUsed: bool,
    createdAt: int,
    expiresAt: int,
    usedAt: Option<int>)

  datatype Device = Device(
    id: nat,
    vipId: Option<int>,
    serial: string,
    pairingToken: Option<string>,
    tokenExpiresAt: Option<int>)

  datatype Vip = Vip(id: nat, name: string, streetAddress: Option<string>, createdAt: int)

  datatype DeviceLink = DeviceLink(id: nat, deviceId: nat, guardianId: nat, assignedAt: int)

  datatype Reminder = Reminder(
    id: nat,
    guardianId: nat,
    vipId: int,
    message: string,
    time: string,
    isActive: bool,
    createdAt: int)

  // ---------------------------------------------------------------------------
  // Lookups (`Model.query.get(...)`, `filter_by(...).first()`)
  // ---------------------------------------------------------------------------

  function GuardianWithId(gs: seq<Guardian>, id: int): (r: Option<nat>)
    ensures r.Some? ==> r.value < |gs| && gs[r.value].id == id
    ensures r.None? <==> forall i :: 0 <= i < |gs| ==> gs[i].id != id
  {
    FirstIndex(gs, (g: Guardian) => g.id == id)
  }

  function GuardianWithUsername(gs: seq<Guardian>, username: string): (r: Option<nat>)
    ensures r.Some? ==> r.value < |gs| && gs[r.value].username == username
    ensures r.None? <==> forall i :: 0 <= i < |gs| ==> gs[i].username != username
  {
    FirstIndex(gs, (g: Guardian) => g.username == username)
  }

  function GuardianWithEmail(gs: seq<Guardian>, email: string): (r: Option<nat>)
    ensures r.Some? ==> r.value < |gs| && gs[r.value].email == email
    ensures r.None? <==> forall i :: 0 <= i < |gs| ==> gs[i].email != email
  {
    FirstIndex(gs, (g: Guardian) => g.email == email)
  }

  function GuardianWithContact(gs: seq<Guardian>, contact: string): (r: Option<nat>)
    ensures r.Some? ==> r.value < |gs| && gs[r.value].contact == Some(contact)
    ensures r.None? <==> forall i :: 0 <= i < |gs| ==> gs[i].contact != Some(contact)
  {
    FirstIndex(gs, (g: Guardian) => g.contact == Some(contact))
  }

  function DeviceWithId(ds: seq<Device>, id: int): (r: Option<nat>)
    ensures r.Some? ==> r.value < |ds| && ds[r.value].id == id
    ensures r.None? <==> forall i :: 0 <= i < |ds| ==> ds[i].id != id
  {
    FirstIndex(ds, (d: Device) => d.id == id)
  }

  function DeviceWithSerial(ds: seq<Device>, serial: string): (r: Option<nat>)
    ensures r.Some? ==> r.value < |ds| && ds[r.value].serial == serial
    ensures r.None? <==> forall i :: 0 <= i < |ds| ==> ds[i].serial != serial
  {
    FirstIndex(ds, (d: Device) => d.serial == serial)
  }

  function LinkWithId(ls: seq<DeviceLink>, id: int): (r: Option<nat>)
    ensures r.Some? ==> r.value < |ls| && ls[r.value].id == id
    ensures r.None? <==> forall i :: 0 <= i < |ls| ==> ls[i].id != id
  {
    FirstIndex(ls, (l: DeviceLink) => l.id == id)
  }

  function LinkFor(ls: seq<DeviceLink>, deviceId: int, guardianId: int): (r: Option<nat>)
    ensures r.Some? ==> r.value < |ls| && ls[r.value].deviceId == deviceId && ls[r.value].guardianId == guardianId
    ensures r.None? <==> forall i :: 0 <= i < |ls| ==> ls[i].deviceId != deviceId || ls[i].guardianId != guardianId
  {
    FirstIndex(ls, (l: DeviceLink) => l.deviceId == deviceId && l.guardianId == guardianId)
  }

  function ReminderWithId(rs: seq<Reminder>, id: int): (r: Option<nat>)
    ensures r.Some? ==> r.value < |rs| && rs[r.value].id == id
    ensures r.None? <==> forall i :: 0 <= i < |rs| ==> rs[i].id != id
  {
    FirstIndex(rs, (x: Reminder) => x.id == id)
  }

  /** Some device is linked to the guardian (`DeviceGuardian.query.filter_by(guardian_id=...).first()`
      is not None). */
  predicate GuardianHasDevice(ls: seq<DeviceLink>, guardianId: int) {
    exists i :: 0 <= i < |ls| && ls[i].guardianId == guardianId
  }

  /** How a request names a device: by `device_id`, or by `device_serial_number` when the
      id is falsy; neither is an error, and a serial or id naming no device is another. */
  datatype DeviceKey = NoDeviceKey | UnknownDevice | FoundDevice(index: nat)

  /** The device resolution shared by `assign_guardian` and `generate_pairing_token`. */
  function ResolveDevice(ds: seq<Device>, deviceId: Option<int>, serial: Option<string>): (r: DeviceKey)
    ensures r.NoDeviceKey? <==> !TruthyInt(deviceId) && !TruthyStr(serial)
    ensures r.FoundDevice? ==> r.index < |ds|
    ensures r.FoundDevice? && TruthyInt(deviceId) ==> ds[r.index].id == deviceId.value
    ensures r.FoundDevice? && !TruthyInt(deviceId) ==> ds[r.index].serial == serial.value
    ensures r.UnknownDevice? && TruthyInt(deviceId) ==> DeviceWithId(ds, deviceId.value).None?
    ensures r.UnknownDevice? && !TruthyInt(deviceId) ==> DeviceWithSerial(ds, serial.value).None?
  {
    if !TruthyInt(deviceId) && !TruthyStr(serial) then NoDeviceKey
    else if TruthyInt(deviceId) then
      match DeviceWithId(ds, deviceId.value)
      case None => UnknownDevice
      case Some(i) => FoundDevice(i)
    else
      match DeviceWithSerial(ds, serial.value)
      case None => UnknownDevice
      case Some(i) =>
        // the serial's device is then fetched again by its id, which finds the same row
        // because device ids are distinct
        FoundDevice(i)
  }

  // ---------------------------------------------------------------------------
  // Table invariants (primary keys and unique constraints)
  // ---------------------------------------------------------------------------

  predicate GuardiansOk(gs: seq<Guardian>, nextId: nat) {
    && (forall i :: 0 <= i < |gs| ==> gs[i].id < nextId)
    && (forall i, j :: 0 <= i < j < |gs| ==> gs[i].id != gs[j].id)
    && (forall i, j :: 0 <= i < j < |gs| ==> gs[i].username != gs[j].username)
    && (forall i, j :: 0 <= i < j < |gs| ==> gs[i].email != gs[j].email)
    && (forall i :: 0 <= i < |gs| ==> InDatetimeRange(gs[i].createdAt))
  }

  /** A new guardian with a fresh id, username and e-mail keeps the table well formed. */
  lemma AddGuardianOk(gs: seq<Guardian>, next: nat, g: Guardian)
    requires GuardiansOk(gs, next)
    requires g.id == next && InDatetimeRange(g.createdAt)
    requires forall i :: 0 <= i < |gs| ==> gs[i].username != g.username && gs[i].email != g.email
    ensures GuardiansOk(gs + [g], next + 1)
  {
    var gs' := gs + [g];
    assert forall i :: 0 <= i < |gs| ==> gs'[i] == gs[i];
  }

  /** Giving guardian `k` an e-mail no other guardian holds keeps the table well formed. */
  lemma SetEmailOk(gs: seq<Guardian>, next: nat, k: nat, email: string)
    requires GuardiansOk(gs, next) && k < |gs|
    requires forall j :: 0 <= j < |gs| && j != k ==> gs[j].email != email
    ensures GuardiansOk(gs[k := gs[k].(email := email)], next)
  {
  }

  /** Replacing a guardian's password hash keeps the table well formed. */
  lemma SetPasswordOk(gs: seq<Guardian>, next: nat, k: nat, h: PasswordHash)
    requires GuardiansOk(gs, next) && k < |gs|
    ensures GuardiansOk(gs[k := gs[k].(password := h)], next)
  {
  }

  predicate OtpsOk(os: seq<OtpRecord>) {
    forall i :: 0 <= i < |os| ==> (os[i].isUsed <==> os[i].usedAt.Some?)
  }

  predicate VipsOk(vs: seq<Vip>, nextId: nat) {
    && nextId >= 1
    && (forall i :: 0 <= i < |vs| ==> vs[i].id < nextId)
    && (forall i, j :: 0 <= i < j < |vs| ==> vs[i].id != vs[j].id)
  }

  predicate DevicesOk(ds: seq<Device>, vs: seq<Vip>) {
    && (forall i, j :: 0 <= i < j < |ds| ==> ds[i].id != ds[j].id)
    && (forall i, j :: 0 <= i < j < |ds| ==> ds[i].serial != ds[j].serial)
    && (forall i :: 0 <= i < |ds| && ds[i].vipId.Some? ==> exists k :: 0 <= k < |vs| && vs[k].id == ds[i].vipId.value)
  }

  predicate LinksOk(ls: seq<DeviceLink>, nextId: nat) {
    && (forall i :: 0 <= i < |ls| ==> ls[i].id < nextId)
    && (forall i, j :: 0 <= i < j < |ls| ==> ls[i].id != ls[j].id)
    && (forall i, j :: 0 <= i < j < |ls| ==> ls[i].deviceId != ls[j].deviceId || ls[i].guardianId != ls[j].guardianId)
    && (forall i :: 0 <= i < |ls| ==> InDatetimeRange(ls[i].assignedAt))
  }

  /** A link with a fresh id for a (device, guardian) pair not yet linked keeps the
      table well formed. */
  lemma AddLinkOk(ls: seq<DeviceLink>, next: nat, l: DeviceLink)
    requires LinksOk(ls, next)
    requires l.id == next && InDatetimeRange(l.assignedAt)
    requires LinkFor(ls, l.deviceId, l.guardianId).None?
    ensures LinksOk(ls + [l], next + 1)
  {
    var ls' := ls + [l];
    assert forall i :: 0 <= i < |ls| ==> ls'[i] == ls[i];
  }

  /** A guardian assigned to a device is linked to it exactly once afterwards, which is
      what the device-gated routes look for. */
  lemma {:induction false} AssignedOnce(ls: seq<DeviceLink>, next: nat, l: DeviceLink)
    requires LinksOk(ls, next) && l.id == next && InDatetimeRange(l.assignedAt)
    requires LinkFor(ls, l.deviceId, l.guardianId).None?
    ensures LinkFor(ls + [l], l.deviceId, l.guardianId) == Some(|ls|)
    ensures GuardianHasDevice(ls + [l], l.guardianId)
  {
    var ls' := ls + [l];
    assert ls'[|ls|] == l;
    forall i | 0 <= i < |ls| ensures ls'[i].deviceId != l.deviceId || ls'[i].guardianId != l.guardianId {
      assert ls'[i] == ls[i];
    }
  }

  /** A new VIP with a fresh id, attached to device `d`, keeps the device and VIP tables
      well formed. */
  lemma AttachVipOk(ds: seq<Device>, vs: seq<Vip>, next: nat, d: nat, v: Vip)
    requires VipsOk(vs, next) && DevicesOk(ds, vs) && d < |ds| && v.id == next
    ensures VipsOk(vs + [v], next + 1)
    ensures DevicesOk(ds[d := ds[d].(vipId := Some(next))], vs + [v])
  {
    var vs', ds' := vs + [v], ds[d := ds[d].(vipId := Some(next))];
    assert forall k :: 0 <= k < |vs| ==> vs'[k] == vs[k];
    assert vs'[|vs|].id == next;
    forall i | 0 <= i < |ds'| && ds'[i].vipId.Some?
      ensures exists k :: 0 <= k < |vs'| && vs'[k].id == ds'[i].vipId.value
    {
      if i != d {
        var k :| 0 <= k < |vs| && vs[k].id == ds[i].vipId.value;
        assert vs'[k].id == ds'[i].vipId.value;
      }
    }
  }

  predicate RemindersOk(rs: seq<Reminder>, nextId: nat) {
    && (forall i :: 0 <= i < |rs| ==> rs[i].id < nextId && InDatetimeRange(rs[i].createdAt))
    && (forall i, j :: 0 <= i < j < |rs| ==> rs[i].id != rs[j].id)
  }

  /** The database: one sequence per table, in insertion order, and the next value of
      each autoincrement key. */
  class Database {
    var guardians: seq<Guardian>
    var attempts: seq<LoginAttempt>
    var otps: seq<OtpRecord>
    var devices: seq<Device>
    var vips: seq<Vip>
    var links: seq<DeviceLink>
    var reminders: seq<Reminder>
    var nextGuardianId: nat
    var nextVipId: nat
    var nextLinkId: nat
    var nextReminderId: nat

    /** Every table keeps its keys and unique constraints. */
    ghost predicate Valid()
      reads this
    {
      GuardiansValid() && OtpsValid() && DevicesValid() && LinksValid() && RemindersValid()
    }

    ghost predicate GuardiansValid()
      reads this`guardians, this`nextGuardianId
    {
      GuardiansOk(guardians, nextGuardianId)
    }

    ghost predicate OtpsValid()
      reads this`otps
    {
      OtpsOk(otps)
    }

    ghost predicate DevicesValid()
      reads this`devices, this`vips, this`nextVipId
    {
      VipsOk(vips, nextVipId) && DevicesOk(devices, vips)
    }

    ghost predicate LinksValid()
      reads this`links, this`nextLinkId
    {
      LinksOk(links, nextLinkId)
    }

    ghost predicate RemindersValid()
      reads this`reminders, this`nextReminderId
    {
      RemindersOk(reminders, nextReminderId)
    }

    /** An empty database whose keys start at 1, holding the given devices (devices are
        provisioned outside the modelled routes). */
    constructor (devices0: seq<Device>)
      requires forall i, j :: 0 <= i < j < |devices0| ==> devices0[i].id != devices0[j].id
      requires forall i, j :: 0 <= i < j < |devices0| ==> devices0[i].serial != devices0[j].serial
      requires forall i :: 0 <= i < |devices0| ==> devices0[i].vipId.None?
      ensures Valid()
      ensures guardians == [] && attempts == [] && otps == [] && vips == [] && links == [] && reminders == []
      ensures devices == devices0
      ensures nextGuardianId == 1 && nextVipId == 1 && nextLinkId == 1 && nextReminderId == 1
    {
      guardians, attempts, otps, vips, links, reminders := [], [], [], [], [], [];
      devices := devices0;
      nextGuardianId, nextVipId, nextLinkId, nextReminderId := 1, 1, 1, 1;
    }

    /** `db.session.add(DeviceGuardian(...))`: links a guardian to a device under the
        next link id. */
    method AddLink(deviceId: nat, guardianId: nat, now: int) returns (id: nat)
      requires Valid() && InDatetimeRange(now)
      requires LinkFor(links, deviceId, guardianId).None?
      modifies this`links, this`nextLinkId
      ensures Valid()
      ensures id == old(nextLinkId) && nextLinkId == id + 1
      ensures links == old(links) + [DeviceLink(id, deviceId, guardianId, now)]
    {
      id := nextLinkId;
      AddLinkOk(links, id, DeviceLink(id, deviceId, guardianId, now));
      links := links + [DeviceLink(id, deviceId, guardianId, now)];
      nextLinkId := id + 1;
    }

    /** A new VIP under the next VIP id, attached to device `d`. */
    method AttachNewVip(d: nat, name: string, address: Option<string>, now: int) returns (id: nat)
      requires Valid() && d < |devices|
      modifies this`vips, this`nextVipId, this`devices
      ensures Valid()
      ensures id == old(nextVipId) && nextVipId == id + 1 && id >= 1
      ensures vips == old(vips) + [Vip(id, name, address, now)]
      ensures devices == old(devices)[d := old(devices)[d].(vipId := Some(id))]
    {
      id := nextVipId;
      AttachVipOk(devices, vips, id, d, Vip(id, name, address, now));
      vips := vips + [Vip(id, name, address, now)];
      nextVipId := id + 1;
      devices := devices[d := devices[d].(vipId := Some(id))];
    }
  }

  /** Removing the row at `i` from a table, keeping the order of the others. */
  function RemoveAt<T>(s: seq<T>, i: nat): (r: seq<T>)
    requires i < |s|
    ensures |r| == |s| - 1
    ensures forall j :: 0 <= j < i ==> r[j] == s[j]
    ensures forall j :: i <= j < |r| ==> r[j] == s[j + 1]
  {
    s[..i] + s[i + 1..]
  }

  /** Every row of a table other than the removed one is still present. */
  lemma {:induction false} RemoveAtKeepsOthers<T>(s: seq<T>, i: nat, x: T)
    requires i < |s|
    ensures x in RemoveAt(s, i) <==> exists j :: 0 <= j < |s| && j != i && s[j] == x
  {
    var r := RemoveAt(s, i);
    if x in r {
      var k :| 0 <= k < |r| && r[k] == x;
      if k < i {
        assert s[k] == x;
      } else {
        assert s[k + 1] == x;
      }
    }
    if exists j :: 0 <= j < |s| && j != i && s[j] == x {
      var j :| 0 <= j < |s| && j != i && s[j] == x;
      if j < i {
        assert r[j] == x;
      } else {
        assert r[j - 1] == x;
      }
    }
  }
}
