/**
 * DeviceRepository: the Devices table keyed by SerialNumber, with a lookup, an insert
 * and an in-place update of the four settable fields.
 *
 * The table is a map from serial number to row. The primary key and the unique index on
 * SerialNumber are the invariant KeyedBySerial: every row is stored under its own serial
 * number, so no two rows share one. Find, Add and Update say what one call does to the
 * table; the class's methods are proved to do exactly that.
 *
 * SerialNumber is a Guid key with no value-generation setting, so by EF Core's key convention
 * Devices.Add replaces an all-zero serial number (Guid.Empty) with a Guid it generates on the
 * client. The generated Guid is a parameter of Add: it is the generator's output, and the
 * model assumes nothing about it except where a lemma says so.
 */
module Repository {
  import opened Wrappers
  import opened Guids
  import opened Devices
  import opened Exceptions

  type Table = map<Guid, Device>

  /** The primary key: every row is stored under its own SerialNumber, so no two rows share one. */
  ghost predicate KeyedBySerial(t: Table)
    ensures KeyedBySerial(t) ==>
      forall a, b :: a in t.Values && b in t.Values && a.serialNumber == b.serialNumber ==> a == b
  {
    forall k :: k in t ==> t[k].serialNumber == k
  }

  /** What a call returns or throws, and the table it leaves behind. */
  datatype Step<T> = Step(result: Result<T, Exception>, table: Table)

  /**
   * FirstOrDefault(d => d.SerialNumber == device.SerialNumber): the row whose serial number
   * is the argument's, or null. No other field of the argument takes part.
   */
  function Find(t: Table, device: Device): (r: Option<Device>)
    ensures KeyedBySerial(t) ==>
      (r.Some? <==> exists d :: d in t.Values && d.serialNumber == device.serialNumber)
    ensures KeyedBySerial(t) ==>
      forall d :: d in t.Values && d.serialNumber == device.serialNumber ==> r == Some(d)
  {
    if device.serialNumber in t then Some(t[device.serialNumber]) else None
  }

  /** The key Devices.Add gives a device: its own serial number, or the generated Guid in place of Guid.Empty. */
  function StoredKey(device: Device, generated: Guid): (k: Guid)
    ensures device.serialNumber != EmptyGuid ==> k == device.serialNumber
    ensures generated != EmptyGuid ==> k != EmptyGuid
  {
    if device.serialNumber == EmptyGuid then generated else device.serialNumber
  }

  /** The device as Devices.Add tracks it: with the key it was given. */
  function Stored(device: Device, generated: Guid): (d: Device)
    ensures d.serialNumber == StoredKey(device, generated)
    ensures device.serialNumber != EmptyGuid ==> d == device
    ensures d.modelId == device.modelId && d.modelName == device.modelName
    ensures d.manufacturer == device.manufacturer
    ensures SameSettable(d, device)
  {
    device.(serialNumber := StoredKey(device, generated))
  }

  /**
   * Devices.Add then SaveChanges. The device is stored under StoredKey; a fresh key gains a
   * row holding the device with that key, which is returned; an existing key makes the save
   * fail, and the table keeps its row.
   */
  function Add(t: Table, device: Device, generated: Guid): (r: Step<Device>)
    ensures forall k :: k in t ==> k in r.table && r.table[k] == t[k]
    ensures r.result.Success? <==> StoredKey(device, generated) !in t
    ensures r.result.Success? ==>
      && r.result.value == Stored(device, generated)
      && (device.serialNumber != EmptyGuid ==> r.result.value == device)
      && r.table.Keys == t.Keys + {r.result.value.serialNumber}
      && Find(r.table, r.result.value) == Some(r.result.value)
    ensures r.result.Failure? ==> r.result.error == DuplicateKey(StoredKey(device, generated)) && r.table == t
    ensures KeyedBySerial(t) ==> KeyedBySerial(r.table)
  {
    var d := Stored(device, generated);
    if d.serialNumber in t then Step(Failure(DuplicateKey(d.serialNumber)), t)
    else Step(Success(d), t[d.serialNumber := d])
  }

  /**
   * UpdateDevice: copy PrimaryUser, OperatingSystem, DeviceType and DeviceStatus of the
   * argument onto the stored row with the same serial number and return that row; throw
   * KeyNotFoundException if there is none.
   */
  function Update(t: Table, device: Device): (r: Step<Device>)
    ensures r.result.Success? <==> device.serialNumber in t
    ensures r.result.Failure? ==> r.result.error == KeyNotFound(device.serialNumber) && r.table == t
    ensures r.table.Keys == t.Keys
    ensures forall k :: k in t && k != device.serialNumber ==> r.table[k] == t[k]
    ensures r.result.Success? ==>
      var u := r.result.value;
      u == r.table[device.serialNumber]
      && SameSettable(u, device)
      && SameIdentity(u, t[device.serialNumber])
    ensures KeyedBySerial(t) ==> KeyedBySerial(r.table)
  {
    var k := device.serialNumber;
    if k !in t then Step(Failure(KeyNotFound(k)), t)
    else
      var updated := t[k].(primaryUser := device.primaryUser, operatingSystem := device.operatingSystem,
                           deviceType := device.deviceType, deviceStatus := device.deviceStatus);
      Step(Success(updated), t[k := updated])
  }

  /** After an Add on a fresh, non-empty serial number, the lookup finds the added device. */
  lemma AddThenFind(t: Table, device: Device, generated: Guid)
    requires device.serialNumber != EmptyGuid && device.serialNumber !in t
    ensures Add(t, device, generated).result == Success(device)
    ensures Find(Add(t, device, generated).table, device) == Some(device)
  {
  }

  /** An Add on a stored, non-empty serial number fails and overwrites nothing, whatever the other fields hold. */
  lemma AddDuplicateKeepsRow(t: Table, device: Device, generated: Guid)
    requires device.serialNumber != EmptyGuid && device.serialNumber in t
    ensures Add(t, device, generated) == Step(Failure(DuplicateKey(device.serialNumber)), t)
    ensures Find(Add(t, device, generated).table, device) == Some(t[device.serialNumber])
  {
  }

  /**
   * An Add of a device whose serial number is Guid.Empty stores it under the generated Guid,
   * not under Guid.Empty, and returns it with that serial number.
   */
  lemma AddEmptySerialUsesGeneratedKey(t: Table, device: Device, generated: Guid)
    requires device.serialNumber == EmptyGuid
    requires generated != EmptyGuid && generated !in t
    ensures var added := device.(serialNumber := generated);
      Add(t, device, generated) == Step(Success(added), t[generated := added])
    ensures EmptyGuid in Add(t, device, generated).table <==> EmptyGuid in t
  {
  }

  /** Only the four settable fields of the stored row change, even when the argument's init-only fields differ. */
  lemma UpdateChangesOnlySettableFields(t: Table, device: Device)
    requires device.serialNumber in t
    ensures var u := Update(t, device).table[device.serialNumber];
      SameSettable(u, device) && SameIdentity(u, t[device.serialNumber])
      && (SameIdentity(device, t[device.serialNumber]) ==> u == device)
  {
  }

  /** UpdateDevice is idempotent: a second identical call returns the same row and leaves the same table. */
  lemma {:induction false} UpdateIdempotent(t: Table, device: Device)
    ensures Update(Update(t, device).table, device) == Update(t, device)
  {
  }

  class DeviceRepository {
    var devices: Table

    ghost predicate Valid()
      reads this
    {
      KeyedBySerial(devices)
    }

    constructor (initial: Table)
      requires KeyedBySerial(initial)
      ensures Valid() && devices == initial
    {
      devices := initial;
    }

    method GetDevice(device: Device) returns (r: Option<Device>)
      requires Valid()
      ensures r == Find(devices, device)
      ensures r.Some? ==> r.value in devices.Values && r.value.serialNumber == device.serialNumber
    {
      if device.serialNumber in devices {
        r := Some(devices[device.serialNumber]);
      } else {
        r := None;
      }
    }

    /** `generated` is the Guid EF Core's key generator would hand out for this Add. */
    method AddDevice(device: Device, generated: Guid) returns (r: Result<Device, Exception>)
      requires Valid()
      modifies this
      ensures Valid()
      ensures r == Add(old(devices), device, generated).result
      ensures devices == Add(old(devices), device, generated).table
    {
      var added := device;
      if added.serialNumber == EmptyGuid {
        added := added.(serialNumber := generated);
      }
      if added.serialNumber in devices {
        r := Failure(DuplicateKey(added.serialNumber));
        return;
      }
      devices := devices[added.serialNumber := added];
      r := Success(added);
    }

    method UpdateDevice(device: Device) returns (r: Result<Device, Exception>)
      requires Valid()
      modifies this
      ensures Valid()
      ensures r == Update(old(devices), device).result && devices == Update(old(devices), device).table
    {
      var k := device.serialNumber;
      if k !in devices {
        r := Failure(KeyNotFound(k));
        return;
      }
      var existing := devices[k];
      existing := existing.(primaryUser := device.primaryUser);
      existing := existing.(operatingSystem := device.operatingSystem);
      existing := existing.(deviceType := device.deviceType);
      existing := existing.(deviceStatus := device.deviceStatus);
      devices := devices[k := existing];
      r := Success(existing);
    }
  }
}
