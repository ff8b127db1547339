/**
 * The Device entity and its two enumerations.
 *
 * SerialNumber is the key. SerialNumber, ModelId, ModelName and Manufacturer are
 * init-only: they are fixed once a Device is constructed. PrimaryUser, OperatingSystem,
 * DeviceType and DeviceStatus are settable; a change to one of them is a datatype update.
 */
module Devices {
  import opened Guids
  import opened Wrappers

  datatype DeviceType = Laptop | Desktop

  datatype DeviceStatus = Active | Inactive | Retired

  datatype Device = Device(
    serialNumber: Guid,
    modelId: string,
    modelName: string,
    manufacturer: string,
    primaryUser: string,
    operatingSystem: string,
    deviceType: DeviceType,
    deviceStatus: DeviceStatus)

  /** The underlying value of a DeviceType member: C# numbers enum members from 0 in declaration order. */
  function DeviceTypeValue(t: DeviceType): (v: nat)
    ensures v < 2
    ensures (v == 0 <==> t == Laptop) && (v == 1 <==> t == Desktop)
  {
    match t
    case Laptop => 0
    case Desktop => 1
  }

  function DeviceTypeOfValue(v: nat): (r: Option<DeviceType>)
  {
    if v == 0 then Some(Laptop) else if v == 1 then Some(Desktop) else None
  }

  function DeviceStatusValue(s: DeviceStatus): (v: nat)
    ensures v < 3
    ensures (v == 0 <==> s == Active) && (v == 1 <==> s == Inactive) && (v == 2 <==> s == Retired)
  {
    match s
    case Active => 0
    case Inactive => 1
    case Retired => 2
  }

  function DeviceStatusOfValue(v: nat): (r: Option<DeviceStatus>)
  {
    if v == 0 then Some(Active) else if v == 1 then Some(Inactive) else if v == 2 then Some(Retired) else None
  }

  /** DeviceType has exactly two members: its values are a bijection onto {0, 1}. */
  lemma DeviceTypeHasTwoMembers(t: DeviceType, v: nat)
    ensures DeviceTypeOfValue(0) == Some(Laptop) && DeviceTypeOfValue(1) == Some(Desktop)
    ensures DeviceTypeOfValue(DeviceTypeValue(t)) == Some(t)
    ensures DeviceTypeOfValue(v).Some? <==> v < 2
    ensures DeviceTypeOfValue(v).Some? ==> DeviceTypeValue(DeviceTypeOfValue(v).value) == v
  {
  }

  /** DeviceStatus has exactly three members: its values are a bijection onto {0, 1, 2}. */
  lemma DeviceStatusHasThreeMembers(s: DeviceStatus, v: nat)
    ensures DeviceStatusOfValue(0) == Some(Active) && DeviceStatusOfValue(1) == Some(Inactive)
    ensures DeviceStatusOfValue(2) == Some(Retired)
    ensures DeviceStatusOfValue(DeviceStatusValue(s)) == Some(s)
    ensures DeviceStatusOfValue(v).Some? <==> v < 3
    ensures DeviceStatusOfValue(v).Some? ==> DeviceStatusValue(DeviceStatusOfValue(v).value) == v
  {
  }

  /** The four init-only fields agree: the two records describe the same physical device. */
  predicate SameIdentity(a: Device, b: Device)
  {
    a.serialNumber == b.serialNumber && a.modelId == b.modelId
    && a.modelName == b.modelName && a.manufacturer == b.manufacturer
  }

  /** The four settable fields agree. */
  predicate SameSettable(a: Device, b: Device)
  {
    a.primaryUser == b.primaryUser && a.operatingSystem == b.operatingSystem
    && a.deviceType == b.deviceType && a.deviceStatus == b.deviceStatus
  }
}
