/**
 * The transfer representation and the two conversions the handlers call.
 *
 * DeviceDto.ToDevice() and Device.ToDeviceDto() are not part of this model; they are
 * supplied as function values, and nothing is assumed about them: ToDevice may fail with
 * any exception, and no round trip is claimed.
 */
module Dtos {
  import opened Wrappers
  import opened Devices
  import opened Exceptions

  datatype DeviceDto = DeviceDto(
    serialNumber: string,
    modelId: string,
    modelName: string,
    manufacturer: string,
    primaryUser: string,
    operatingSystem: string,
    deviceType: string,
    deviceStatus: string)

  datatype Conversions = Conversions(
    toDevice: DeviceDto -> Result<Device, Exception>,
    toDeviceDto: Device -> DeviceDto)

  /** Apply ToDeviceDto to a successful result; pass an exception through untouched. */
  function MapToDto(conv: Conversions, r: Result<Device, Exception>): (o: Result<DeviceDto, Exception>)
    ensures r.Success? ==> o == Success(conv.toDeviceDto(r.value))
    ensures r.Failure? ==> o == Failure(r.error)
  {
    match r
    case Success(d) => Success(conv.toDeviceDto(d))
    case Failure(e) => Failure(e)
  }
}
