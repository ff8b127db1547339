/**
 * InsertDeviceCommand and its handler: convert the DTO, refuse a serial number that is
 * already stored, otherwise add the device and return it converted back to a DTO.
 */
module InsertCommand {
  import opened Wrappers
  import opened Guids
  import opened Devices
  import opened Exceptions
  import opened Dtos
  import opened Repository

  datatype InsertDeviceCommand = InsertDeviceCommand(deviceDto: DeviceDto)

  /**
   * What one Handle call returns or throws, and the table it leaves, as a function of the
   * table before it; `generated` is the Guid the key generator hands out should the converted
   * serial number be Guid.Empty.
   */
  function HandleInsert(t: Table, conv: Conversions, request: InsertDeviceCommand, generated: Guid): (r: Step<DeviceDto>)
    ensures conv.toDevice(request.deviceDto).Failure? ==>
      r == Step(Failure(conv.toDevice(request.deviceDto).error), t)
    ensures r.result.Failure? ==> r.table == t
    ensures KeyedBySerial(t) ==> KeyedBySerial(r.table)
    ensures conv.toDevice(request.deviceDto).Success? ==>
      var d := conv.toDevice(request.deviceDto).value;
      && (d.serialNumber in t ==> r.result == Failure(DeviceAlreadyExists(GuidText(t[d.serialNumber].serialNumber))))
      && (d.serialNumber !in t && d.serialNumber != EmptyGuid ==>
            r == Step(Success(conv.toDeviceDto(d)), t[d.serialNumber := d]))
      && (d.serialNumber !in t && d.serialNumber == EmptyGuid && generated !in t ==>
            r == Step(Success(conv.toDeviceDto(d.(serialNumber := generated))),
                      t[generated := d.(serialNumber := generated)]))
      && (d.serialNumber !in t && StoredKey(d, generated) in t ==>
            r == Step(Failure(DuplicateKey(StoredKey(d, generated))), t))
  {
    match conv.toDevice(request.deviceDto)
    case Failure(e) => Step(Failure(e), t)
    case Success(d) =>
      match Find(t, d)
      case Some(existing) => Step(Failure(DeviceAlreadyExists(GuidText(existing.serialNumber))), t)
      case None =>
        var added := Add(t, d, generated);
        Step(MapToDto(conv, added.result), added.table)
  }

  /**
   * A stored serial number is refused with DeviceAlreadyExistsException carrying that serial
   * number's text, and the table is left as it was.
   */
  lemma InsertDuplicateRejected(t: Table, conv: Conversions, request: InsertDeviceCommand, generated: Guid)
    requires KeyedBySerial(t)
    requires conv.toDevice(request.deviceDto).Success?
    requires conv.toDevice(request.deviceDto).value.serialNumber in t
    ensures var d := conv.toDevice(request.deviceDto).value;
      HandleInsert(t, conv, request, generated) == Step(Failure(DeviceAlreadyExists(GuidText(d.serialNumber))), t)
  {
  }

  /**
   * A duplicate is decided by the serial number alone: two requests whose converted devices
   * share a serial number get the same answer from a table holding it, whatever their other fields.
   */
  lemma DuplicateDecidedBySerialAlone(t: Table, conv: Conversions, a: InsertDeviceCommand, b: InsertDeviceCommand, generated: Guid)
    requires conv.toDevice(a.deviceDto).Success? && conv.toDevice(b.deviceDto).Success?
    requires conv.toDevice(a.deviceDto).value.serialNumber == conv.toDevice(b.deviceDto).value.serialNumber
    requires conv.toDevice(a.deviceDto).value.serialNumber in t
    ensures HandleInsert(t, conv, a, generated) == HandleInsert(t, conv, b, generated)
  {
  }

  /**
   * A body whose serial number is Guid.Empty never conflicts on a table without a Guid.Empty
   * row: it is stored under the generated Guid, and the table still has no Guid.Empty row, so
   * the next such request is accepted as well.
   */
  lemma EmptySerialInsertsUnderGeneratedKey(t: Table, conv: Conversions, request: InsertDeviceCommand, generated: Guid)
    requires KeyedBySerial(t) && EmptyGuid !in t
    requires conv.toDevice(request.deviceDto).Success?
    requires conv.toDevice(request.deviceDto).value.serialNumber == EmptyGuid
    requires generated != EmptyGuid && generated !in t
    ensures var added := conv.toDevice(request.deviceDto).value.(serialNumber := generated);
      HandleInsert(t, conv, request, generated) == Step(Success(conv.toDeviceDto(added)), t[generated := added])
    ensures EmptyGuid !in HandleInsert(t, conv, request, generated).table
  {
  }

  class InsertDeviceCommandHandler {
    const deviceRepository: DeviceRepository
    const conversions: Conversions

    constructor (deviceRepository: DeviceRepository, conversions: Conversions)
      ensures this.deviceRepository == deviceRepository && this.conversions == conversions
    {
      this.deviceRepository := deviceRepository;
      this.conversions := conversions;
    }

    /** `generated` is the Guid the key generator hands out, used only for a Guid.Empty serial number. */
    method Handle(request: InsertDeviceCommand, generated: Guid) returns (r: Result<DeviceDto, Exception>)
      requires deviceRepository.Valid()
      modifies deviceRepository
      ensures deviceRepository.Valid()
      ensures var s := HandleInsert(old(deviceRepository.devices), conversions, request, generated);
        r == s.result && deviceRepository.devices == s.table
    {
      var converted := conversions.toDevice(request.deviceDto);
      if converted.Failure? {
        r := Failure(converted.error);
        return;
      }
      var deviceRequest := converted.value;
      var deviceCheck := deviceRepository.GetDevice(deviceRequest);
      if deviceCheck.Some? {
        r := Failure(DeviceAlreadyExists(GuidText(deviceCheck.value.serialNumber)));
        return;
      }
      var device := deviceRepository.AddDevice(deviceRequest, generated);
      r := MapToDto(conversions, device);
    }
  }
}
