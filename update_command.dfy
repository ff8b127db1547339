/**
 * UpdateDeviceCommand and its handler: convert the DTO, reject a body whose serial-number
 * text differs from the route Guid's ToString(), otherwise update the stored row and return
 * it converted back to a DTO.
 */
module UpdateCommand {
  import opened Wrappers
  import opened Guids
  import opened Devices
  import opened Exceptions
  import opened Dtos
  import opened Repository

  /** The route's serial number and the request body. */
  datatype UpdateDeviceCommand = UpdateDeviceCommand(serialNumber: Guid, deviceDto: DeviceDto)

  const MismatchMessage := "Serial number in the route does not match the serial number in the body."

  /**
   * The route/body check: ordinal string equality against the route Guid's canonical text, so
   * only a 36-character body serial number without upper-case letters can match.
   */
  predicate RouteMatchesBody(request: UpdateDeviceCommand)
    ensures RouteMatchesBody(request) ==> |request.deviceDto.serialNumber| == GuidTextLength
    ensures RouteMatchesBody(request) ==>
      forall i :: 0 <= i < |request.deviceDto.serialNumber| ==> !('A' <= request.deviceDto.serialNumber[i] <= 'Z')
  {
    GuidTextIsLowerCase(request.serialNumber);
    GuidText(request.serialNumber) == request.deviceDto.serialNumber
  }

  /** What one Handle call returns or throws, and the table it leaves, as a function of the table before it. */
  function HandleUpdate(t: Table, conv: Conversions, request: UpdateDeviceCommand): (r: Step<DeviceDto>)
    ensures conv.toDevice(request.deviceDto).Failure? ==>
      r == Step(Failure(conv.toDevice(request.deviceDto).error), t)
    ensures conv.toDevice(request.deviceDto).Success? && !RouteMatchesBody(request) ==>
      r == Step(Failure(Argument(MismatchMessage)), t)
    ensures r.result.Failure? ==> r.table == t
    ensures r.table.Keys == t.Keys
    ensures KeyedBySerial(t) ==> KeyedBySerial(r.table)
    ensures conv.toDevice(request.deviceDto).Success? && RouteMatchesBody(request) ==>
      var d := conv.toDevice(request.deviceDto).value;
      && (d.serialNumber !in t ==> r == Step(Failure(KeyNotFound(d.serialNumber)), t))
      && (d.serialNumber in t ==>
            r.table == Update(t, d).table
            && r.result == Success(conv.toDeviceDto(r.table[d.serialNumber])))
  {
    match conv.toDevice(request.deviceDto)
    case Failure(e) => Step(Failure(e), t)
    case Success(d) =>
      if !RouteMatchesBody(request) then Step(Failure(Argument(MismatchMessage)), t)
      else
        var updated := Update(t, d);
        Step(MapToDto(conv, updated.result), updated.table)
  }

  /**
   * The comparison is on text: when the body carries some Guid's canonical text, the
   * mismatch is raised exactly when that Guid is not the route's.
   */
  lemma {:induction false} CanonicalBodyMatchesOnlyItsGuid(t: Table, conv: Conversions, request: UpdateDeviceCommand, g: Guid)
    requires conv.toDevice(request.deviceDto).Success?
    requires request.deviceDto.serialNumber == GuidText(g)
    ensures HandleUpdate(t, conv, request).result == Failure(Argument(MismatchMessage)) <==> g != request.serialNumber
  {
    if g != request.serialNumber && RouteMatchesBody(request) {
      GuidTextInjective(g, request.serialNumber);
    }
  }

  /**
   * A body serial number holding an upper-case letter is a mismatch, even when it names the
   * route's own Guid; the table is left as it was.
   */
  lemma {:induction false} UpperCaseBodyIsMismatch(t: Table, conv: Conversions, request: UpdateDeviceCommand, i: nat)
    requires conv.toDevice(request.deviceDto).Success?
    requires i < |request.deviceDto.serialNumber| && 'A' <= request.deviceDto.serialNumber[i] <= 'Z'
    ensures HandleUpdate(t, conv, request) == Step(Failure(Argument(MismatchMessage)), t)
  {
  }

  /** The route Guid itself, written in upper case, is refused whenever its text has a letter digit. */
  lemma {:induction false} UpperCaseRouteGuidIsMismatch(t: Table, conv: Conversions, request: UpdateDeviceCommand, k: nat)
    requires conv.toDevice(request.deviceDto).Success?
    requires request.deviceDto.serialNumber == UpperCase(GuidText(request.serialNumber))
    requires k < GuidDigits && 10 <= request.serialNumber[k]
    ensures HandleUpdate(t, conv, request) == Step(Failure(Argument(MismatchMessage)), t)
  {
    UpperCaseTextDiffers(request.serialNumber, k);
  }

  /** Sending the same update twice leaves the same table as sending it once. */
  lemma {:induction false} HandleUpdateIdempotent(t: Table, conv: Conversions, request: UpdateDeviceCommand)
    ensures HandleUpdate(HandleUpdate(t, conv, request).table, conv, request).table == HandleUpdate(t, conv, request).table
  {
  }

  class UpdateDeviceCommandHandler {
    const deviceRepository: DeviceRepository
    const conversions: Conversions

    constructor (deviceRepository: DeviceRepository, conversions: Conversions)
      ensures this.deviceRepository == deviceRepository && this.conversions == conversions
    {
      this.deviceRepository := deviceRepository;
      this.conversions := conversions;
    }

    method Handle(request: UpdateDeviceCommand) returns (r: Result<DeviceDto, Exception>)
      requires deviceRepository.Valid()
      modifies deviceRepository
      ensures deviceRepository.Valid()
      ensures var s := HandleUpdate(old(deviceRepository.devices), conversions, request);
        r == s.result && deviceRepository.devices == s.table
    {
      var converted := conversions.toDevice(request.deviceDto);
      if converted.Failure? {
        r := Failure(converted.error);
        return;
      }
      var deviceToUpdate := converted.value;
      if GuidText(request.serialNumber) != request.deviceDto.serialNumber {
        r := Failure(Argument(MismatchMessage));
        return;
      }
      var device := deviceRepository.UpdateDevice(deviceToUpdate);
      r := MapToDto(conversions, device);
    }
  }
}
