/**
 * DeviceController with the exception filter in front of it: POST answers 201 Created and
 * PATCH answers 200 OK with the handler's DTO; an exception thrown by a handler is answered
 * by ExceptionFilter.ResponseFor.
 *
 * Model binding, API versioning and routing are not part of this model: an endpoint here
 * receives the already bound command.
 */
module DeviceController {
  import opened Wrappers
  import opened Guids
  import opened Exceptions
  import opened Dtos
  import opened Repository
  import opened InsertCommand
  import opened UpdateCommand
  import opened ExceptionFilter

  const Status200OK := 200
  const Status201Created := 201

  datatype Body = DeviceBody(dto: DeviceDto) | ErrorBody(error: string)

  datatype HttpResponse = HttpResponse(statusCode: int, body: Body)

  /** The answer to a handler's result: the success code with the DTO, or the filter's response. */
  function Respond(successCode: int, r: Result<DeviceDto, Exception>): (resp: HttpResponse)
    ensures r.Success? ==> resp == HttpResponse(successCode, DeviceBody(r.value))
    ensures r.Failure? ==> resp.statusCode == ResponseFor(r.error).statusCode
    ensures r.Failure? ==> resp.body == ErrorBody(ResponseFor(r.error).error)
  {
    match r
    case Success(dto) => HttpResponse(successCode, DeviceBody(dto))
    case Failure(e) =>
      var o := ResponseFor(e);
      HttpResponse(o.statusCode, ErrorBody(o.error))
  }

  /** POST /api/v1/device: Created with the handler's DTO, or the filter's answer to its exception. */
  function InsertDevice(t: Table, conv: Conversions, request: InsertDeviceCommand, generated: Guid): (r: (HttpResponse, Table))
    ensures r.1 == HandleInsert(t, conv, request, generated).table
    ensures HandleInsert(t, conv, request, generated).result.Success? <==> r.0.statusCode == Status201Created
    ensures r.0.statusCode == Status201Created ==>
      r.0.body == DeviceBody(HandleInsert(t, conv, request, generated).result.value)
  {
    var s := HandleInsert(t, conv, request, generated);
    (Respond(Status201Created, s.result), s.table)
  }

  /** PATCH /api/v1/device/{serialNumber}: OK with the handler's DTO, or the filter's answer to its exception. */
  function UpdateDevice(t: Table, conv: Conversions, request: UpdateDeviceCommand): (r: (HttpResponse, Table))
    ensures r.1 == HandleUpdate(t, conv, request).table
    ensures HandleUpdate(t, conv, request).result.Success? <==> r.0.statusCode == Status200OK
    ensures r.0.statusCode == Status200OK ==>
      r.0.body == DeviceBody(HandleUpdate(t, conv, request).result.value)
  {
    var s := HandleUpdate(t, conv, request);
    (Respond(Status200OK, s.result), s.table)
  }

  /** POST answers only 201, 409 or 500, and changes the table only when it answers 201. */
  lemma InsertStatusCodes(t: Table, conv: Conversions, request: InsertDeviceCommand, generated: Guid)
    ensures var (resp, t') := InsertDevice(t, conv, request, generated);
      resp.statusCode in {Status201Created, Status409Conflict, Status500InternalServerError}
      && (resp.statusCode != Status201Created ==> t' == t)
  {
  }

  /** Inserting a stored serial number answers 409, and the body names that serial number. */
  lemma {:induction false} InsertDuplicateAnswersConflict(t: Table, conv: Conversions, request: InsertDeviceCommand, generated: Guid)
    requires KeyedBySerial(t)
    requires conv.toDevice(request.deviceDto).Success?
    requires conv.toDevice(request.deviceDto).value.serialNumber in t
    ensures var serialText := GuidText(conv.toDevice(request.deviceDto).value.serialNumber);
      var (resp, t') := InsertDevice(t, conv, request, generated);
      && t' == t
      && resp.statusCode == Status409Conflict
      && resp.body.ErrorBody?
      && |AlreadyExistsPrefix| + |serialText| <= |resp.body.error|
      && resp.body.error[|AlreadyExistsPrefix|..|AlreadyExistsPrefix| + |serialText|] == serialText
  {
  }

  /** Updating an absent serial number answers 500, not 404: KeyNotFoundException has no case in the filter. */
  lemma UpdateMissingDeviceAnswers500(t: Table, conv: Conversions, request: UpdateDeviceCommand)
    requires conv.toDevice(request.deviceDto).Success? && RouteMatchesBody(request)
    requires conv.toDevice(request.deviceDto).value.serialNumber !in t
    ensures UpdateDevice(t, conv, request) == (HttpResponse(Status500InternalServerError, ErrorBody(UnexpectedErrorText)), t)
  {
  }

  /** A route/body serial-number mismatch answers 500, not 400: ArgumentException has no case in the filter. */
  lemma UpdateMismatchAnswers500(t: Table, conv: Conversions, request: UpdateDeviceCommand)
    requires conv.toDevice(request.deviceDto).Success? && !RouteMatchesBody(request)
    ensures UpdateDevice(t, conv, request) == (HttpResponse(Status500InternalServerError, ErrorBody(UnexpectedErrorText)), t)
  {
  }

  /** PATCH never answers 400 or 404: only 200, 409 (if the conversion itself throws that exception) or 500. */
  lemma UpdateStatusCodes(t: Table, conv: Conversions, request: UpdateDeviceCommand)
    ensures var (resp, t') := UpdateDevice(t, conv, request);
      resp.statusCode in {Status200OK, Status409Conflict, Status500InternalServerError}
      && (resp.statusCode != Status200OK ==> t' == t)
  {
  }
}
