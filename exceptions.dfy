/**
 * The exceptions that reach the exception filter, and their messages.
 */
module Exceptions {
  import opened Guids

  datatype Exception =
      /** DeviceAlreadyExistsException, built from the serial number's text. */
    | DeviceAlreadyExists(serialText: string)
      /** KeyNotFoundException, thrown by the repository's update for an absent serial number. */
    | KeyNotFound(serial: Guid)
      /** ArgumentException, thrown by the update handler on a route/body serial-number mismatch. */
    | Argument(message: string)
      /** InvalidDeviceDataException, with the message its constructor formats. */
    | InvalidDeviceData(message: string)
      /** The DbUpdateException SaveChanges throws for a second row with an existing primary key. */
    | DuplicateKey(serial: Guid)
      /** Any other exception, e.g. one thrown by a DTO conversion. */
    | Other(message: string)

  const AlreadyExistsPrefix := "Device with Serial Number "
  const AlreadyExistsSuffix := " already exists."

  const KeyNotFoundPrefix := "Device with serial number "
  const KeyNotFoundSuffix := " not found."

  /**
   * Exception.Message. The two messages the core formats name the serial number: verbatim
   * after a fixed prefix for DeviceAlreadyExistsException, as its canonical text for the
   * repository's KeyNotFoundException.
   */
  function Message(e: Exception): (m: string)
    ensures e.DeviceAlreadyExists? ==>
      |m| == |AlreadyExistsPrefix| + |e.serialText| + |AlreadyExistsSuffix|
      && m[..|AlreadyExistsPrefix|] == AlreadyExistsPrefix
      && m[|AlreadyExistsPrefix|..|AlreadyExistsPrefix| + |e.serialText|] == e.serialText
      && m[|AlreadyExistsPrefix| + |e.serialText|..] == AlreadyExistsSuffix
    ensures e.KeyNotFound? ==>
      |m| == |KeyNotFoundPrefix| + GuidTextLength + |KeyNotFoundSuffix|
      && m[..|KeyNotFoundPrefix|] == KeyNotFoundPrefix
      && m[|KeyNotFoundPrefix|..|KeyNotFoundPrefix| + GuidTextLength] == GuidText(e.serial)
      && m[|KeyNotFoundPrefix| + GuidTextLength..] == KeyNotFoundSuffix
  {
    match e
    case DeviceAlreadyExists(s) => AlreadyExistsPrefix + s + AlreadyExistsSuffix
    case KeyNotFound(g) => KeyNotFoundPrefix + GuidText(g) + KeyNotFoundSuffix
    case Argument(m) => m
    case InvalidDeviceData(m) => m
    case DuplicateKey(_) => "An error occurred while saving the entity changes. See the inner exception for details."
    case Other(m) => m
  }
}
