/** Shapes shared by every service: optional values, the HTTP exception kinds the
    services throw, the enumerations of backend/src/common/enums.ts and the service
    catalogue record of backend/src/services/service.entity.ts. */
module Common {

  datatype Option<T> = None | Some(value: T)

  /** The NestJS exceptions the core throws (NotFoundException, BadRequestException,
      UnauthorizedException, ConflictException). */
  datatype Failure = NotFound | BadRequest | Unauthorized | Conflict

  datatype Result<T> = Ok(value: T) | Err(failure: Failure)

  datatype UserRole = Citizen | GovernmentOfficer | Admin

  datatype AppointmentStatus =
    | Pending
    | Confirmed
    | CancelledByCitizen
    | CancelledByOfficer
    | Completed
    | Rescheduled

  datatype DocumentType = Nic | Passport | DrivingLicense | Other

  /** `Uploaded` is the initial status the documents service and entity use. */
  datatype DocumentStatus = Uploaded | PendingReview | Approved | Rejected

  /** A row of the service catalogue. Durations are minutes. */
  datatype Service = Service(
    id: string,
    departmentId: string,
    name: string,
    description: Option<string>,
    category: Option<string>,
    durationMinutes: nat,
    isActive: bool)
}
