/** The exceptions the publisher distinguishes, and the death of its process. */
module Failures {

  datatype Failure =
    | Crashed
    | Transport
    | Service(status: int, code: string)
    | OciCertificate(reason: string)
    | Reconciliation(reason: string)
    | RollbackFailed(reason: string)
    | Validation
    | AuditUnsuccessful
    | PublicationFailed(reason: string)
    | Database
    | MissingOperation
    | NoAttempts
    | Issuance
}
