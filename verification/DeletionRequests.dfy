module DeletionRequests {
  /** `deletion_requests.status`. */
  datatype RequestStatus = Grace | Processing | Erased | Cancelled
}
