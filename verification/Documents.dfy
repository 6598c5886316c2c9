/** What the modules about extraction and about jobs both say of a document. */
module Documents {

  type DocId = nat

  datatype Status = Uploaded | Extracting | Extracted | RoleReview | RoleRejected | Failed
}
