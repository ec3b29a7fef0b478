/** The two append-only tables. */
module Tables {
  datatype Table = AuditEvents | QuarantinedAuditEvents
}
