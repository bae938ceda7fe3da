/** Names that the controllers share (internal/controllers/common.go). */
module Conventions {
  const FINALIZER := "dns.cs.sap.com/masquerading-operator"
}
