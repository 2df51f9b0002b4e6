/** The gRPC status codes the client's retry predicates and metrics name
    (numbering of google.rpc.Code). */
module StatusCodes {
  const Ok: nat := 0
  const Unknown: nat := 2
  const DeadlineExceeded: nat := 4
  const Aborted: nat := 10
  const ServiceUnavailable: nat := 14
}
