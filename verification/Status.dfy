/** The status codes operations hand back. */
module Status {
  const BTR_SUCCESS := 0
  const BTR_KEY_NOT_FOUND := 4
  const BTR_INVALID_POS := 8
  const BTR_EOF := 9
  const BTR_UNSUPPORTED_OP := 20
  const BTR_DATA_TOO_SHORT := 22
  const BTR_TXN_ACTIVE := 37
  const BTR_NO_TXN := 39
  const STATUS_BELOW_FIXED := 28
  const STATUS_BAD_DESCRIPTOR := 62
  const STATUS_FILTER_EXHAUSTED := 64
  const STATUS_BEYOND_END := 103
  const ERR_CONTEXT_FAILURE := 2012
}
