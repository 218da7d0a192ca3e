/** Bytes, as produced by `str.encode` and consumed by `base64.b64encode`. */
module Octets {

  type byte = x: int | 0 <= x < 256
}
