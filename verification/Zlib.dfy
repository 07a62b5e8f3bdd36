/** Types shared by all of zlib. */
module Zlib {
  type byte = x: int | 0 <= x < 256

  /** Return codes; the allocation failure Z_MEM_ERROR does not occur here. */
  datatype Status = OK | STREAM_END | NEED_DICT | STREAM_ERROR | DATA_ERROR | BUF_ERROR
}
