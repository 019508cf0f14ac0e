/** Status codes returned by the library and the option type used for
    out-parameters that a failing call leaves unset (a NULL pointer in C). */
module Status {

  /** The status every successful call returns. */
  const SUCCESS: int := 0

  /** An invalid (NULL) parameter was passed to a path helper. */
  const ERROR_PATH_INVALID_PARAMETER: int := 0x6101

  /** The logger could not duplicate the standard output descriptor. */
  const ERROR_LOG_STDOUT_DUP: int := 0x6102

  /** The outcomes the allocator gives a path helper, one per kind of call:
      duplicating or concatenating strings, allocating a buffer, and
      reclaiming memory. */
  datatype Allocator = Allocator(strdupStatus: int, allocateStatus: int, reclaimStatus: int)

  /** A value that may be absent: `None` stands for a NULL pointer. */
  datatype Option<T> = None | Some(value: T)
}
