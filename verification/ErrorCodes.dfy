/** The codes handlers return: those of the data model, then those of the firmware update object. */
module ErrorCodes {
  const ERR_BAD_REQUEST := -128
  const ERR_NOT_FOUND := -132
  const ERR_METHOD_NOT_ALLOWED := -133
  const ERR_INTERNAL := -160

  const ERR_GENERIC := -1
  const ERR_OUT_OF_MEMORY := -3
  const ERR_INTEGRITY_FAILURE := -5
  const ERR_UNSUPPORTED_PACKAGE_TYPE := -6
  const ERR_CONFLICTING_STATE := -12
  const ERR_DEPENDENCY_ERROR := -13
}
