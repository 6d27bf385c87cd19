/** The status codes the camera classes share. */
module CameraStatus {

  datatype Status =
    | OK | BAD_VALUE | INVALID_OPERATION | NOT_ENOUGH_DATA | NAME_NOT_FOUND | LIBRARY_ERROR
}
