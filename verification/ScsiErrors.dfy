/** The return values of the SCSI kit. */
module ScsiErrors {
  const SCSIPERIPHERAL_DDK_SUCCESS: int := 31700000
  const SCSIPERIPHERAL_DDK_INVALID_PARAMETER: int := 401
}
