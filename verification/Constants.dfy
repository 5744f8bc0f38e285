/** Numbers fixed by the C types and by the runtime library. */
module Constants {
  const UINT_RANGE: int := 0x1_0000_0000
  const INT32_MIN: int := -0x8000_0000
  const INT32_MAX: int := 0x7FFF_FFFF

  newtype uint32 = x: int | 0 <= x < 0x1_0000_0000

  newtype int32 = x: int | -0x8000_0000 <= x <= 0x7FFF_FFFF

  const SOAP_OK := 0
  const SOAP_ERR := -1
  const SOAP_TYPE := 4
  const SOAP_FAULT := 12
  const SOAP_EOM := 20
  const SOAP_TCP_ERROR := 28
  const SOAP_PLUGIN_ERROR := 40
  const SOAP_STOP := 1000
}
