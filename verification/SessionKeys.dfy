// Keys of the R-GOOSE/R-SV session protocol (rsession/keys.go).

module SessionKeys {
  import opened Octets

  type int16 = n: int | -0x8000 <= n < 0x8000

  const SEC_NONE: byte := 0
  const SIG_NONE: byte := 0

  // The octets of key an encryption algorithm needs, 0 for none or unknown.
  function KeyLen(sec: byte): nat { if sec == 1 then 16 else if sec == 2 then 32 else 0 }

  // The octets of a truncated MAC, 0 for none or an unsupported algorithm.
  function MacLen(sig: byte): nat
  {
    if sig == 1 || sig == 6 then 10
    else if sig == 2 || sig == 7 then 16
    else if sig == 3 || sig == 8 then 32
    else 0
  }

  const MIN_HMAC_KEY := 16

  datatype Key = Key(
    id: uint32,
    material: Bytes,
    sec: byte,
    sig: byte,
    timeOfCurrentKey: uint32,
    timeToNextKey: int16)

  datatype KeyError = ReservedID | NoAlgorithm | Combination | Unsupported | WrongLength

  datatype Validity = Valid | Invalid(error: KeyError)

  function Validate(k: Key): Validity
  {
    if k.id == 0 then Invalid(ReservedID)
    else if k.sec == SEC_NONE && k.sig == SIG_NONE then Invalid(NoAlgorithm)
    else if k.sec != SEC_NONE && k.sig != SIG_NONE then Invalid(Combination)
    else if k.sec != SEC_NONE then
      if KeyLen(k.sec) == 0 then Invalid(Unsupported)
      else if |k.material| != KeyLen(k.sec) then Invalid(WrongLength)
      else Valid
    else if MacLen(k.sig) == 0 then Invalid(Unsupported)
    else if |k.material| < MIN_HMAC_KEY then Invalid(WrongLength)
    else Valid
  }
}
