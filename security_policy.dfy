/** The decision rules of the DSA checker as functions of its state:
    the security-mode gate that runs before any cryptography, and the
    meaning of one verification call. */
module SecurityPolicy {
  import opened Wrappers
  import opened Enums
  import opened SystemLibrary

  /** What the gate decides: let the cryptographic check run, or answer at once. */
  datatype GateOutcome = Proceed | ShortCircuit(result: ValidationResult)

  /** Errors a verification call raises instead of returning a result. */
  datatype VerifyError =
    | FormatError              // the signature is not valid base64
    | FileNotFound(path: string) // the binary to verify does not exist

  /** A signature is present when it is neither null nor empty. */
  predicate SignaturePresent(signature: Option<string>) {
    !IsNullOrEmpty(signature)
  }

  /** The gate for one security mode, given whether a key and a signature are
      present. The cryptographic check runs exactly when both are present, in
      every mode; the gate itself never answers Valid; Strict answers only
      Invalid, Unsafe only Unchecked, and UseIfPossible answers Unchecked
      exactly when there is no key. */
  function Gate(mode: SecurityMode, keyExists: bool, signaturePresent: bool): (r: GateOutcome)
    ensures r.Proceed? <==> keyExists && signaturePresent
    ensures r != ShortCircuit(Valid)
    ensures mode == Strict ==> r != ShortCircuit(Unchecked)
    ensures mode == Unsafe ==> r != ShortCircuit(Invalid)
    ensures mode == UseIfPossible ==> (r == ShortCircuit(Unchecked) <==> !keyExists)
  {
    match mode
    case UseIfPossible =>
      if keyExists && !signaturePresent then ShortCircuit(Invalid)
      else if !keyExists then ShortCircuit(Unchecked)
      else Proceed
    case Strict =>
      if !keyExists || !signaturePresent then ShortCircuit(Invalid) else Proceed
    case Unsafe =>
      if !keyExists || !signaturePresent then ShortCircuit(Unchecked) else Proceed
  }

  /** The cryptographic check, taken on its own: the DSA answer for a signature
      that decodes, or a format error. */
  function CryptoCheck(key: DsaPublicKey, signature: string, data: seq<byte>, lib: Library)
    : Result<ValidationResult, VerifyError>
  {
    match lib.fromBase64(signature)
    case None => Err(FormatError)
    case Some(hash) => Ok(if lib.verifyData(key, data, hash) then Valid else Invalid)
  }

  /** The result of verifying `signature` over `data` with the key `key`, as
      `VerifyDSASignature` computes it: the gate first; only if it lets the
      check run is the signature base64-decoded and the data handed to DSA. */
  function Verify(mode: SecurityMode, key: Option<DsaPublicKey>, signature: Option<string>,
                  data: seq<byte>, lib: Library): Result<ValidationResult, VerifyError>
  {
    match Gate(mode, key.Some?, SignaturePresent(signature))
    case ShortCircuit(result) => Ok(result)
    case Proceed => CryptoCheck(key.value, signature.value, data, lib)
  }

  /** Strict: a missing key or a missing signature is Invalid, and Strict never
      answers Unchecked. */
  lemma StrictMode(key: Option<DsaPublicKey>, signature: Option<string>, data: seq<byte>, lib: Library)
    ensures key.None? || !SignaturePresent(signature) ==> Verify(Strict, key, signature, data, lib) == Ok(Invalid)
    ensures Verify(Strict, key, signature, data, lib) != Ok(Unchecked)
  {
  }

  /** UseIfPossible: no key is Unchecked whatever the signature; a key with a
      missing signature is Invalid; only key and signature together reach the
      cryptographic check. */
  lemma UseIfPossibleMode(key: Option<DsaPublicKey>, signature: Option<string>, data: seq<byte>, lib: Library)
    ensures key.None? ==> Verify(UseIfPossible, key, signature, data, lib) == Ok(Unchecked)
    ensures key.Some? && !SignaturePresent(signature) ==> Verify(UseIfPossible, key, signature, data, lib) == Ok(Invalid)
    ensures key.Some? && SignaturePresent(signature) ==>
      Verify(UseIfPossible, key, signature, data, lib) == CryptoCheck(key.value, signature.value, data, lib)
  {
  }

  /** Unsafe: a missing key or signature is Unchecked, but with both present the
      real check runs, so a signature that does not match is Invalid. */
  lemma UnsafeMode(key: Option<DsaPublicKey>, signature: Option<string>, data: seq<byte>, lib: Library)
    ensures key.None? || !SignaturePresent(signature) ==> Verify(Unsafe, key, signature, data, lib) == Ok(Unchecked)
    ensures key.Some? && SignaturePresent(signature) ==>
      Verify(Unsafe, key, signature, data, lib) == CryptoCheck(key.value, signature.value, data, lib)
  {
  }

  /** Unsafe is not "always Unchecked": a decodable signature that DSA rejects
      is Invalid. */
  lemma UnsafeRejectsBadSignature(key: DsaPublicKey, signature: string, data: seq<byte>, lib: Library)
    requires signature != ""
    requires lib.fromBase64(signature).Some?
    requires !lib.verifyData(key, data, lib.fromBase64(signature).value)
    ensures Verify(Unsafe, Some(key), Some(signature), data, lib) == Ok(Invalid)
  {
  }

  /** Valid is answered exactly when a key exists, the signature is non-empty,
      it decodes, and DSA accepts it — in every mode. */
  lemma ValidExactly(mode: SecurityMode, key: Option<DsaPublicKey>, signature: Option<string>,
                     data: seq<byte>, lib: Library)
    ensures Verify(mode, key, signature, data, lib) == Ok(Valid) <==>
      key.Some? && SignaturePresent(signature) && lib.fromBase64(signature.value).Some? &&
      lib.verifyData(key.value, data, lib.fromBase64(signature.value).value)
  {
  }

  /** A decoding error is raised exactly when the gate let the check run and
      the signature is not base64; no other error comes out of Verify. */
  lemma FormatErrorExactly(mode: SecurityMode, key: Option<DsaPublicKey>, signature: Option<string>,
                           data: seq<byte>, lib: Library)
    ensures Verify(mode, key, signature, data, lib).Err? ==> Verify(mode, key, signature, data, lib).error == FormatError
    ensures Verify(mode, key, signature, data, lib).Err? <==>
      key.Some? && SignaturePresent(signature) && lib.fromBase64(signature.value).None?
  {
  }

  /** A short-circuit is answered before decoding and before the data is read:
      the answer does not depend on the data, on the decoder or on DSA, so a
      malformed signature raises no error. */
  lemma ShortCircuitSkipsDecoding(mode: SecurityMode, key: Option<DsaPublicKey>, signature: Option<string>,
                                  data: seq<byte>, lib: Library, otherData: seq<byte>, otherLib: Library)
    requires Gate(mode, key.Some?, SignaturePresent(signature)).ShortCircuit?
    ensures Verify(mode, key, signature, data, lib).Ok?
    ensures Verify(mode, key, signature, data, lib) == Verify(mode, key, signature, otherData, otherLib)
  {
  }
}
