/** The DSA signature checker of NetSparkle: a security mode and a public key
    (or none), both fixed when the checker is constructed, and the
    verification entry points that apply the mode before any cryptography. */
module NetSparkle {
  import opened Wrappers
  import opened Enums
  import opened SystemLibrary
  import opened SecurityPolicy
  import opened KeySources

  class DSAChecker {
    const securityMode: SecurityMode
    /** The imported key; None stands for a null provider. */
    const provider: Option<DsaPublicKey>
    /** The cryptographic and text calls the checker makes. */
    const lib: Library

    /** Resolves the key from the first usable source: a non-empty explicit
        key, else the first embedded resource whose name contains
        `publicKeyFile` ignoring case, else the file `publicKeyFile`. Key text
        that is missing, empty or fails to parse leaves the checker without a
        key. The calls that find and read the key text are total here. */
    constructor(assemblies: seq<Assembly>, files: FileSystem, lib: Library, mode: SecurityMode,
                publicKey: Option<string> := None, publicKeyFile: string := "NetSparkle_DSA.pub")
      ensures securityMode == mode && this.lib == lib
      ensures provider == ResolveKey(publicKey, publicKeyFile, assemblies, files, lib)
    {
      securityMode := mode;
      this.lib := lib;
      var key := publicKey;
      if IsNullOrEmpty(key) {
        var data := TryGetResourceStream(assemblies, publicKeyFile);
        if data.None? {
          data := TryGetFileResource(publicKeyFile, data, files);
        }
        if data.Some? {
          key := Some(lib.readText(data.value));
        }
      }
      if !IsNullOrEmpty(key) {
        provider := lib.parseKey(key.value);
      } else {
        provider := None;
      }
    }

    predicate PublicKeyExists() {
      provider.Some?
    }

    /** Whether a signature is required: exactly when the gate rejects a
        missing one, and otherwise a missing one is let through as Unchecked. */
    function SignatureNeeded(): (r: bool)
      ensures r <==> Gate(securityMode, PublicKeyExists(), false) == ShortCircuit(Invalid)
      ensures !r <==> Gate(securityMode, PublicKeyExists(), false) == ShortCircuit(Unchecked)
    {
      match securityMode
      case UseIfPossible => PublicKeyExists()
      case Strict => true
      case Unsafe => false
    }

    /** The gate, with the source's `ref` result: answers whether the
        cryptographic check may run; when it may not, `result` is the answer,
        and when it may, `result` is left as it came in. */
    method CheckSecurityMode(signature: Option<string>, resultIn: ValidationResult)
      returns (proceed: bool, result: ValidationResult)
      ensures proceed <==> Gate(securityMode, PublicKeyExists(), SignaturePresent(signature)).Proceed?
      ensures proceed ==> result == resultIn
      ensures !proceed ==> Gate(securityMode, PublicKeyExists(), SignaturePresent(signature)) == ShortCircuit(result)
    {
      result := resultIn;
      match securityMode {
        case UseIfPossible =>
          if PublicKeyExists() && IsNullOrEmpty(signature) {
            proceed, result := false, Invalid;
            return;
          }
          if !PublicKeyExists() {
            proceed, result := false, Unchecked;
            return;
          }
        case Strict =>
          if !PublicKeyExists() || IsNullOrEmpty(signature) {
            proceed, result := false, Invalid;
            return;
          }
        case Unsafe =>
          if !PublicKeyExists() || IsNullOrEmpty(signature) {
            proceed, result := false, Unchecked;
            return;
          }
      }
      proceed := true;
    }

    /** Verifies `signature` over the full contents of a stream. */
    method VerifyDSASignature(signature: Option<string>, stream: seq<byte>)
      returns (r: Result<ValidationResult, VerifyError>)
      ensures r == Verify(securityMode, provider, signature, stream, lib)
    {
      var proceed, res := CheckSecurityMode(signature, Invalid);
      if !proceed {
        return Ok(res);
      }
      var hash := lib.fromBase64(signature.value);
      if hash.None? {
        return Err(FormatError);
      }
      var data := stream;
      r := Ok(if lib.verifyData(provider.value, data, hash.value) then Valid else Invalid);
    }

    /** Verifies `signature` over a file. The file is opened before the gate
        runs, so a missing file is an error whatever the mode. */
    method VerifyDSASignatureFile(signature: Option<string>, binaryPath: string, files: FileSystem)
      returns (r: Result<ValidationResult, VerifyError>)
      ensures binaryPath !in files ==> r == Err(FileNotFound(binaryPath))
      ensures binaryPath in files ==> r == Verify(securityMode, provider, signature, files[binaryPath], lib)
    {
      if binaryPath !in files {
        return Err(FileNotFound(binaryPath));
      }
      r := VerifyDSASignature(signature, files[binaryPath]);
    }

    /** Verifies `signature` over the bytes a `StreamWriter` writes for `data`;
        a null string writes nothing, like the empty string. */
    method VerifyDSASignatureOfString(signature: Option<string>, data: Option<string>)
      returns (r: Result<ValidationResult, VerifyError>)
      ensures r == Verify(securityMode, provider, signature, lib.writeText(if data.None? then "" else data.value), lib)
    {
      var text := if data.None? then "" else data.value;
      var stream := lib.writeText(text);
      r := VerifyDSASignature(signature, stream);
    }

    /** The resource loop: scans the assemblies in order, skips those whose
        listing is unsupported, tries the first matching name of each and
        stops at the first non-null stream. */
    static method TryGetResourceStream(assemblies: seq<Assembly>, publicKey: string)
      returns (data: Option<seq<byte>>)
      ensures data == FindResource(assemblies, publicKey)
    {
      data := None;
      var i := 0;
      while i < |assemblies|
        invariant 0 <= i <= |assemblies|
        invariant data.None?
        invariant forall j :: 0 <= j < i ==> AssemblyStream(assemblies[j], publicKey).None?
      {
        var asm := assemblies[i];
        if asm.ListingUnsupported? {
          i := i + 1;
          continue;
        }
        var resourceName := FirstOrDefault(ResourceNames(asm.resources), publicKey);
        if !IsNullOrEmpty(resourceName) {
          data := GetManifestResourceStream(asm.resources, resourceName.value);
          if data.Some? {
            FirstStreamWins(assemblies, publicKey, i);
            return;
          }
        }
        i := i + 1;
      }
    }
  }

  /** With no signature, a checker answers Invalid exactly when it says a
      signature is needed, and Unchecked otherwise. */
  lemma MissingSignatureFollowsNeed(c: DSAChecker, signature: Option<string>, data: seq<byte>)
    requires !SignaturePresent(signature)
    ensures Verify(c.securityMode, c.provider, signature, data, c.lib) ==
      Ok(if c.SignatureNeeded() then Invalid else Unchecked)
  {
  }
}
