# NetSparkle DSA signature checker — a Dafny model

NetSparkle checks a downloaded update against a DSA signature before it is
trusted. `DSAChecker` holds a security mode (`UseIfPossible`, `Strict`,
`Unsafe`) and a public key, both fixed at construction. The key comes from the
first usable source: a non-empty explicit key string, then an embedded manifest
resource whose name contains the key file name ignoring case, then a file of
that name. Key text that is missing, empty or does not parse leaves the checker
without a key, and construction does not fail. Every verification first runs
the security-mode gate. The gate either answers `Valid`/`Invalid`/`Unchecked`
at once, or lets the cryptographic check run: the signature is base64-decoded,
the data is read, and DSA decides between `Valid` and `Invalid`.

Layout:

- `wrappers.dfy` — `Option` (a C# reference that may be null) and `Result`.
- `enums.dfy` — `SecurityMode` and `ValidationResult`.
- `system_library.dfy` — `string.IsNullOrEmpty`, `IndexOf` with
  `OrdinalIgnoreCase`, and `Library`, the foreign calls (key import, DSA
  verification, base64, stream text) as function-valued fields.
- `security_policy.dfy` — the gate matrix `Gate`, the meaning of one
  verification `Verify`, and the per-mode lemmas.
- `key_sources.dfy` — loaded assemblies and the file system as values, the
  resource search, and key resolution `ResolveKey` with its lemmas.
- `dsa_checker.dfy` — the class `NetSparkle.DSAChecker`: the constructor,
  `PublicKeyExists`, `SignatureNeeded`, `CheckSecurityMode` (its `ref` result
  is an in parameter and an out parameter), the three verification entry
  points and the resource loop `TryGetResourceStream`, each proved against the
  functions above.

Two behaviours of the code are easy to misread. The resource search tries only the FIRST resource name of each assembly that
contains the key name. If that resource has no stream, or its name is empty,
the assembly yields nothing, even when a later name matches and has a stream.
`VerifyDSASignatureFile` opens the file before the gate runs, so a missing
file is an error in every mode, even when the gate would answer at once.

## Model

| member | source | states |
|---|---|---|
| `SecurityPolicy.Gate` | NetSparkle/DSAChecker.cs:98-140 | the check runs exactly when a key and a non-empty signature are both present, in every mode; the gate never answers Valid; Strict answers only Invalid, Unsafe only Unchecked; UseIfPossible answers Unchecked exactly when there is no key |
| `NetSparkle.DSAChecker.CheckSecurityMode` | NetSparkle/DSAChecker.cs:98-140 | returns true exactly when the gate lets the check run, leaving the `ref` result untouched; otherwise the result it writes is the gate's answer |
| `NetSparkle.DSAChecker.SignatureNeeded` | NetSparkle/DSAChecker.cs:78-96 | a signature is needed exactly when the gate rejects a missing one as Invalid, and otherwise a missing one is let through as Unchecked |
| `NetSparkle.MissingSignatureFollowsNeed` | NetSparkle/DSAChecker.cs:78-140 | for a null or empty signature the verification answer is Invalid when `SignatureNeeded()` holds and Unchecked when it does not |
| `NetSparkle.DSAChecker.VerifyDSASignature` | NetSparkle/DSAChecker.cs:148-164 | the result is the gate's answer when it short-circuits; otherwise a format error when the signature is not base64, else Valid or Invalid as DSA decides over the stream's contents |
| `NetSparkle.DSAChecker.VerifyDSASignatureFile` | NetSparkle/DSAChecker.cs:172-179 | a missing file is a file-not-found error in every mode; an existing file is verified over its bytes |
| `NetSparkle.DSAChecker.VerifyDSASignatureOfString` | NetSparkle/DSAChecker.cs:187-199 | the string is verified over the bytes the stream writer produces for it; a null string is verified like the empty string |
| `SecurityPolicy.Verify` | NetSparkle/DSAChecker.cs:148-163 | the meaning of one verification: the gate, then the cryptographic check; its properties are `StrictMode`, `UseIfPossibleMode`, `UnsafeMode`, `UnsafeRejectsBadSignature`, `ValidExactly`, `FormatErrorExactly` and `ShortCircuitSkipsDecoding` |
| `SecurityPolicy.CryptoCheck` | NetSparkle/DSAChecker.cs:155-163 | a format error when the signature is not base64, else Valid or Invalid as DSA decides; `ValidExactly` and `FormatErrorExactly` state it |
| `SecurityPolicy.StrictMode` | NetSparkle/DSAChecker.cs:117-124 | in Strict mode a missing key or a null/empty signature is Invalid, and Strict never answers Unchecked |
| `SecurityPolicy.UseIfPossibleMode` | NetSparkle/DSAChecker.cs:102-115 | in UseIfPossible mode no key is Unchecked whatever the signature, a key without a signature is Invalid, and key plus signature give the cryptographic check's answer |
| `SecurityPolicy.UnsafeMode` | NetSparkle/DSAChecker.cs:126-134 | in Unsafe mode a missing key or signature is Unchecked, and key plus signature still give the cryptographic check's answer |
| `SecurityPolicy.UnsafeRejectsBadSignature` | NetSparkle/DSAChecker.cs:126-163 | Unsafe mode is not "always Unchecked": a decodable signature that DSA rejects is Invalid |
| `SecurityPolicy.ValidExactly` | NetSparkle/DSAChecker.cs:148-163 | Valid is answered if and only if a key exists, the signature is non-empty, it decodes, and DSA accepts it |
| `SecurityPolicy.FormatErrorExactly` | NetSparkle/DSAChecker.cs:150-155 | the only error verification raises is the format error, and it is raised exactly when key and signature are present and the signature does not decode |
| `SecurityPolicy.ShortCircuitSkipsDecoding` | NetSparkle/DSAChecker.cs:150-160 | when the gate short-circuits there is no error and the answer depends neither on the data nor on the decoder nor on DSA |
| `NetSparkle.DSAChecker.constructor` | NetSparkle/DSAChecker.cs:37-72 | the mode is kept and the key held is the one `ResolveKey` gives; a key that is missing or does not parse leaves no key (in the model construction never fails; see Left out for the source's escaping exceptions) |
| `NetSparkle.DSAChecker.PublicKeyExists` | NetSparkle/DSAChecker.cs:23-29 | true exactly when the checker holds a key; with the constructor's contract and `KeyOnlyFromParsedText`, exactly when non-empty key text was found and parsed |
| `KeySources.KeyText` | NetSparkle/DSAChecker.cs:41-58 | the key text after the search: the explicit key, else the found stream's text, else the null or empty explicit key; its properties are `ExplicitKeyWins`, `EmptyKeyIsAbsent`, `ResourceBeforeFile` and `FileFallback` |
| `KeySources.ParseProvider` | NetSparkle/DSAChecker.cs:60-71 | no provider for null or empty text or when parsing fails, else the parsed key; stated by `KeyOnlyFromParsedText` |
| `KeySources.ResolveKey` | NetSparkle/DSAChecker.cs:41-71 | the key a checker is constructed with; its source order and silent downgrade are the five key-resolution lemmas |
| `KeySources.TryGetFileResource` | NetSparkle/DSAChecker.cs:207-214 | the file's bytes when the path exists, else the stream passed in; its use in key resolution is stated by `FileFallback` |
| `KeySources.ExplicitKeyWins` | NetSparkle/DSAChecker.cs:41-66 | a non-empty explicit key is parsed as is; resources and files are not consulted |
| `KeySources.EmptyKeyIsAbsent` | NetSparkle/DSAChecker.cs:41-60 | an empty explicit key resolves exactly like a null one |
| `KeySources.ResourceBeforeFile` | NetSparkle/DSAChecker.cs:46-56 | without an explicit key, a resource stream that is found supplies the key text and the file is not consulted |
| `KeySources.FileFallback` | NetSparkle/DSAChecker.cs:46-58 | without an explicit key or a resource stream, the file supplies the key text when the path exists, and otherwise there is no key |
| `KeySources.KeyOnlyFromParsedText` | NetSparkle/DSAChecker.cs:60-71 | a key is held if and only if non-empty key text was found and parsing it succeeded |
| `NetSparkle.DSAChecker.TryGetResourceStream` | NetSparkle/DSAChecker.cs:221-247 | the loop returns the resource search's answer: the first non-null stream in assembly order, or null |
| `KeySources.FindResource` | NetSparkle/DSAChecker.cs:221-247 | null exactly when no assembly yields a stream; otherwise the stream of the first assembly that yields one |
| `KeySources.FirstStreamWins` | NetSparkle/DSAChecker.cs:224-245 | the first assembly in order that yields a stream decides the search |
| `KeySources.UnsupportedSkipped` | NetSparkle/DSAChecker.cs:224-235 | inserting an assembly whose resource listing is unsupported anywhere in the sequence does not change the search's answer |
| `KeySources.AssemblyStream` | NetSparkle/DSAChecker.cs:226-244 | what one assembly yields: nothing for an unsupported listing, else the stream of the first matching name; stated by `OnlyFirstMatchTried` |
| `KeySources.GetManifestResourceStream` | NetSparkle/DSAChecker.cs:239 | the stream of the resource with exactly the given name; stated by `StreamOfFirstNamed` |
| `KeySources.OnlyFirstMatchTried` | NetSparkle/DSAChecker.cs:236-244 | within one assembly only the first resource whose name contains the key name is tried; its stream (none for an empty name) is the assembly's answer |
| `KeySources.StreamOfFirstNamed` | NetSparkle/DSAChecker.cs:239 | looking a resource up by its exact name yields the stream of the first resource carrying that name |
| `KeySources.FirstOrDefault` | NetSparkle/DSAChecker.cs:236 | null exactly when no name contains the key name ignoring case; otherwise the first name that does |
| `SystemLibrary.IndexOfIgnoreCase` | NetSparkle/DSAChecker.cs:236 | -1 exactly when the value occurs nowhere ignoring case; otherwise the first index at which it occurs; 0 for the empty value |
| `SystemLibrary.ContainsIgnoreCase` | NetSparkle/DSAChecker.cs:236 | the name contains the key name, ignoring case, at some index |

## Left out

- DSA cryptography and XML key import (`FromXmlString`, `VerifyData`): foreign calls, kept as the `parseKey` and `verifyData` fields of `Library`; a failing import is `parseKey` returning None.
- Base64 (`Convert.FromBase64String`): a library call, kept as the partial `fromBase64` field of `Library`.
- Text encoding (`StreamReader.ReadToEnd`, the `StreamWriter` of `VerifyDSASignatureOfString`): kept as the `readText` and `writeText` fields of `Library`.
- Reflection: `AppDomain.CurrentDomain.GetAssemblies()` is replaced by a sequence of assemblies passed to the constructor; each is either an unsupported listing or a sequence of (name, optional stream) resources.
- File system: `File.Exists` and `File.OpenRead` are replaced by a map from existing paths to their bytes; open failures other than a missing file (permissions, locks) and handle disposal by `using` are not modelled.
- NetSparkle.DSAChecker.constructor: in the model construction never fails. In the source only `FromXmlString` is inside the try (lines 62-70); a failure of `GetManifestResourceStream`, of `File.OpenRead` on the key file or of `ReadToEnd` (lines 46-56) escapes from the constructor, and the model does not capture those exceptions.
- Stream reading: the data is the stream's full contents; a single `stream.Read` call, which need not fill the buffer, and a stream positioned past its start are not modelled.
- Null arguments, which the source rejects when it uses them, are excluded by the parameter types: a null stream (it throws only once the gate lets the check run, at line 159), a null `publicKeyFile` (it throws only without an explicit key and when some assembly lists a resource name, at line 236; otherwise `File.Exists(null)` is false), and a null `binaryPath`.
- `Debug.WriteLine` logging for skipped assemblies.
- The `default` branches throwing `ArgumentOutOfRangeException` in `SignatureNeeded` and `CheckSecurityMode` are unreachable: `SecurityMode` has exactly three constructors.
- Concurrency: the checker's fields are `const`, so nothing can change them after construction; thread safety is not stated further.
- SystemLibrary.UpperInvariant: folds only the ASCII letters, so `IndexOfIgnoreCase` does not model case-insensitive matching of non-ASCII letters.
