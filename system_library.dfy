/** The parts of the .NET base class library the checker relies on.

    String helpers (`string.IsNullOrEmpty`, `IndexOf` with
    `StringComparison.OrdinalIgnoreCase`) are defined here. The cryptographic,
    base64 and text-encoding calls are foreign: the model does not define them,
    it receives them as the fields of a `Library` value. */
module SystemLibrary {
  import opened Wrappers

  newtype byte = x: int | 0 <= x < 256

  /** The public parameters a `DSACryptoServiceProvider` holds once a key
      has been imported; the model never looks inside them. */
  datatype DsaPublicKey = DsaPublicKey(p: seq<byte>, q: seq<byte>, g: seq<byte>, y: seq<byte>)

  /** The foreign calls, as total functions.
      - parseKey: `new DSACryptoServiceProvider()` followed by `FromXmlString`;
        None when either throws.
      - verifyData: `DSACryptoServiceProvider.VerifyData(data, signature)`.
      - fromBase64: `Convert.FromBase64String`; None when it throws `FormatException`.
      - readText: `new StreamReader(stream).ReadToEnd()` over the stream's bytes.
      - writeText: the bytes a default `StreamWriter` writes for a string. */
  datatype Library = Library(
    parseKey: string -> Option<DsaPublicKey>,
    verifyData: (DsaPublicKey, seq<byte>, seq<byte>) -> bool,
    fromBase64: string -> Option<seq<byte>>,
    readText: seq<byte> -> string,
    writeText: string -> seq<byte>)

  /** `string.IsNullOrEmpty`. */
  predicate IsNullOrEmpty(s: Option<string>) {
    s.None? || s.value == ""
  }

  /** Upper-case mapping used by ordinal case-insensitive comparison
      (ASCII letters only). */
  function UpperInvariant(c: char): char {
    if 'a' <= c <= 'z' then (c as int - 32) as char else c
  }

  /** `value` occurs in `s` at index `i`, ignoring case. */
  predicate MatchesAt(s: string, value: string, i: int) {
    0 <= i && i + |value| <= |s| &&
    forall j :: 0 <= j < |value| ==> UpperInvariant(s[i + j]) == UpperInvariant(value[j])
  }

  function IndexOfFrom(s: string, value: string, k: nat): (r: int)
    decreases |s| - k
    ensures r == -1 || (k <= r && MatchesAt(s, value, r))
    ensures r == -1 ==> forall i :: k <= i ==> !MatchesAt(s, value, i)
    ensures r != -1 ==> forall i :: k <= i < r ==> !MatchesAt(s, value, i)
  {
    if k + |value| > |s| then -1
    else if MatchesAt(s, value, k) then k
    else IndexOfFrom(s, value, k + 1)
  }

  /** `s.IndexOf(value, StringComparison.OrdinalIgnoreCase)`: the first index
      at which `value` occurs in `s` ignoring case, or -1. The empty value
      occurs at index 0 of every string. */
  function IndexOfIgnoreCase(s: string, value: string): (r: int)
    ensures r == -1 <==> forall i :: !MatchesAt(s, value, i)
    ensures r != -1 ==> MatchesAt(s, value, r) && forall i :: 0 <= i < r ==> !MatchesAt(s, value, i)
    ensures value == "" ==> r == 0
  {
    assert value == "" ==> MatchesAt(s, value, 0);
    IndexOfFrom(s, value, 0)
  }

  /** `s.IndexOf(value, StringComparison.OrdinalIgnoreCase) > -1`. */
  predicate ContainsIgnoreCase(s: string, value: string)
    ensures ContainsIgnoreCase(s, value) <==> exists i :: MatchesAt(s, value, i)
  {
    IndexOfIgnoreCase(s, value) > -1
  }
}
