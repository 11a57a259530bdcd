/** Where the checker's public key comes from: an explicit key string, an
    embedded manifest resource of a loaded assembly, or a file. The loaded
    assemblies and the file system are values handed to the model. */
module KeySources {
  import opened Wrappers
  import opened SystemLibrary

  /** One manifest resource: its name and the stream that
      `GetManifestResourceStream` returns for it (None for null). */
  datatype ManifestResource = ManifestResource(name: string, content: Option<seq<byte>>)

  /** A loaded assembly as the resource lookup sees it. */
  datatype Assembly =
    | ListingUnsupported                       // GetManifestResourceNames throws NotSupportedException
    | Listing(resources: seq<ManifestResource>)

  /** The files that exist, by path, with their bytes. */
  type FileSystem = map<string, seq<byte>>

  /** `GetManifestResourceNames()`, in order. */
  function ResourceNames(resources: seq<ManifestResource>): seq<string>
  {
    seq(|resources|, i requires 0 <= i < |resources| => resources[i].name)
  }

  function FirstMatchFrom(names: seq<string>, key: string, k: nat): (r: int)
    decreases |names| - k
    ensures r == -1 || (k <= r < |names| && ContainsIgnoreCase(names[r], key))
    ensures r == -1 ==> forall i :: k <= i < |names| ==> !ContainsIgnoreCase(names[i], key)
    ensures r != -1 ==> forall i :: k <= i < r ==> !ContainsIgnoreCase(names[i], key)
  {
    if k >= |names| then -1
    else if ContainsIgnoreCase(names[k], key) then k
    else FirstMatchFrom(names, key, k + 1)
  }

  /** `names.FirstOrDefault(s => s.IndexOf(key, StringComparison.OrdinalIgnoreCase) > -1)`:
      the first name containing `key` ignoring case, or null when none does. */
  function FirstOrDefault(names: seq<string>, key: string): (r: Option<string>)
    ensures r.None? <==> forall i :: 0 <= i < |names| ==> !ContainsIgnoreCase(names[i], key)
    ensures r.Some? ==>
      exists i :: 0 <= i < |names| && names[i] == r.value &&
        ContainsIgnoreCase(names[i], key) && (forall j :: 0 <= j < i ==> !ContainsIgnoreCase(names[j], key))
  {
    var i := FirstMatchFrom(names, key, 0);
    if i == -1 then None else Some(names[i])
  }

  /** `GetManifestResourceStream(name)`: the stream of the resource with exactly
      this name, or null when there is none. */
  function GetManifestResourceStream(resources: seq<ManifestResource>, name: string): Option<seq<byte>>
  {
    if resources == [] then None
    else if resources[0].name == name then resources[0].content
    else GetManifestResourceStream(resources[1..], name)
  }

  /** What one iteration of the resource loop finds in `asm`: nothing when its
      listing is unsupported; otherwise only the first name containing `key`
      is tried, and a null or empty name counts as not found. */
  function AssemblyStream(asm: Assembly, key: string): Option<seq<byte>>
  {
    match asm
    case ListingUnsupported => None
    case Listing(resources) =>
      var resourceName := FirstOrDefault(ResourceNames(resources), key);
      if IsNullOrEmpty(resourceName) then None
      else GetManifestResourceStream(resources, resourceName.value)
  }

  function FirstStreamFrom(assemblies: seq<Assembly>, key: string, k: nat): (r: int)
    decreases |assemblies| - k
    ensures r == -1 || (k <= r < |assemblies| && AssemblyStream(assemblies[r], key).Some?)
    ensures r == -1 ==> forall i :: k <= i < |assemblies| ==> AssemblyStream(assemblies[i], key).None?
    ensures r != -1 ==> forall i :: k <= i < r ==> AssemblyStream(assemblies[i], key).None?
  {
    if k >= |assemblies| then -1
    else if AssemblyStream(assemblies[k], key).Some? then k
    else FirstStreamFrom(assemblies, key, k + 1)
  }

  /** The resource stream `TryGetResourceStream` returns: the first non-null
      stream any assembly yields, in order, or null when none does. */
  function FindResource(assemblies: seq<Assembly>, key: string): (r: Option<seq<byte>>)
    ensures r.None? <==> forall i :: 0 <= i < |assemblies| ==> AssemblyStream(assemblies[i], key).None?
    ensures r.Some? ==>
      exists i :: 0 <= i < |assemblies| && AssemblyStream(assemblies[i], key) == r &&
        (forall j :: 0 <= j < i ==> AssemblyStream(assemblies[j], key).None?)
  {
    var i := FirstStreamFrom(assemblies, key, 0);
    if i == -1 then None else AssemblyStream(assemblies[i], key)
  }

  /** `TryGetFileResource`: the file's bytes when the path exists, else `data`. */
  function TryGetFileResource(path: string, data: Option<seq<byte>>, files: FileSystem): Option<seq<byte>>
  {
    if path in files then Some(files[path]) else data
  }

  /** The key text after the constructor's search: the explicit key when it is
      neither null nor empty; otherwise the text of the resource stream, or
      failing that of the file, when one was found; otherwise the explicit
      (null or empty) key unchanged. */
  function KeyText(publicKey: Option<string>, publicKeyFile: string, assemblies: seq<Assembly>,
                   files: FileSystem, lib: Library): Option<string>
  {
    if !IsNullOrEmpty(publicKey) then publicKey
    else
      var resource := FindResource(assemblies, publicKeyFile);
      var data := if resource.None? then TryGetFileResource(publicKeyFile, resource, files) else resource;
      match data
      case Some(bytes) => Some(lib.readText(bytes))
      case None => publicKey
  }

  /** The provider the constructor keeps for a key text: none for a null or
      empty text, none when parsing fails. */
  function ParseProvider(key: Option<string>, lib: Library): Option<DsaPublicKey>
  {
    if IsNullOrEmpty(key) then None else lib.parseKey(key.value)
  }

  /** The key a checker constructed with these arguments holds. */
  function ResolveKey(publicKey: Option<string>, publicKeyFile: string, assemblies: seq<Assembly>,
                      files: FileSystem, lib: Library): Option<DsaPublicKey>
  {
    ParseProvider(KeyText(publicKey, publicKeyFile, assemblies, files, lib), lib)
  }

  // ----- the resource lookup -----

  lemma {:induction false} StreamOfFirstNamed(resources: seq<ManifestResource>, i: nat)
    requires i < |resources|
    requires forall j :: 0 <= j < i ==> resources[j].name != resources[i].name
    ensures GetManifestResourceStream(resources, resources[i].name) == resources[i].content
  {
    if i > 0 {
      StreamOfFirstNamed(resources[1..], i - 1);
    }
  }

  /** Within one assembly only the first resource whose name contains the key
      is tried: its stream is the assembly's answer, even when it is null and a
      later matching resource has one. */
  lemma OnlyFirstMatchTried(resources: seq<ManifestResource>, key: string, i: nat)
    requires i < |resources| && ContainsIgnoreCase(resources[i].name, key)
    requires forall j :: 0 <= j < i ==> !ContainsIgnoreCase(resources[j].name, key)
    ensures AssemblyStream(Listing(resources), key) ==
      if resources[i].name == "" then None else resources[i].content
  {
    var names := ResourceNames(resources);
    var r := FirstOrDefault(names, key);
    assert r.Some? by { assert ContainsIgnoreCase(names[i], key); }
    var i' :| 0 <= i' < |names| && names[i'] == r.value &&
      ContainsIgnoreCase(names[i'], key) && forall j :: 0 <= j < i' ==> !ContainsIgnoreCase(names[j], key);
    assert ContainsIgnoreCase(names[i'], key) && ContainsIgnoreCase(names[i], key);
    assert i' == i;
    if resources[i].name != "" {
      StreamOfFirstNamed(resources, i);
    }
  }

  /** The first assembly that yields a stream decides the lookup. */
  lemma FirstStreamWins(assemblies: seq<Assembly>, key: string, i: nat)
    requires i < |assemblies| && AssemblyStream(assemblies[i], key).Some?
    requires forall j :: 0 <= j < i ==> AssemblyStream(assemblies[j], key).None?
    ensures FindResource(assemblies, key) == AssemblyStream(assemblies[i], key)
  {
  }

  /** Past the inserted assembly, the search over `before + [ListingUnsupported] + after`
      runs one index behind the search over `before + after`. */
  lemma {:induction false} SearchPastInserted(before: seq<Assembly>, after: seq<Assembly>, key: string, m: nat)
    requires |before| <= m <= |before| + |after|
    decreases |before| + |after| - m
    ensures FirstStreamFrom(before + [ListingUnsupported] + after, key, m + 1) ==
      var r := FirstStreamFrom(before + after, key, m); if r == -1 then -1 else r + 1
  {
    if m < |before| + |after| {
      assert (before + [ListingUnsupported] + after)[m + 1] == (before + after)[m];
      SearchPastInserted(before, after, key, m + 1);
    }
  }

  /** Up to the inserted assembly both searches look at the same assemblies. */
  lemma {:induction false} SearchBeforeInserted(before: seq<Assembly>, after: seq<Assembly>, key: string, k: nat)
    requires k <= |before|
    decreases |before| - k
    ensures FirstStreamFrom(before + [ListingUnsupported] + after, key, k) ==
      var r := FirstStreamFrom(before + after, key, k); if r == -1 || r < |before| then r else r + 1
  {
    if k < |before| {
      assert (before + [ListingUnsupported] + after)[k] == (before + after)[k];
      SearchBeforeInserted(before, after, key, k + 1);
    } else {
      assert (before + [ListingUnsupported] + after)[k] == ListingUnsupported;
      SearchPastInserted(before, after, key, k);
    }
  }

  /** An assembly whose listing is unsupported is skipped, wherever it stands. */
  lemma UnsupportedSkipped(before: seq<Assembly>, after: seq<Assembly>, key: string)
    ensures FindResource(before + [ListingUnsupported] + after, key) == FindResource(before + after, key)
  {
    var all := before + [ListingUnsupported] + after;
    var rest := before + after;
    SearchBeforeInserted(before, after, key, 0);
    var r := FirstStreamFrom(rest, key, 0);
    var k := if r == -1 || r < |before| then r else r + 1;
    assert FirstStreamFrom(all, key, 0) == k;
    if r != -1 {
      assert all[k] == rest[r];
    }
  }

  // ----- key resolution -----

  /** A non-empty explicit key is used as is: resources and files are not consulted. */
  lemma ExplicitKeyWins(publicKey: string, publicKeyFile: string, assemblies: seq<Assembly>,
                        files: FileSystem, lib: Library)
    requires publicKey != ""
    ensures ResolveKey(Some(publicKey), publicKeyFile, assemblies, files, lib) == lib.parseKey(publicKey)
  {
  }

  /** An empty explicit key counts as no explicit key. */
  lemma EmptyKeyIsAbsent(publicKeyFile: string, assemblies: seq<Assembly>, files: FileSystem, lib: Library)
    ensures ResolveKey(Some(""), publicKeyFile, assemblies, files, lib) ==
            ResolveKey(None, publicKeyFile, assemblies, files, lib)
  {
  }

  /** A resource stream, when one is found, is used and the file is not consulted. */
  lemma ResourceBeforeFile(publicKey: Option<string>, publicKeyFile: string, assemblies: seq<Assembly>,
                           files: FileSystem, lib: Library)
    ensures IsNullOrEmpty(publicKey) && FindResource(assemblies, publicKeyFile).Some? ==>
      ResolveKey(publicKey, publicKeyFile, assemblies, files, lib) ==
        ParseProvider(Some(lib.readText(FindResource(assemblies, publicKeyFile).value)), lib)
  {
  }

  /** Without an explicit key or a resource stream, the file is used when it
      exists; otherwise there is no key. */
  lemma FileFallback(publicKey: Option<string>, publicKeyFile: string, assemblies: seq<Assembly>,
                     files: FileSystem, lib: Library)
    requires IsNullOrEmpty(publicKey) && FindResource(assemblies, publicKeyFile).None?
    ensures ResolveKey(publicKey, publicKeyFile, assemblies, files, lib) ==
      if publicKeyFile in files then ParseProvider(Some(lib.readText(files[publicKeyFile])), lib) else None
  {
  }

  /** A key is held only when non-empty key text was found and parsing it
      succeeded; in every other case resolution ends, without error, with no key. */
  lemma KeyOnlyFromParsedText(publicKey: Option<string>, publicKeyFile: string, assemblies: seq<Assembly>,
                              files: FileSystem, lib: Library)
    ensures ResolveKey(publicKey, publicKeyFile, assemblies, files, lib).Some? <==>
      var text := KeyText(publicKey, publicKeyFile, assemblies, files, lib);
      !IsNullOrEmpty(text) && lib.parseKey(text.value).Some?
  {
  }
}
