/** Names of numbered metadata files, and the version numbers read back from them. */
module VersionNames {
  import opened Scalars
  import opened Numerals

  const PLAIN := ".metadata.json"
  const GZ := ".gz"
  const VERSIONS := "/metadata/v"

  predicate StartsWith(s: string, prefix: string) {
    |prefix| <= |s| && s[..|prefix|] == prefix
  }

  predicate EndsWith(s: string, suffix: string) {
    |suffix| <= |s| && s[|s| - |suffix|..] == suffix
  }

  /** Removes every leading repetition of `prefix`. */
  function TrimStart(s: string, prefix: string): string
    requires prefix != []
  {
    if StartsWith(s, prefix) then TrimStart(s[|prefix|..], prefix) else s
  }

  /** Removes every trailing repetition of `suffix`. */
  function TrimEnd(s: string, suffix: string): string
    requires suffix != []
  {
    if EndsWith(s, suffix) then TrimEnd(s[..|s| - |suffix|], suffix) else s
  }

  function LastSegment(path: string): string {
    if path == [] || path[|path| - 1] == '/' then [] else LastSegment(path[..|path| - 1]) + [path[|path| - 1]]
  }

  function VersionOf(name: string): Option<nat> {
    ParseUnsigned(TrimEnd(TrimEnd(name, PLAIN), GZ))
  }

  /** The version in a metadata location, whichever the encoding. */
  function ParseVersion(path: string): Option<nat> {
    VersionOf(TrimStart(LastSegment(path), "v"))
  }

  function Suffix(gzipped: bool): string {
    if gzipped then GZ + PLAIN else PLAIN
  }

  function VersionPath(location: string, version: nat, gzipped: bool): string {
    location + VERSIONS + ToDecimal(version) + Suffix(gzipped)
  }

  /** The next name: one version up, wrapping as 64-bit release arithmetic does. */
  function NextLocation(location: string, previous: string, gzipped: bool): Option<string> {
    match ParseVersion(previous)
    case None => None
    case Some(version) => Some(VersionPath(location, (version + 1) % (U64_MAX + 1), gzipped))
  }

  /** Which listed files are taken for versions of the table at `location`. */
  predicate IsVersionFile(location: string, path: string) {
    StartsWith(path, location + VERSIONS) && EndsWith(path, "metadata.json")
  }

  function ListedVersion(location: string, path: string): Option<nat> {
    VersionOf(TrimEnd(TrimStart(path, location + VERSIONS), "/"))
  }

  predicate NoSlash(s: string) {
    forall i :: 0 <= i < |s| ==> s[i] != '/'
  }

  lemma {:induction false} LastSegmentOf(dir: string, name: string)
    requires NoSlash(name)
    ensures LastSegment(dir + "/" + name) == name
    decreases |name|
  {
    var path := dir + "/" + name;
    if name != [] {
      LastSegmentOf(dir, name[..|name| - 1]);
      assert path[..|path| - 1] == dir + "/" + name[..|name| - 1];
    }
  }

  lemma TrimStartOnce(prefix: string, rest: string)
    requires prefix != [] && !StartsWith(rest, prefix)
    ensures TrimStart(prefix + rest, prefix) == rest
  {
    assert (prefix + rest)[|prefix|..] == rest;
  }

  lemma TrimEndOnce(rest: string, suffix: string)
    requires suffix != [] && !EndsWith(rest, suffix)
    ensures TrimEnd(rest + suffix, suffix) == rest
  {
    assert (rest + suffix)[..|rest|] == rest;
  }

  /** The two suffixes come off a numbered name. */
  lemma VersionOfName(version: nat, gzipped: bool)
    requires version <= U64_MAX
    ensures VersionOf(ToDecimal(version) + Suffix(gzipped)) == Some(version)
  {
    var digits := ToDecimal(version);
    assert IsDigit(digits[|digits| - 1]);
    ParseOfDecimal(version);
    var stem := if gzipped then digits + GZ else digits;
    assert digits + Suffix(gzipped) == stem + PLAIN;
    assert stem[|stem| - 1] != 'n';
    TrimEndOnce(stem, PLAIN);
    if gzipped {
      assert digits[|digits| - 1] != 'z';
      TrimEndOnce(digits, GZ);
    }
  }

  lemma NoSlashConcat(a: string, b: string)
    requires NoSlash(a) && NoSlash(b)
    ensures NoSlash(a + b)
  {
  }

  function Numbered(version: nat, gzipped: bool): string {
    ToDecimal(version) + Suffix(gzipped)
  }

  lemma NumberedNoSlash(version: nat, gzipped: bool)
    ensures NoSlash(Numbered(version, gzipped))
  {
    assert NoSlash(PLAIN) && NoSlash(GZ);
    NoSlashConcat(GZ, PLAIN);
    var digits := ToDecimal(version);
    assert NoSlash(digits) by {
      assert forall i :: 0 <= i < |digits| ==> IsDigit(digits[i]);
    }
    NoSlashConcat(digits, Suffix(gzipped));
  }

  lemma NumberedEnds(version: nat, gzipped: bool)
    ensures !StartsWith(Numbered(version, gzipped), "v")
    ensures EndsWith(Numbered(version, gzipped), "metadata.json")
  {
    var digits := ToDecimal(version);
    assert IsDigit(digits[0]);
    var name := Numbered(version, gzipped);
    assert name[0] == digits[0];
    assert PLAIN == "." + "metadata.json";
    assert name == (if gzipped then digits + GZ + "." else digits + ".") + "metadata.json";
  }

  lemma EndsWithLonger(front: string, s: string, suffix: string)
    requires EndsWith(s, suffix)
    ensures EndsWith(front + s, suffix)
  {
    assert (front + s)[|front + s| - |suffix|..] == s[|s| - |suffix|..];
  }

  lemma VersionPathParts(location: string, version: nat, gzipped: bool)
    ensures VersionPath(location, version, gzipped) == (location + VERSIONS) + Numbered(version, gzipped)
    ensures VersionPath(location, version, gzipped) == (location + "/metadata") + "/" + ("v" + Numbered(version, gzipped))
  {
    var rest := Numbered(version, gzipped);
    assert VERSIONS == "/metadata" + "/" + "v";
    assert location + VERSIONS == (location + "/metadata") + "/" + "v";
    assert ((location + "/metadata") + "/" + "v") + rest == (location + "/metadata") + "/" + ("v" + rest);
  }

  /** Parsing a generated name gives its version, in either encoding. */
  lemma ParseOfVersionPath(location: string, version: nat, gzipped: bool)
    requires version <= U64_MAX
    ensures ParseVersion(VersionPath(location, version, gzipped)) == Some(version)
  {
    var rest := Numbered(version, gzipped);
    NumberedNoSlash(version, gzipped);
    NumberedEnds(version, gzipped);
    NoSlashConcat("v", rest);
    VersionPathParts(location, version, gzipped);
    LastSegmentOf(location + "/metadata", "v" + rest);
    TrimStartOnce("v", rest);
    VersionOfName(version, gzipped);
  }

  /** The generated name's version is the previous one plus one. */
  lemma NextVersion(location: string, previous: string, gzipped: bool, version: nat)
    requires ParseVersion(previous) == Some(version) && version < U64_MAX
    ensures NextLocation(location, previous, gzipped) == Some(VersionPath(location, version + 1, gzipped))
    ensures ParseVersion(NextLocation(location, previous, gzipped).value) == Some(version + 1)
  {
    assert (version + 1) % (U64_MAX + 1) == version + 1;
    ParseOfVersionPath(location, version + 1, gzipped);
  }

  /** A listing recognises generated names and reads the same version from them. */
  lemma ListedOfVersionPath(location: string, version: nat, gzipped: bool)
    requires version <= U64_MAX
    ensures IsVersionFile(location, VersionPath(location, version, gzipped))
    ensures ListedVersion(location, VersionPath(location, version, gzipped)) == Some(version)
  {
    var rest := Numbered(version, gzipped);
    var prefix := location + VERSIONS;
    NumberedNoSlash(version, gzipped);
    NumberedEnds(version, gzipped);
    VersionPathParts(location, version, gzipped);
    EndsWithLonger(prefix, rest, "metadata.json");
    SlashedNotPrefix(rest, prefix, |location|);
    TrimStartOnce(prefix, rest);
    SlashedNotSuffix(rest);
    VersionOfName(version, gzipped);
  }

  lemma DiffersFromPrefix(s: string, prefix: string, k: nat)
    requires k < |prefix| && k < |s| && s[k] != prefix[k]
    ensures !StartsWith(s, prefix)
  {
    if |prefix| <= |s| {
      assert s[..|prefix|][k] == s[k];
    }
  }

  lemma SlashedNotPrefix(s: string, prefix: string, k: nat)
    requires NoSlash(s) && k < |prefix| && prefix[k] == '/'
    ensures !StartsWith(s, prefix)
  {
  }

  lemma SlashedNotSuffix(s: string)
    requires NoSlash(s)
    ensures TrimEnd(s, "/") == s
  {
    if s != [] {
      assert s[|s| - 1..][0] == s[|s| - 1] != "/"[0];
    }
  }

  lemma EncodingChar(stem: string, gzipped: bool)
    requires stem != []
    ensures
      var path := stem + Suffix(gzipped);
      |path| >= 15 && path[|path| - 15] == if gzipped then 'z' else stem[|stem| - 1]
  {
  }

  /** Distinct versions have distinct names. */
  lemma VersionPathInjective(location: string, other: string, m: nat, n: nat, g: bool, h: bool)
    requires m <= U64_MAX && n <= U64_MAX
    requires VersionPath(location, m, g) == VersionPath(other, n, h)
    ensures m == n && g == h && location == other
  {
    ParseOfVersionPath(location, m, g);
    ParseOfVersionPath(other, n, h);
    SameEncoding(location + VERSIONS, other + VERSIONS, m, g, h);
    VersionPathFront(location, m, g);
    VersionPathFront(other, n, h);
  }

  lemma VersionPathFront(location: string, version: nat, gzipped: bool)
    ensures |VersionPath(location, version, gzipped)| == |location| + |VERSIONS + ToDecimal(version) + Suffix(gzipped)|
    ensures VersionPath(location, version, gzipped)[..|location|] == location
  {
  }

  lemma SameEncoding(front: string, otherFront: string, version: nat, g: bool, h: bool)
    requires front + ToDecimal(version) + Suffix(g) == otherFront + ToDecimal(version) + Suffix(h)
    ensures g == h
  {
    var digits := ToDecimal(version);
    assert IsDigit(digits[|digits| - 1]);
    EncodingChar(front + digits, g);
    EncodingChar(otherFront + digits, h);
  }
}
