/**
 * Storage file names: the allow-list pattern for names of uploaded files,
 * the extension check, and resolving a name inside the storage directory
 * without leaving it. Paths are POSIX paths.
 */
module SecurityStorage {
  import opened JsText
  import opened JsCore
  import opened Optional

  const MaxNameLength := 128

  predicate IsNameLead(c: char) {
    ('A' <= c <= 'Z') || ('a' <= c <= 'z') || ('0' <= c <= '9') || c == '_' || c == '-'
  }

  predicate IsNameChar(c: char) {
    IsNameLead(c) || c == '.'
  }

  /** `/^[A-Za-z0-9_-][A-Za-z0-9._-]{0,127}$/`. */
  predicate MatchesFilenamePattern(s: string) {
    1 <= |s| <= MaxNameLength && IsNameLead(s[0]) && forall i :: 1 <= i < |s| ==> IsNameChar(s[i])
  }

  /** `isSafeStorageFilename` on a string: the pattern, no "..", no slash of either kind. */
  predicate IsSafeName(s: string) {
    MatchesFilenamePattern(s) && !Contains(s, "..") && !Contains(s, "/") && !Contains(s, "\\")
  }

  /** `isSafeStorageFilename`: only strings can be safe. */
  predicate IsSafeStorageFilename(v: JsValue) {
    v.Str? && IsSafeName(v.s)
  }

  /** The slash checks add nothing to the pattern: a matching name holds no slash, so
      the safe names are exactly the matching names without "..". */
  lemma SafeNameIff(s: string)
    ensures IsSafeName(s) <==> MatchesFilenamePattern(s) && !Contains(s, "..")
  {
    if MatchesFilenamePattern(s) {
      ContainsCharIff(s, '/');
      ContainsCharIff(s, '\\');
    }
  }

  /** A safe name is a single path segment other than "." and "..": no separator, and it
      does not begin with a dot. */
  lemma SafeNameIsPlainSegment(s: string)
    requires IsSafeName(s)
    ensures '/' !in s && '\\' !in s && s[0] != '.'
    ensures s != "." && s != ".."
  {
    ContainsCharIff(s, '/');
    ContainsCharIff(s, '\\');
  }

  // ---------------------------------------------------------------- extname

  /** The last segment of the path, ignoring trailing slashes. */
  function Basename(p: string): (r: string)
    ensures '/' !in r
  {
    LastPiece(StripTrailingSlashes(p), '/')
  }

  /** `path.extname`: from the last dot of the last segment to its end; empty when the
      segment has no dot, begins with its only dot, or is "..". */
  function Extname(p: string): (r: string)
    ensures r == [] || (r[0] == '.' && '.' !in r[1..] && '/' !in r)
  {
    var b := Basename(p);
    var d := LastIndexOf(b, '.');
    if d <= 0 || b == ".." then "" else b[d..]
  }

  /** `extname(name).replace('.', '').toLowerCase()`, non-empty and in the list. */
  predicate HasAllowedExtension(fileName: string, allowed: seq<string>) {
    var e := Extname(fileName);
    var ext := if e == [] then e else ToLower(e[1..]);
    ext != [] && ext in allowed
  }

  /** A name with a non-empty stem and an extension is judged by that extension alone,
      case-insensitively. */
  lemma ExtnameOfName(stem: string, e: string)
    requires stem != [] && e != []
    requires '/' !in stem && '/' !in e && '.' !in e
    ensures Extname(stem + "." + e) == "." + e
    ensures forall allowed: seq<string> :: HasAllowedExtension(stem + "." + e, allowed) <==> ToLower(e) in allowed
  {
    var p := stem + "." + e;
    assert p[|p| - 1] == e[|e| - 1];
    assert StripTrailingSlashes(p) == p;
    assert forall j :: 0 <= j < |p| ==> p[j] != '/';
    assert LastIndexOf(p, '/') == -1;
    assert Basename(p) == p;
    assert p[|stem|] == '.';
    assert forall j :: |stem| < j < |p| ==> p[j] == e[j - |stem| - 1];
    assert LastIndexOf(p, '.') == |stem|;
    assert |p| >= 3;
    assert p[|stem|..] == "." + e;
    assert ToLower(e) != [];
  }

  /** A name whose last segment has no dot has no extension, so no list accepts it. */
  lemma NoDotNoExtension(fileName: string, allowed: seq<string>)
    requires '.' !in fileName
    ensures !HasAllowedExtension(fileName, allowed)
  {
    var s := StripTrailingSlashes(fileName);
    var b := Basename(fileName);
    assert EndsWith(s, b);
    forall j | 0 <= j < |b|
      ensures b[j] != '.'
    {
      assert b[j] == s[|s| - |b| + j] == fileName[|s| - |b| + j];
    }
    assert LastIndexOf(b, '.') == -1;
  }

  // ---------------------------------------------------------------- resolveStoragePath

  /** A path as `path.resolve` returns it: absolute, with no empty, "." or ".." segment
      and no trailing slash except for the root itself. */
  predicate IsResolved(p: string) {
    |p| >= 1 && p[0] == '/' && (p == "/" || p[|p| - 1] != '/')
    && forall k :: 0 <= k < |Split(p[1..], '/')| && p != "/" ==>
         Split(p[1..], '/')[k] !in {"", ".", ".."}
  }

  /** `path.resolve(base, segment)` for an already resolved `base` and one segment
      without separators. */
  function ResolveSegment(base: string, segment: string): (r: string)
    requires IsResolved(base) && '/' !in segment
  {
    if segment == "" || segment == "." then base
    else if segment == ".." then
      (var slash := LastIndexOf(base, '/');
       if slash <= 0 then "/" else base[..slash])
    else if base == "/" then "/" + segment
    else base + "/" + segment
  }

  /** `resolveStoragePath(baseDir, fileName)` with `baseDir` already resolved: unsafe
      names and targets outside `base + "/"` are refused. */
  function ResolveStoragePath(base: string, fileName: string): (r: Option<string>)
    requires IsResolved(base)
    ensures r.Some? ==> IsSafeName(fileName) && r.value == base + "/" + fileName
    ensures r.Some? <==> IsSafeName(fileName) && base != "/"
  {
    if !IsSafeName(fileName) then None
    else
      SafeNameIsPlainSegment(fileName);
      var target := ResolveSegment(base, fileName);
      assert base == "/" ==> target[1] == fileName[0];
      if !StartsWith(target, base + "/") then None else Some(target)
  }

  /** The directory check alone already keeps a parent reference out: resolving ".."
      never lands inside the base directory. */
  lemma ParentEscapesBase(base: string)
    requires IsResolved(base)
    ensures !StartsWith(ResolveSegment(base, ".."), base + "/")
  {
    var r := ResolveSegment(base, "..");
    var slash := LastIndexOf(base, '/');
    assert |r| <= |base|;
  }

  /** When the storage directory is the file-system root, every name is refused, because
      no resolved path starts with "//". */
  lemma RootBaseRefusesAll(fileName: string)
    ensures ResolveStoragePath("/", fileName).None?
  {
    assert IsResolved("/");
  }
}
