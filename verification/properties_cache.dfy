/**
 * The in-memory side of the application's settings: a string-to-string map with
 * null values refused, booleans stored as text, a "non-blank" existence test and
 * the defaults installed when no settings file exists yet.
 */
module PropertiesCache {
  import opened Wrappers

  // Keys.
  const Version := "version"
  const PngExportScale := "png.export.scale"
  const DeviceToken := "device.token"
  const ExportFolder := "folder.exports"
  const NotebookFolder := "folder.notebooks"
  const TemplateFolder := "folder.templates"
  const SvgPrimaryColor := "svg.color.primary"
  const SvgSecondaryColor := "svg.color.secondary"
  const SvgBackgroundColor := "svg.color.background"
  const SvgHighlightColor := "svg.color.highlight"
  const SvgGridColor := "svg.color.grid"
  const SshHost := "ssh.host"
  const SshPassword := "ssh.password"
  const ServerPort := "server.port"
  const PdfHdExport := "export.pdf.hd"
  const PdfPageSingle := "export.pdf.page"
  const PdfPagesMerged := "export.pdf.notebook"

  /** The version stored when the build carries no implementation version. */
  const DefaultVersion := "v1.0"

  /** The version `create` stores: the build's implementation version when it
      has one, otherwise the default. */
  function VersionNumber(implementationVersion: Option<string>): string
  {
    implementationVersion.GetOr(DefaultVersion)
  }

  datatype Cache = Cache(props: map<string, string>)

  /** `getValue(key)`: the stored text, or `None` (Java's `null`) when absent. */
  function GetValue(c: Cache, key: string): (r: Option<string>)
    ensures r.Some? <==> key in c.props
    ensures r.Some? ==> r.value == c.props[key]
  {
    if key in c.props then Some(c.props[key]) else None
  }

  /** `containsKey(key)`. */
  predicate ContainsKey(c: Cache, key: string)
  {
    key in c.props
  }

  /** `setProperty(key, String)`: a null value is logged and refused; any other
      value replaces what the key held. */
  function SetProperty(c: Cache, key: string, value: Option<string>): (r: Cache)
    ensures value.None? ==> r == c
    ensures value.Some? ==> GetValue(r, key) == value && ContainsKey(r, key)
    ensures forall k :: k != key ==> GetValue(r, k) == GetValue(c, k)
  {
    if value.None? then c else Cache(c.props[key := value.value])
  }

  /** Java's `String.valueOf(boolean)`. */
  function BoolString(b: bool): (r: string)
    ensures r == "true" || r == "false"
    ensures (r == "true") == b
  {
    if b then "true" else "false"
  }

  /** ASCII case folding; `equalsIgnoreCase` against "true" only ever meets
      these letters. */
  function LowerAscii(ch: char): char
  {
    if 'A' <= ch <= 'Z' then (ch as int + 32) as char else ch
  }

  /** Java's `Boolean.parseBoolean`: true exactly for a non-null value equal to
      "true" ignoring case. */
  function ParseBoolean(v: Option<string>): (r: bool)
    ensures r ==> v.Some? && |v.value| == 4
  {
    v.Some? && |v.value| == 4
    && forall i :: 0 <= i < 4 ==> LowerAscii(v.value[i]) == "true"[i]
  }

  /** `getBoolean(key)`: the stored text parsed; a missing key reads as false. */
  function GetBoolean(c: Cache, key: string): (r: bool)
    ensures r ==> ContainsKey(c, key)
  {
    ParseBoolean(GetValue(c, key))
  }

  /** `setProperty(key, boolean)`: the text "true" or "false". */
  function SetBoolProperty(c: Cache, key: string, value: bool): (r: Cache)
    ensures GetValue(r, key) == Some(if value then "true" else "false")
    ensures forall k :: k != key ==> GetValue(r, k) == GetValue(c, k)
  {
    SetProperty(c, key, Some(BoolString(value)))
  }

  /** Java's `String.trim()` at the front: characters up to and including the
      space are dropped. */
  function TrimLeading(s: string): (r: string)
    ensures |r| <= |s| && r == s[|s| - |r|..]
    ensures forall i :: 0 <= i < |s| - |r| ==> s[i] <= ' '
    ensures |r| > 0 ==> r[0] > ' '
  {
    if |s| > 0 && s[0] <= ' ' then TrimLeading(s[1..]) else s
  }

  /** `String.trim()` at the back. */
  function TrimTrailing(s: string): (r: string)
    ensures |r| <= |s| && r == s[..|r|]
    ensures forall i :: |r| <= i < |s| ==> s[i] <= ' '
    ensures |r| > 0 ==> r[|r| - 1] > ' '
  {
    if |s| > 0 && s[|s| - 1] <= ' ' then TrimTrailing(s[..|s| - 1]) else s
  }

  function Trim(s: string): string
  {
    TrimTrailing(TrimLeading(s))
  }

  /** Some character of `s` is not blank in the sense of `trim`. */
  predicate HasContent(s: string)
  {
    exists i :: 0 <= i < |s| && s[i] > ' '
  }

  /** `propertyExists(key)`: a value is stored and it is not empty once trimmed. */
  predicate PropertyExists(c: Cache, key: string)
  {
    var v := GetValue(c, key);
    v.Some? && Trim(v.value) != ""
  }

  /** The defaults of `create`, in the order they are set. */
  function Defaults(version: string): seq<(string, string)>
  {
    [ (Version, version),
      (ExportFolder, "exports"),
      (NotebookFolder, "notebooks"),
      (TemplateFolder, "templates"),
      (SvgPrimaryColor, "black"),
      (SvgSecondaryColor, "#b93059"),
      (SvgHighlightColor, "#76b72a"),
      (SvgBackgroundColor, "white"),
      (SvgGridColor, "gray"),
      (PngExportScale, "1.8"),
      (ServerPort, "8090"),
      (PdfHdExport, BoolString(true)),
      (PdfPageSingle, BoolString(true)),
      (PdfPagesMerged, BoolString(true)) ]
  }

  function Keys(pairs: seq<(string, string)>): set<string>
  {
    set i | 0 <= i < |pairs| :: pairs[i].0
  }

  /** No key is set twice. */
  predicate DistinctKeys(pairs: seq<(string, string)>)
  {
    forall i, j :: 0 <= i < j < |pairs| ==> pairs[i].0 != pairs[j].0
  }

  /** The pairs set one after the other. */
  function SetAll(c: Cache, pairs: seq<(string, string)>): (r: Cache)
    ensures forall k :: k !in Keys(pairs) ==> GetValue(r, k) == GetValue(c, k)
    ensures DistinctKeys(pairs) ==>
      forall i :: 0 <= i < |pairs| ==> GetValue(r, pairs[i].0) == Some(pairs[i].1)
  {
    if |pairs| == 0 then c
    else
      var init := pairs[..|pairs| - 1];
      var last := pairs[|pairs| - 1];
      assert Keys(pairs) == Keys(init) + {last.0};
      SetProperty(SetAll(c, init), last.0, Some(last.1))
  }

  /** `create()`: every default is set (the settings file is then written, which
      is not modelled); keys outside the defaults are untouched. */
  function Create(c: Cache, version: string): (r: Cache)
    ensures forall k :: k !in Keys(Defaults(version)) ==> GetValue(r, k) == GetValue(c, k)
    ensures forall i :: 0 <= i < |Defaults(version)| ==>
      GetValue(r, Defaults(version)[i].0) == Some(Defaults(version)[i].1)
  {
    DefaultKeysDistinct(version);
    SetAll(c, Defaults(version))
  }

  lemma DefaultKeysDistinct(version: string)
    ensures DistinctKeys(Defaults(version))
  {
  }

  // ---------------------------------------------------------------------------
  // Properties.
  // ---------------------------------------------------------------------------

  /** A value trims to the empty string exactly when every character is blank. */
  lemma TrimEmpty(s: string)
    ensures Trim(s) == "" <==> !HasContent(s)
  {
  }

  /** `propertyExists` means: stored, with at least one non-blank character. */
  lemma PropertyExistsMeaning(c: Cache, key: string)
    ensures PropertyExists(c, key) <==> key in c.props && HasContent(c.props[key])
  {
    if key in c.props {
      TrimEmpty(c.props[key]);
    }
  }

  /** An existing property is a contained key. */
  lemma ExistsContains(c: Cache, key: string)
    ensures PropertyExists(c, key) ==> ContainsKey(c, key)
  {
  }

  /** The converse fails: a key holding only blanks is contained but does not
      exist. */
  lemma BlankValueContainedNotExisting(c: Cache, key: string)
    ensures var r := SetProperty(c, key, Some(" \t"));
      ContainsKey(r, key) && !PropertyExists(r, key)
  {
    var r := SetProperty(c, key, Some(" \t"));
    PropertyExistsMeaning(r, key);
  }

  /** After a non-blank value is set, the property exists. */
  lemma SetThenExists(c: Cache, key: string, value: string)
    requires HasContent(value)
    ensures PropertyExists(SetProperty(c, key, Some(value)), key)
  {
    PropertyExistsMeaning(SetProperty(c, key, Some(value)), key);
  }

  /** Setting the same value twice is the same as setting it once. */
  lemma SetIdempotent(c: Cache, key: string, value: Option<string>)
    ensures SetProperty(SetProperty(c, key, value), key, value) == SetProperty(c, key, value)
  {
  }

  /** The defaults after `create` on an empty cache, in the application's words. */
  lemma CreateDefaults(version: string)
    ensures var r := Create(Cache(map[]), version);
      && GetValue(r, Version) == Some(version)
      && GetValue(r, ExportFolder) == Some("exports")
      && GetValue(r, NotebookFolder) == Some("notebooks")
      && GetValue(r, TemplateFolder) == Some("templates")
      && GetValue(r, SvgPrimaryColor) == Some("black")
      && GetValue(r, SvgSecondaryColor) == Some("#b93059")
      && GetValue(r, SvgHighlightColor) == Some("#76b72a")
      && GetValue(r, SvgBackgroundColor) == Some("white")
      && GetValue(r, SvgGridColor) == Some("gray")
      && GetValue(r, PngExportScale) == Some("1.8")
      && GetValue(r, ServerPort) == Some("8090")
      && GetValue(r, PdfHdExport) == Some("true")
      && GetValue(r, PdfPageSingle) == Some("true")
      && GetValue(r, PdfPagesMerged) == Some("true")
      && !ContainsKey(r, DeviceToken) && !ContainsKey(r, SshHost) && !ContainsKey(r, SshPassword)
  {
    var d := Defaults(version);
    assert d[0].0 == Version && d[1].0 == ExportFolder && d[2].0 == NotebookFolder;
    assert d[3].0 == TemplateFolder && d[4].0 == SvgPrimaryColor && d[5].0 == SvgSecondaryColor;
    assert d[6].0 == SvgHighlightColor && d[7].0 == SvgBackgroundColor && d[8].0 == SvgGridColor;
    assert d[9].0 == PngExportScale && d[10].0 == ServerPort && d[11].0 == PdfHdExport;
    assert d[12].0 == PdfPageSingle && d[13].0 == PdfPagesMerged;
    assert DeviceToken !in Keys(d) && SshHost !in Keys(d) && SshPassword !in Keys(d);
  }

  /** A boolean written by `setProperty(key, boolean)` reads back unchanged
      through `getBoolean`, and no other key's boolean changes. */
  lemma BoolRoundTrip(c: Cache, key: string, b: bool)
    ensures GetBoolean(SetBoolProperty(c, key, b), key) == b
    ensures forall k :: k != key ==> GetBoolean(SetBoolProperty(c, key, b), k) == GetBoolean(c, k)
  {
    var v := GetValue(SetBoolProperty(c, key, b), key);
    if !b {
      assert v == Some("false");
      assert LowerAscii(v.value[0]) != "true"[0];
    }
  }

  /** `getBoolean` accepts "true" in any letter case and nothing else. */
  lemma ParseBooleanCases()
    ensures ParseBoolean(Some("true")) && ParseBoolean(Some("TRUE")) && ParseBoolean(Some("True"))
    ensures !ParseBoolean(Some("false")) && !ParseBoolean(Some("yes")) && !ParseBoolean(Some(" true"))
    ensures !ParseBoolean(None)
  {
    assert LowerAscii('f') != 't' && LowerAscii(' ') != 't';
  }

  /** The stored version is the implementation version, or "v1.0" without one. */
  lemma CreateStoresVersion(c: Cache, implementationVersion: Option<string>)
    ensures GetValue(Create(c, VersionNumber(implementationVersion)), Version)
         == Some(if implementationVersion.Some? then implementationVersion.value else "v1.0")
  {
    var d := Defaults(VersionNumber(implementationVersion));
    assert d[0] == (Version, VersionNumber(implementationVersion));
  }
}
