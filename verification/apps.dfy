/** Building the `AppInfo` record for a resolved entry
    (`getAppInfoByExePath`) and the per-entry pipeline that feeds it. */
module Apps {
  import opened Wrappers
  import opened Text
  import opened Paths
  import opened Registry
  import opened Files
  import opened Resolver
  import Base64

  /** The record handed to the app picker; `id` doubles as the identity key. */
  datatype AppInfo = AppInfo(id: string, name: string, icon: string, exePath: string)

  /** The one failure that is not swallowed: an icon file that was chosen
      but cannot be read. */
  datatype ScanError = IconUnreadable(path: string)

  const IconUriPrefix: string := "data:image/x-icon;base64,"

  /** The icon bytes as a self-contained data URI. */
  function IconDataUri(bytes: seq<Base64.byte>): (uri: string)
    ensures |IconUriPrefix| <= |uri| && uri[..|IconUriPrefix|] == IconUriPrefix
    ensures Base64.Decode(uri[|IconUriPrefix|..]) == Some(bytes)
  {
    var uri := IconUriPrefix + Base64.Encode(bytes);
    Base64.DecodeEncode(bytes);
    assert uri[|IconUriPrefix|..] == Base64.Encode(bytes);
    uri
  }

  /** The display name: the first REG_SZ `DisplayName`, even an empty one,
      else the executable's file name without an exact `.exe` ending. */
  function DisplayName(values: seq<RegistryValue>, exePath: string): (n: string)
    ensures FindString(values, "DisplayName").Some? ==> n == FindString(values, "DisplayName").value
    ensures FindString(values, "DisplayName").None? ==> IsSegment(n)
    ensures FindString(values, "DisplayName").None?
            && EndsWith(BaseName(exePath), ".exe") && BaseName(exePath) != ".exe"
            ==> n + ".exe" == BaseName(exePath)
    ensures FindString(values, "DisplayName").None?
            && (!EndsWith(BaseName(exePath), ".exe") || BaseName(exePath) == ".exe")
            ==> n == BaseName(exePath)
  {
    match FindString(values, "DisplayName")
    case Some(name) => name
    case None => BaseNameWithout(exePath, ".exe")
  }

  /** `getAppInfoByExePath`: the record for `exePath`, reading the icon file
      when `iconPath` is not empty. */
  function BuildAppInfo(exePath: string, iconPath: string, values: seq<RegistryValue>, fs: FileSystem)
    : (r: Result<AppInfo, ScanError>)
    ensures r.Failure? <==> iconPath != "" && fs.ReadFile(iconPath).None?
    ensures r.Failure? ==> r.error == IconUnreadable(iconPath)
    ensures r.Success? ==> r.value.id == exePath && r.value.exePath == exePath
    ensures r.Success? ==> r.value.name == DisplayName(values, exePath)
    ensures r.Success? && iconPath == "" ==> r.value.icon == ""
    ensures r.Success? && iconPath != "" ==>
              var icon := r.value.icon;
              |IconUriPrefix| <= |icon| && icon[..|IconUriPrefix|] == IconUriPrefix
              && Base64.Decode(icon[|IconUriPrefix|..]) == fs.ReadFile(iconPath)
  {
    var name := DisplayName(values, exePath);
    if iconPath == "" then Success(AppInfo(exePath, name, "", exePath))
    else
      match fs.ReadFile(iconPath)
      case None => Failure(IconUnreadable(iconPath))
      case Some(bytes) => Success(AppInfo(exePath, name, IconDataUri(bytes), exePath))
  }

  /** Without a `DisplayName`, an executable `<dir>\<stem>.exe` is named `<stem>`. */
  lemma FallbackNameIsStem(values: seq<RegistryValue>, dir: string, stem: string)
    requires FindString(values, "DisplayName").None?
    requires IsSegment(stem) && stem != ""
    ensures DisplayName(values, Join(dir, stem + ".exe")) == stem
  {
    var file := stem + ".exe";
    assert IsSegment(file) by {
      assert forall k :: |stem| <= k < |file| ==> file[k] == ".exe"[k - |stem|];
    }
    BaseNameOfJoin(dir, file);
    assert file[..|file| - 4] == stem;
  }

  /** `getAppInfoFromRegeditItemValues`: `Success(None)` for an entry that is
      not an Electron app, the record for one that is, and a failure only
      when the chosen icon file cannot be read. */
  function AppInfoFromValues(values: seq<RegistryValue>, fs: FileSystem): (r: Result<Option<AppInfo>, ScanError>)
    ensures |values| == 0 ==> r == Success(None)
    ensures r == Success(None) <==> Resolve(values, fs).None?
    ensures r.Failure? <==> Resolve(values, fs).Some? && Resolve(values, fs).value.iconPath != ""
                            && fs.ReadFile(Resolve(values, fs).value.iconPath).None?
    ensures r.Failure? ==> r.error == IconUnreadable(Resolve(values, fs).value.iconPath)
    ensures r.Success? && r.value.Some? ==>
              var app := r.value.value;
              Resolve(values, fs).Some? && app.exePath == Resolve(values, fs).value.exePath
              && app.id == app.exePath && EndsWith(ToLower(app.exePath), ".exe")
              && app.name == DisplayName(values, app.exePath)
              && (Resolve(values, fs).value.iconPath == "" ==> app.icon == "")
              && (app.icon == "" || (|IconUriPrefix| <= |app.icon| && app.icon[..|IconUriPrefix|] == IconUriPrefix))
    ensures r.Success? && r.value.Some? && Resolve(values, fs).value.iconPath != "" ==>
              var icon := r.value.value.icon;
              |IconUriPrefix| <= |icon|
              && Base64.Decode(icon[|IconUriPrefix|..]) == fs.ReadFile(Resolve(values, fs).value.iconPath)
  {
    match Resolve(values, fs)
    case None => Success(None)
    case Some(c) =>
      match BuildAppInfo(c.exePath, c.iconPath, values, fs)
      case Failure(e) => Failure(e)
      case Success(app) => Success(Some(app))
  }
}
