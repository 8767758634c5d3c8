/** Deciding whether one uninstall entry describes an Electron app and, if
    so, which executable and icon file belong to it
    (`getAppInfoFromRegeditItemValues` without the record building). */
module Resolver {
  import opened Wrappers
  import opened Text
  import opened Sequences
  import opened Paths
  import opened Version
  import opened Registry
  import opened Files

  /** What the classifier settles on: an executable and an icon file, the
      empty string meaning "no icon file". */
  datatype Candidate = Candidate(exePath: string, iconPath: string)

  /** The file whose presence marks `dir` as the root of a packaged Electron
      app: `<dir>/resources/electron.asar`. */
  function MarkerUnder(dir: string): string {
    Join(Join(dir, "resources"), "electron.asar")
  }

  /** The marker is the file `electron.asar` in a directory `resources`
      directly under `dir`. */
  lemma MarkerUnderLayout(dir: string)
    ensures BaseName(MarkerUnder(dir)) == "electron.asar"
    ensures BaseName(Parent(MarkerUnder(dir))) == "resources"
    ensures dir != "" && !IsSeparator(dir[|dir| - 1]) ==> Parent(Parent(MarkerUnder(dir))) == dir
  {
    assert IsSegment("resources") && "resources" != "";
    assert IsSegment("electron.asar") && "electron.asar" != "";
    NestedJoin(dir, "resources", "electron.asar");
  }

  /** The marker next to an executable: `path.join(exe, '../resources/electron.asar')`. */
  function MarkerBeside(exePath: string): string {
    MarkerUnder(Parent(exePath))
  }

  /** The marker beside `<dir>\<name>` is the marker under `dir`. */
  lemma MarkerBesideOfJoin(dir: string, name: string)
    requires IsSegment(name) && name != ""
    requires dir != "" && !IsSeparator(dir[|dir| - 1])
    ensures MarkerBeside(Join(dir, name)) == MarkerUnder(dir)
  {
    ParentOfJoin(dir, name);
  }

  /** The file-name filter for the app's own executable: it ends in `.exe`
      and is neither an uninstaller nor an updater, all case-insensitively. */
  predicate IsAppExecutable(name: string) {
    var lc := ToLower(name);
    EndsWith(lc, ".exe") && !Contains(lc, "uninstall") && !Contains(lc, "update")
  }

  /** `i` is the first name of `files` that passes the executable filter. */
  predicate IsFirstExecutable(files: seq<string>, i: int) {
    0 <= i < |files| && IsAppExecutable(files[i]) && forall j :: 0 <= j < i ==> !IsAppExecutable(files[j])
  }

  /** `files.filter(IsAppExecutable)[0]`, joined under `dir`. */
  function SelectExecutable(dir: string, files: seq<string>): (r: Option<string>)
    ensures r.Some? ==> EndsWith(ToLower(r.value), ".exe")
    ensures r.None? <==> forall i :: 0 <= i < |files| ==> !IsAppExecutable(files[i])
    ensures r.Some? ==> exists i :: IsFirstExecutable(files, i) && r.value == Join(dir, files[i])
  {
    var exeFiles := Filter(files, IsAppExecutable);
    FilterHeadIsFirstMatch(files, IsAppExecutable);
    if |exeFiles| > 0 then
      ExecutableKeepsSuffix(dir, exeFiles[0]);
      Some(Join(dir, exeFiles[0]))
    else None
  }

  /** `i` is the first name of `files` matching `/\d+\.\d+\.\d+/` (see
      `Version.HasVersion` for what that means). */
  predicate IsFirstVersioned(files: seq<string>, i: int) {
    0 <= i < |files| && HasVersion(files[i]) && forall j :: 0 <= j < i ==> !HasVersion(files[j])
  }

  /** `files.find(f => /\d+\.\d+\.\d+/.test(f))`. */
  function VersionDirectory(files: seq<string>): (r: Option<string>)
    ensures r.None? <==> forall i :: 0 <= i < |files| ==> !HasVersion(files[i])
    ensures r.Some? ==> exists i :: IsFirstVersioned(files, i) && files[i] == r.value
  {
    match FindFirst(files, HasVersion)
    case None => None
    case Some(i) =>
      assert IsFirstVersioned(files, i);
      Some(files[i])
  }

  /** Resolution from the `InstallLocation` directory `dir`: a flat layout
      with the marker directly under `dir`, otherwise a versioned
      sub-directory holding the marker. In both cases the executable is
      taken from the listing of `dir` itself. */
  function ResolveInstallLocation(dir: string, iconPath: string, fs: FileSystem): (r: Option<Candidate>)
    ensures r.Some? ==> r.value.iconPath == iconPath && EndsWith(ToLower(r.value.exePath), ".exe")
    ensures r.Some? ==> SelectExecutable(dir, fs.ReadDirOrEmpty(dir)) == Some(r.value.exePath)
    ensures r.Some? ==> fs.Exists(MarkerUnder(dir))
                        || (VersionDirectory(fs.ReadDirOrEmpty(dir)).Some?
                            && fs.Exists(MarkerUnder(Join(dir, VersionDirectory(fs.ReadDirOrEmpty(dir)).value))))
  {
    var files := fs.ReadDirOrEmpty(dir);
    if fs.Exists(MarkerUnder(dir)) then
      match SelectExecutable(dir, files)
      case None => None
      case Some(exe) => Some(Candidate(exe, iconPath))
    else
      match VersionDirectory(files)
      case None => None
      case Some(sub) =>
        if !fs.Exists(MarkerUnder(Join(dir, sub))) then None
        else
          match SelectExecutable(dir, files)
          case None => None
          case Some(exe) => Some(Candidate(exe, iconPath))
  }

  /** The `DisplayIcon` data up to its first comma: the registry writes an
      icon as `path,index`. */
  function DisplayIconPath(data: string): (p: string)
    ensures ',' !in p && |p| <= |data| && p == data[..|p|]
    ensures ',' in data ==> data[|p|] == ','
    ensures ',' !in data ==> p == data
  {
    BeforeFirst(data, ',')
  }

  /** The icon path of `<path>,<index>` is `path` again. */
  lemma DisplayIconPathOfField(path: string, index: string)
    requires ',' !in path
    ensures DisplayIconPath(path + "," + index) == path
  {
    BeforeFirstField(path, ',', index);
  }

  /** The whole decision for one uninstall entry. */
  function Resolve(values: seq<RegistryValue>, fs: FileSystem): (r: Option<Candidate>)
    ensures |values| == 0 ==> r.None?
    ensures r.Some? ==> EndsWith(ToLower(r.value.exePath), ".exe")
    ensures r.Some? ==> r.value.iconPath == "" || EndsWith(ToLower(r.value.iconPath), ".ico")
    ensures r.Some? && r.value.iconPath != "" ==>
              FindString(values, "DisplayIcon").Some?
              && r.value.iconPath == DisplayIconPath(FindString(values, "DisplayIcon").value)
  {
    if |values| == 0 then None
    else
      var displayIcon := FindString(values, "DisplayIcon");
      var icon := if displayIcon.Some? then DisplayIconPath(displayIcon.value) else "";
      if displayIcon.Some? && EndsWith(ToLower(icon), ".exe") then
        if !fs.Exists(MarkerBeside(icon)) then None
        else Some(Candidate(icon, ""))
      else
        var iconPath := if displayIcon.Some? && EndsWith(ToLower(icon), ".ico") then icon else "";
        match FindString(values, "InstallLocation")
        case None => None
        case Some(dir) =>
          ResolveInstallLocation(dir, iconPath, fs)
  }

  /** The filter cannot tell a name from its lower-case spelling. */
  lemma ExecutableFilterIgnoresCase(name: string)
    ensures IsAppExecutable(name) <==> IsAppExecutable(ToLower(name))
  {
    ToLowerIdempotent(name);
  }

  /** A selected executable still ends in `.exe` (in lower case) after being
      joined under its directory. */
  lemma ExecutableKeepsSuffix(dir: string, name: string)
    requires IsAppExecutable(name)
    ensures EndsWith(ToLower(Join(dir, name)), ".exe")
  {
    var p := Join(dir, name);
    var prefix := p[..|p| - |name|];
    assert p == prefix + name;
    ToLowerConcat(prefix, name);
    EndsWithConcat(ToLower(prefix), ToLower(name), ".exe");
  }
}
