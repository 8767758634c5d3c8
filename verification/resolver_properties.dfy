/** What the classifier promises, branch by branch, stated over whole
    entries and file-system snapshots. */
module ResolverProperties {
  import opened Wrappers
  import opened Text
  import opened Paths
  import opened Version
  import opened Registry
  import opened Files
  import opened Resolver

  /** A `DisplayIcon` naming an `.exe` decides the entry on its own: the
      entry resolves to that executable, with no icon file, exactly when the
      marker sits next to it; otherwise there is no record, whatever
      `InstallLocation` says. */
  lemma DisplayIconExecutableDecides(values: seq<RegistryValue>, fs: FileSystem, data: string)
    requires FindString(values, "DisplayIcon") == Some(data)
    requires EndsWith(ToLower(DisplayIconPath(data)), ".exe")
    ensures fs.Exists(MarkerBeside(DisplayIconPath(data))) ==> Resolve(values, fs) == Some(Candidate(DisplayIconPath(data), ""))
    ensures !fs.Exists(MarkerBeside(DisplayIconPath(data))) ==> Resolve(values, fs) == None
  {
  }

  /** A `DisplayIcon` naming an `.ico` file becomes the icon, and the
      executable is looked for through `InstallLocation`. */
  lemma DisplayIconIconDefersToInstallLocation(values: seq<RegistryValue>, fs: FileSystem, data: string)
    requires FindString(values, "DisplayIcon") == Some(data)
    requires EndsWith(ToLower(DisplayIconPath(data)), ".ico")
    ensures FindString(values, "InstallLocation").None? ==> Resolve(values, fs) == None
    ensures FindString(values, "InstallLocation").Some? ==>
              Resolve(values, fs) == ResolveInstallLocation(FindString(values, "InstallLocation").value, DisplayIconPath(data), fs)
  {
    var lc := ToLower(DisplayIconPath(data));
    assert lc[|lc| - 4..] == ".ico";
    assert !EndsWith(lc, ".exe");
  }

  /** Without a `DisplayIcon`, or with one naming neither an `.exe` nor an
      `.ico`, an entry is resolved through `InstallLocation` alone, with no
      icon file. */
  lemma OtherDisplayIconDefersToInstallLocation(values: seq<RegistryValue>, fs: FileSystem)
    requires FindString(values, "DisplayIcon").Some? ==>
               var lc := ToLower(DisplayIconPath(FindString(values, "DisplayIcon").value));
               !EndsWith(lc, ".exe") && !EndsWith(lc, ".ico")
    ensures FindString(values, "InstallLocation").None? ==> Resolve(values, fs) == None
    ensures FindString(values, "InstallLocation").Some? ==>
              Resolve(values, fs) == ResolveInstallLocation(FindString(values, "InstallLocation").value, "", fs)
  {
  }

  /** The first name passing the executable filter is unique. */
  lemma FirstExecutableUnique(files: seq<string>, i: int, k: int)
    requires IsFirstExecutable(files, i) && IsFirstExecutable(files, k)
    ensures i == k
  {
    assert !(i < k) && !(k < i);
  }

  /** The first name containing a version triple is unique. */
  lemma FirstVersionedUnique(files: seq<string>, i: int, k: int)
    requires IsFirstVersioned(files, i) && IsFirstVersioned(files, k)
    ensures i == k
  {
    assert !(i < k) && !(k < i);
  }

  /** `SelectExecutable` picks exactly the first name passing the filter. */
  lemma SelectionIsFirstExecutable(dir: string, files: seq<string>)
    ensures SelectExecutable(dir, files).Some? <==> exists i :: IsFirstExecutable(files, i)
    ensures forall i :: IsFirstExecutable(files, i) ==> SelectExecutable(dir, files) == Some(Join(dir, files[i]))
  {
    var r := SelectExecutable(dir, files);
    forall i | IsFirstExecutable(files, i)
      ensures r == Some(Join(dir, files[i]))
    {
      var k :| IsFirstExecutable(files, k) && r.value == Join(dir, files[k]);
      FirstExecutableUnique(files, i, k);
    }
  }

  /** Flat layout: with the marker directly under the install directory, the
      entry resolves exactly when some listed name passes the executable
      filter, and then to the first such name joined under the directory. */
  lemma FlatLayoutTakesFirstExecutable(dir: string, iconPath: string, fs: FileSystem)
    requires fs.Exists(MarkerUnder(dir))
    ensures var files := fs.ReadDirOrEmpty(dir);
            ResolveInstallLocation(dir, iconPath, fs).Some? <==> exists i :: IsFirstExecutable(files, i)
    ensures var files := fs.ReadDirOrEmpty(dir);
            forall i :: IsFirstExecutable(files, i) ==>
              ResolveInstallLocation(dir, iconPath, fs) == Some(Candidate(Join(dir, files[i]), iconPath))
  {
    SelectionIsFirstExecutable(dir, fs.ReadDirOrEmpty(dir));
  }

  /** Versioned layout: without the flat marker, the entry resolves exactly
      when the first listed name containing a version triple holds the marker
      and some listed name passes the executable filter; the executable is
      still the first such name joined under the install directory itself,
      not under the versioned sub-directory. */
  lemma VersionedLayoutTakesExecutableFromInstallDir(dir: string, iconPath: string, fs: FileSystem)
    requires !fs.Exists(MarkerUnder(dir))
    ensures var files := fs.ReadDirOrEmpty(dir);
            ResolveInstallLocation(dir, iconPath, fs).Some? <==>
              (exists k :: IsFirstVersioned(files, k) && fs.Exists(MarkerUnder(Join(dir, files[k]))))
              && (exists i :: IsFirstExecutable(files, i))
    ensures var files := fs.ReadDirOrEmpty(dir);
            forall i :: IsFirstExecutable(files, i) && ResolveInstallLocation(dir, iconPath, fs).Some? ==>
              ResolveInstallLocation(dir, iconPath, fs) == Some(Candidate(Join(dir, files[i]), iconPath))
  {
    var files := fs.ReadDirOrEmpty(dir);
    VersionDirectoryIsFirstVersioned(files);
    SelectionIsFirstExecutable(dir, files);
  }

  /** `VersionDirectory` picks exactly the first name containing a version triple. */
  lemma VersionDirectoryIsFirstVersioned(files: seq<string>)
    ensures VersionDirectory(files).Some? <==> exists k :: IsFirstVersioned(files, k)
    ensures forall k :: IsFirstVersioned(files, k) ==> VersionDirectory(files) == Some(files[k])
  {
    var r := VersionDirectory(files);
    forall k | IsFirstVersioned(files, k)
      ensures r == Some(files[k])
    {
      var k' :| IsFirstVersioned(files, k') && files[k'] == r.value;
      FirstVersionedUnique(files, k, k');
    }
  }

  /** Without the flat marker, a listing in which no name contains a
      version triple confirms nothing. */
  lemma NoVersionedDirectoryNoRecord(dir: string, iconPath: string, fs: FileSystem)
    requires !fs.Exists(MarkerUnder(dir))
    requires forall name :: name in fs.ReadDirOrEmpty(dir) ==> !HasVersion(name)
    ensures ResolveInstallLocation(dir, iconPath, fs) == None
  {
    var files := fs.ReadDirOrEmpty(dir);
    assert forall i :: 0 <= i < |files| ==> files[i] in files;
  }

  /** A directory that cannot be listed counts as empty, so it never yields
      an executable. */
  lemma UnlistableInstallDirYieldsNothing(dir: string, iconPath: string, fs: FileSystem)
    requires dir !in fs.listings
    ensures ResolveInstallLocation(dir, iconPath, fs) == None
  {
  }

  /** With no `.exe` in `DisplayIcon` and no `InstallLocation`, there is no record. */
  lemma NoInstallLocationNoRecord(values: seq<RegistryValue>, fs: FileSystem)
    requires FindString(values, "InstallLocation").None?
    requires FindString(values, "DisplayIcon").Some? ==>
               !EndsWith(ToLower(DisplayIconPath(FindString(values, "DisplayIcon").value)), ".exe")
    ensures Resolve(values, fs) == None
  {
  }

  /** Values other than REG_SZ strings never change the outcome: only
      `DisplayIcon` and `InstallLocation` strings are consulted. */
  lemma OtherValuesDoNotMatter(a: seq<RegistryValue>, v: RegistryValue, b: seq<RegistryValue>, fs: FileSystem)
    requires !v.RegSz?
    ensures Resolve(a + [v] + b, fs) == Resolve(a + b, fs)
  {
    LookupSkipsOtherValues(a, v, b, "DisplayIcon");
    LookupSkipsOtherValues(a, v, b, "InstallLocation");
    SameLookupsSameOutcome(a + [v] + b, a + b, fs);
  }

  /** Two entries whose `DisplayIcon` and `InstallLocation` strings agree
      are resolved alike. */
  lemma SameLookupsSameOutcome(values: seq<RegistryValue>, others: seq<RegistryValue>, fs: FileSystem)
    requires FindString(values, "DisplayIcon") == FindString(others, "DisplayIcon")
    requires FindString(values, "InstallLocation") == FindString(others, "InstallLocation")
    ensures Resolve(values, fs) == Resolve(others, fs)
  {
  }

  /** In the flat layout the executable sits next to the marker that
      confirmed it, just as in the `DisplayIcon` branch; in the versioned
      layout it does not: the marker next to the chosen executable is the
      flat marker, which is absent. Assumes listed names are single
      segments and the install directory has no trailing separator. */
  lemma MarkerBesideExecutableOnlyWhenFlat(dir: string, iconPath: string, fs: FileSystem)
    requires dir != "" && !IsSeparator(dir[|dir| - 1])
    requires forall name :: name in fs.ReadDirOrEmpty(dir) ==> IsSegment(name) && name != ""
    requires ResolveInstallLocation(dir, iconPath, fs).Some?
    ensures fs.Exists(MarkerBeside(ResolveInstallLocation(dir, iconPath, fs).value.exePath)) <==> fs.Exists(MarkerUnder(dir))
  {
    var files := fs.ReadDirOrEmpty(dir);
    var exe := ResolveInstallLocation(dir, iconPath, fs).value.exePath;
    var k :| IsFirstExecutable(files, k) && exe == Join(dir, files[k]);
    assert files[k] in files;
    ParentOfJoin(dir, files[k]);
  }
}
