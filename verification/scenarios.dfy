/** Concrete uninstall entries and file systems, with the outcome the
    classifier and the record builder give for each. */
module Scenarios {
  import opened Wrappers
  import opened Text
  import opened Paths
  import opened Version
  import opened Registry
  import opened Files
  import opened Resolver
  import opened ResolverProperties
  import opened Apps

  /** `1.2.3` is itself a version triple, so it matches. */
  lemma PlainVersionMatches()
    ensures HasVersion("1.2.3")
  {
    var s := "1.2.3";
    assert s == "1" + "." + "2" + "." + "3";
    assert IsDigits("1") && IsDigits("2") && IsDigits("3");
    assert s[0..5] == s;
    assert IsVersionTriple(s[0..5]);
  }

  /** Two components are not enough. */
  lemma TwoComponentsDoNotMatch()
    ensures !HasVersion("1.2")
  {
  }

  /** `!OccursAt` from one differing character. */
  lemma MismatchAt(s: string, sub: string, i: nat, k: nat)
    requires i + |sub| <= |s| && k < |sub| && s[i + k] != sub[k]
    ensures !OccursAt(s, sub, i)
  {
    assert s[i..i + |sub|][k] == s[i + k];
  }

  /** `name` passes the filter when its lower-case form is `lc`, which ends
      in `.exe` and is too short to hold `uninstall` or `update` anywhere but
      at the two positions checked. */
  lemma KeptSevenLetterName(name: string, lc: string)
    requires |name| == 7 && ToLower(name) == lc && lc[3..] == ".exe"
    requires lc[0] != 'u' && lc[1] != 'u'
    ensures IsAppExecutable(name)
  {
    MismatchAt(lc, "update", 0, 0);
    MismatchAt(lc, "update", 1, 0);
  }

  /** `Bar.exe`, `Baz.exe` and `Foo.exe` pass the filter. */
  lemma ExampleAppsAreKept()
    ensures IsAppExecutable("Bar.exe") && IsAppExecutable("Baz.exe") && IsAppExecutable("Foo.exe")
  {
    LowerSevenLetterName("Bar.exe", "bar.exe");
    LowerSevenLetterName("Baz.exe", "baz.exe");
    LowerSevenLetterName("Foo.exe", "foo.exe");
  }

  /** The lower-case form of a seven-letter name with an upper-case initial,
      checked letter by letter, and the filter applied to it. */
  lemma LowerSevenLetterName(name: string, lc: string)
    requires |name| == 7 && |lc| == 7 && lc[3..] == ".exe" && lc[0] != 'u' && lc[1] != 'u'
    requires forall i :: 0 <= i < 7 ==> LowerChar(name[i]) == lc[i]
    ensures IsAppExecutable(name)
  {
    assert ToLower(name) == lc;
    KeptSevenLetterName(name, lc);
  }

  /** An updater and an uninstaller are filtered out, however their names
      are capitalised. */
  lemma HelpersAreDropped(updater: string, uninstaller: string)
    requires ToLower(updater) == "updater.exe" && ToLower(uninstaller) == "uninstall.exe"
    ensures !IsAppExecutable(updater) && !IsAppExecutable(uninstaller)
  {
    assert OccursAt(ToLower(updater), "update", 0);
    assert OccursAt(ToLower(uninstaller), "uninstall", 0);
  }

  /** `lc` is the lower-case form of `name`, checked letter by letter. */
  lemma LowerCaseOf(name: string, lc: string)
    requires |name| == |lc| && forall i :: 0 <= i < |name| ==> LowerChar(name[i]) == lc[i]
    ensures ToLower(name) == lc
  {
  }

  /** `Updater.exe` and `Uninstall.exe` fail the filter. */
  lemma ExampleHelpersAreDropped()
    ensures !IsAppExecutable("Updater.exe") && !IsAppExecutable("Uninstall.exe")
  {
    LowerCaseOf("Updater.exe", "updater.exe");
    LowerCaseOf("Uninstall.exe", "uninstall.exe");
    HelpersAreDropped("Updater.exe", "Uninstall.exe");
  }

  /** A version directory is not an executable. */
  lemma VersionDirIsDropped()
    ensures !IsAppExecutable("1.2.3")
  {
    var lc := ToLower("1.2.3");
    assert lc[1..] == ".2.3";
  }

  /** An entry holding only `InstallLocation` is resolved through that directory alone. */
  lemma OnlyInstallLocation(dir: string, fs: FileSystem)
    ensures Resolve([RegSz("InstallLocation", dir)], fs) == ResolveInstallLocation(dir, "", fs)
  {
    var values := [RegSz("InstallLocation", dir)];
    assert FindString(values, "DisplayIcon").None?;
    assert FindString(values, "InstallLocation") == Some(dir);
    OtherDisplayIconDefersToInstallLocation(values, fs);
  }

  /** A flat install listing two rejected names and then an accepted one
      resolves to the third name. */
  lemma FlatPicksThird(dir: string, fs: FileSystem, a: string, b: string, c: string)
    requires fs.ReadDirOrEmpty(dir) == [a, b, c] && fs.Exists(MarkerUnder(dir))
    requires !IsAppExecutable(a) && !IsAppExecutable(b) && IsAppExecutable(c)
    ensures Resolve([RegSz("InstallLocation", dir)], fs) == Some(Candidate(Join(dir, c), ""))
  {
    assert IsFirstExecutable(fs.ReadDirOrEmpty(dir), 2);
    FlatLayoutTakesFirstExecutable(dir, "", fs);
    OnlyInstallLocation(dir, fs);
  }

  /** A flat install listing an updater, an uninstaller and the app resolves
      to the app, the helpers being filtered out. */
  lemma FlatInstallExample(dir: string, fs: FileSystem)
    requires fs.ReadDirOrEmpty(dir) == ["Updater.exe", "Uninstall.exe", "Bar.exe"]
    requires fs.Exists(MarkerUnder(dir))
    ensures Resolve([RegSz("InstallLocation", dir)], fs) == Some(Candidate(Join(dir, "Bar.exe"), ""))
  {
    ExampleAppsAreKept();
    ExampleHelpersAreDropped();
    FlatPicksThird(dir, fs, "Updater.exe", "Uninstall.exe", "Bar.exe");
  }

  /** A versioned sub-directory `v` listed before the executable `e`. */
  lemma VersionedPicksSecond(dir: string, fs: FileSystem, v: string, e: string)
    requires fs.ReadDirOrEmpty(dir) == [v, e]
    requires !fs.Exists(MarkerUnder(dir)) && fs.Exists(MarkerUnder(Join(dir, v)))
    requires HasVersion(v) && !IsAppExecutable(v) && IsAppExecutable(e)
    ensures Resolve([RegSz("InstallLocation", dir)], fs) == Some(Candidate(Join(dir, e), ""))
  {
    var files := fs.ReadDirOrEmpty(dir);
    assert IsFirstVersioned(files, 0);
    assert IsFirstExecutable(files, 1);
    VersionedLayoutTakesExecutableFromInstallDir(dir, "", fs);
    OnlyInstallLocation(dir, fs);
  }

  /** A versioned install whose marker sits in the sub-directory `1.2.3`
      resolves to the executable listed in the install directory itself. */
  lemma VersionedInstallExample(dir: string, fs: FileSystem)
    requires fs.ReadDirOrEmpty(dir) == ["1.2.3", "Baz.exe"]
    requires !fs.Exists(MarkerUnder(dir)) && fs.Exists(MarkerUnder(Join(dir, "1.2.3")))
    ensures Resolve([RegSz("InstallLocation", dir)], fs) == Some(Candidate(Join(dir, "Baz.exe"), ""))
  {
    PlainVersionMatches();
    ExampleAppsAreKept();
    VersionDirIsDropped();
    VersionedPicksSecond(dir, fs, "1.2.3", "Baz.exe");
  }

  /** Neither name names a version, so nothing confirms the install. */
  lemma UnversionedPair(dir: string, fs: FileSystem, a: string, b: string)
    requires fs.ReadDirOrEmpty(dir) == [a, b] && !fs.Exists(MarkerUnder(dir))
    requires !HasVersion(a) && !HasVersion(b)
    ensures ResolveInstallLocation(dir, "", fs) == None
  {
    NoVersionedDirectoryNoRecord(dir, "", fs);
  }

  lemma ResourcesHasNoVersion()
    ensures !HasVersion("resources")
  {
    var s := "resources";
    assert forall k :: 0 <= k < |s| ==> !IsDigit(s[k]);
    NoDigitsNoVersion(s);
  }

  lemma BazHasNoVersion()
    ensures !HasVersion("Baz.exe")
  {
    var s := "Baz.exe";
    assert forall k :: 0 <= k < |s| ==> !IsDigit(s[k]);
    NoDigitsNoVersion(s);
  }

  /** Without the flat marker and without any versioned sub-directory the
      same install yields nothing, though it lists an executable. */
  lemma UnversionedInstallExample(dir: string, fs: FileSystem)
    requires fs.ReadDirOrEmpty(dir) == ["resources", "Baz.exe"]
    requires !fs.Exists(MarkerUnder(dir))
    ensures Resolve([RegSz("InstallLocation", dir)], fs) == None
  {
    ResourcesHasNoVersion();
    BazHasNoVersion();
    UnversionedPair(dir, fs, "resources", "Baz.exe");
    OnlyInstallLocation(dir, fs);
  }

  /** `<dir>\Foo.exe` read back from `DisplayIcon = <dir>\Foo.exe,0`. */
  lemma FooIconPath(dir: string)
    requires dir != "" && !IsSeparator(dir[|dir| - 1]) && ',' !in dir
    ensures DisplayIconPath(Join(dir, "Foo.exe") + ",0") == Join(dir, "Foo.exe")
  {
    var exe := Join(dir, "Foo.exe");
    JoinInsertsSeparator(dir, "Foo.exe");
    assert ',' !in exe;
    assert exe + ",0" == exe + [','] + "0";
    BeforeFirstField(exe, ',', "0");
  }

  /** `<dir>\Foo.exe` passes as an executable and its marker is the one under `dir`. */
  lemma FooExecutable(dir: string)
    requires dir != "" && !IsSeparator(dir[|dir| - 1])
    ensures EndsWith(ToLower(Join(dir, "Foo.exe")), ".exe")
    ensures MarkerBeside(Join(dir, "Foo.exe")) == MarkerUnder(dir)
  {
    ExampleAppsAreKept();
    ExecutableKeepsSuffix(dir, "Foo.exe");
    assert IsSegment("Foo.exe");
    ParentOfJoin(dir, "Foo.exe");
  }

  /** `DisplayIcon = <dir>\Foo.exe,0`: the executable is taken from the
      icon path when the marker sits next to it, and the entry yields nothing
      when it does not, whatever its `InstallLocation`. */
  lemma DisplayIconExample(dir: string, other: string, fs: FileSystem)
    requires dir != "" && !IsSeparator(dir[|dir| - 1]) && ',' !in dir
    ensures var exe := Join(dir, "Foo.exe");
            var values := [RegSz("DisplayIcon", exe + ",0"), RegSz("InstallLocation", other)];
            && (fs.Exists(MarkerUnder(dir)) ==> Resolve(values, fs) == Some(Candidate(exe, "")))
            && (!fs.Exists(MarkerUnder(dir)) ==> Resolve(values, fs) == None)
  {
    var exe := Join(dir, "Foo.exe");
    var data := exe + ",0";
    var values := [RegSz("DisplayIcon", data), RegSz("InstallLocation", other)];
    assert FindString(values, "DisplayIcon") == Some(data);
    FooIconPath(dir);
    FooExecutable(dir);
    DisplayIconExecutableDecides(values, fs, data);
  }

  /** Without a `DisplayName`, `<dir>\Qux.exe` is named `Qux`. */
  lemma FallbackNameExample(dir: string)
    ensures DisplayName([RegSz("InstallLocation", dir)], Join(dir, "Qux.exe")) == "Qux"
  {
    assert IsSegment("Qux");
    assert "Qux" + ".exe" == "Qux.exe";
    FallbackNameIsStem([RegSz("InstallLocation", dir)], dir, "Qux");
  }
}
