/** `getAppsOfWin`: every entry of the three uninstall roots, classified in
    order, one result slot per entry. */
module Scan {
  import opened Wrappers
  import opened Registry
  import opened Files
  import opened Apps

  /** The uninstall roots, in the order they are scanned: machine-wide,
      machine-wide 32-bit (Wow6432Node), and per-user. */
  const UninstallRoots: seq<KeyPath> := [
    KeyPath(HKEY_LOCAL_MACHINE, "Software\\Microsoft\\Windows\\CurrentVersion\\Uninstall"),
    KeyPath(HKEY_LOCAL_MACHINE, "Software\\Wow6432Node\\Microsoft\\Windows\\CurrentVersion\\Uninstall"),
    KeyPath(HKEY_CURRENT_USER, "Software\\Microsoft\\Windows\\CurrentVersion\\Uninstall")
  ]

  /** The entries of all `roots`, root after root. */
  function AllEntries(reg: Snapshot, roots: seq<KeyPath>): (r: seq<seq<RegistryValue>>)
    ensures forall k, e :: 0 <= k < |roots| && e in EnumerateEntries(reg, roots[k]) ==> e in r
    ensures forall e :: e in r ==> exists k :: 0 <= k < |roots| && e in EnumerateEntries(reg, roots[k])
    decreases |roots|
  {
    if |roots| == 0 then []
    else AllEntries(reg, roots[..|roots| - 1]) + EnumerateEntries(reg, roots[|roots| - 1])
  }

  /** Scanning two lists of roots one after the other is scanning their concatenation. */
  lemma {:induction false} AllEntriesConcat(reg: Snapshot, a: seq<KeyPath>, b: seq<KeyPath>)
    ensures AllEntries(reg, a + b) == AllEntries(reg, a) + AllEntries(reg, b)
    decreases |b|
  {
    if b == [] {
      assert a + b == a;
    } else {
      var n := |b| - 1;
      assert (a + b)[..|a + b| - 1] == a + b[..n] && (a + b)[|a + b| - 1] == b[n];
      AllEntriesConcat(reg, a, b[..n]);
    }
  }

  /** The scanned entries are those of the three uninstall roots, concatenated. */
  lemma UninstallEntriesConcatenate(reg: Snapshot)
    ensures AllEntries(reg, UninstallRoots)
         == EnumerateEntries(reg, UninstallRoots[0]) + EnumerateEntries(reg, UninstallRoots[1])
            + EnumerateEntries(reg, UninstallRoots[2])
  {
    var roots := UninstallRoots;
    assert roots[..3] == roots && roots[..2][..1] == roots[..1] && roots[..1][..0] == [];
    assert AllEntries(reg, roots[..1]) == EnumerateEntries(reg, roots[0]);
    assert AllEntries(reg, roots[..2]) == AllEntries(reg, roots[..1]) + EnumerateEntries(reg, roots[1]);
    assert AllEntries(reg, roots) == AllEntries(reg, roots[..2]) + EnumerateEntries(reg, roots[2]);
  }

  type Slot = Result<Option<AppInfo>, ScanError>

  /** The outcome of every entry, position by position. */
  function Slots(entries: seq<seq<RegistryValue>>, fs: FileSystem): (r: seq<Slot>)
    ensures |r| == |entries|
    ensures forall i :: 0 <= i < |r| ==> r[i] == AppInfoFromValues(entries[i], fs)
  {
    seq(|entries|, i requires 0 <= i < |entries| => AppInfoFromValues(entries[i], fs))
  }

  /** Classifying two runs of entries one after the other is classifying their concatenation. */
  lemma SlotsConcat(a: seq<seq<RegistryValue>>, b: seq<seq<RegistryValue>>, fs: FileSystem)
    ensures Slots(a + b, fs) == Slots(a, fs) + Slots(b, fs)
  {
    var l, r := Slots(a + b, fs), Slots(a, fs) + Slots(b, fs);
    forall i | 0 <= i < |a + b|
      ensures l[i] == r[i]
    {
      if i < |a| {
        assert (a + b)[i] == a[i];
      } else {
        assert (a + b)[i] == b[i - |a|];
      }
    }
  }

  /** Classifies each entry independently, keeping positions. */
  method ClassifyEntries(entries: seq<seq<RegistryValue>>, fs: FileSystem) returns (slots: seq<Slot>)
    ensures |slots| == |entries|
    ensures forall i :: 0 <= i < |slots| ==> slots[i] == AppInfoFromValues(entries[i], fs)
  {
    slots := [];
    for k := 0 to |entries|
      invariant |slots| == k
      invariant forall i :: 0 <= i < k ==> slots[i] == AppInfoFromValues(entries[i], fs)
    {
      slots := slots + [AppInfoFromValues(entries[k], fs)];
    }
  }

  /** Classifies every entry of `roots`: the slot at each position is the
      outcome for the entry at the same position, and entries that are not
      apps keep their `Success(None)` slot. */
  method ScanRoots(reg: Snapshot, fs: FileSystem, roots: seq<KeyPath>) returns (slots: seq<Slot>)
    ensures |slots| == |AllEntries(reg, roots)|
    ensures forall i :: 0 <= i < |slots| ==> slots[i] == AppInfoFromValues(AllEntries(reg, roots)[i], fs)
  {
    slots := [];
    for r := 0 to |roots|
      invariant slots == Slots(AllEntries(reg, roots[..r]), fs)
    {
      ghost var before := AllEntries(reg, roots[..r]);
      var entries := EnumerateEntries(reg, roots[r]);
      var more := ClassifyEntries(entries, fs);
      assert more == Slots(entries, fs);
      assert roots[..r + 1][..r] == roots[..r];
      assert AllEntries(reg, roots[..r + 1]) == before + entries;
      SlotsConcat(before, entries, fs);
      slots := slots + more;
    }
    assert roots[..|roots|] == roots;
  }

  /** `getAppsOfWin` over the three uninstall roots. Nothing is filtered out:
      there is one slot per entry, and every record in a slot has
      `id == exePath`. */
  method GetAppsOfWin(reg: Snapshot, fs: FileSystem) returns (slots: seq<Slot>)
    ensures |slots| == |AllEntries(reg, UninstallRoots)|
    ensures |slots| == |reg.ChildKeys(UninstallRoots[0])| + |reg.ChildKeys(UninstallRoots[1])|
                       + |reg.ChildKeys(UninstallRoots[2])|
    ensures forall i :: 0 <= i < |slots| ==> slots[i] == AppInfoFromValues(AllEntries(reg, UninstallRoots)[i], fs)
    ensures forall i :: 0 <= i < |slots| && slots[i].Success? && slots[i].value.Some? ==>
              slots[i].value.value.id == slots[i].value.value.exePath
  {
    UninstallEntriesConcatenate(reg);
    slots := ScanRoots(reg, fs, UninstallRoots);
  }
}
