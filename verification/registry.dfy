/** An immutable snapshot of the Windows registry, standing in for the
    `registry-js` calls `enumerateKeys` and `enumerateValues`, and the lookup
    of a named string value inside one uninstall entry. */
module Registry {
  import opened Wrappers

  datatype Hive =
    | HKEY_CLASSES_ROOT
    | HKEY_CURRENT_USER
    | HKEY_LOCAL_MACHINE
    | HKEY_USERS
    | HKEY_CURRENT_CONFIG

  /** One typed value of a registry key. Each constructor is one registry
      type; the data it carries has the shape `registry-js` gives that type. */
  datatype RegistryValue =
    | RegSz(name: string, text: string)
    | RegExpandSz(name: string, text: string)
    | RegMultiSz(name: string, lines: seq<string>)
    | RegDword(name: string, number: int)
    | RegQword(name: string, number: int)
    | RegBinary(name: string, bytes: seq<bv8>)
    | RegNone(name: string)

  /** The test `v.type === REG_SZ && v.name === name`. */
  predicate IsStringNamed(v: RegistryValue, name: string) {
    v.RegSz? && v.name == name
  }

  /** `values.find(v => v.type === REG_SZ && v.name === name)`, returning the value's data. */
  function FindString(values: seq<RegistryValue>, name: string): (r: Option<string>)
    ensures r.None? <==> forall i :: 0 <= i < |values| ==> !IsStringNamed(values[i], name)
    ensures r.Some? ==> exists i :: 0 <= i < |values| && values[i] == RegSz(name, r.value)
                                    && forall j :: 0 <= j < i ==> !IsStringNamed(values[j], name)
  {
    if |values| == 0 then None
    else if IsStringNamed(values[0], name) then Some(values[0].text)
    else
      var r := FindString(values[1..], name);
      assert forall j :: 1 <= j < |values| ==> values[j] == values[1..][j - 1];
      r
  }

  /** A value that is not a REG_SZ of the given name (in particular any
      non-string value carrying that name) never affects the lookup. */
  lemma {:induction false} LookupSkipsOtherValues(a: seq<RegistryValue>, v: RegistryValue, b: seq<RegistryValue>, name: string)
    requires !IsStringNamed(v, name)
    ensures FindString(a + [v] + b, name) == FindString(a + b, name)
    decreases |a|
  {
    if |a| == 0 {
      assert a + [v] + b == [v] + b && ([v] + b)[1..] == b;
      assert a + b == b;
    } else {
      assert (a + [v] + b)[0] == a[0] == (a + b)[0];
      if !IsStringNamed(a[0], name) {
        assert (a + [v] + b)[1..] == a[1..] + [v] + b;
        assert (a + b)[1..] == a[1..] + b;
        LookupSkipsOtherValues(a[1..], v, b, name);
      }
    }
  }

  /** A registry key: a hive and a path below it. */
  datatype KeyPath = KeyPath(hive: Hive, path: string)

  /** The registry as it stands during one scan: child key names and values
      of every key that can be opened. */
  datatype Snapshot = Snapshot(subkeys: map<KeyPath, seq<string>>, values: map<KeyPath, seq<RegistryValue>>) {

    /** `enumerateKeys`: the child key names, none for a key that cannot be opened. */
    function ChildKeys(key: KeyPath): seq<string> {
      if key in subkeys then subkeys[key] else []
    }

    /** `enumerateValues`: the values of a key, none for a key that cannot be opened. */
    function Values(key: KeyPath): seq<RegistryValue> {
      if key in values then values[key] else []
    }
  }

  /** The key of child `child` below `parent`, joined with a backslash. */
  function ChildKey(parent: KeyPath, child: string): KeyPath {
    KeyPath(parent.hive, parent.path + "\\" + child)
  }

  /** `enumRegeditItems`: the value sequence of every child key of `root`, in
      the order the child keys are listed. */
  function EnumerateEntries(reg: Snapshot, root: KeyPath): (entries: seq<seq<RegistryValue>>)
    ensures |entries| == |reg.ChildKeys(root)|
    ensures forall i :: 0 <= i < |entries| ==> entries[i] == reg.Values(ChildKey(root, reg.ChildKeys(root)[i]))
  {
    var keys := reg.ChildKeys(root);
    seq(|keys|, i requires 0 <= i < |keys| => reg.Values(ChildKey(root, keys[i])))
  }
}
