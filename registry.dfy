/** The registry lookup policy of src/registry.c: the root-key names,
    the HKEY_CURRENT_USER then HKEY_LOCAL_MACHINE fallback of a lookup
    without a root, and the expansion of REG_EXPAND_SZ values.

    The registry is an abstract map from (root key, subkey path) to the
    values stored under that key; ExpandEnvironmentStrings and malloc are
    oracles supplied by the caller. */
module W32Registry {
  import opened Common

  datatype RootKey = ClassesRoot | CurrentUser | LocalMachine | Users
                   | PerformanceData | CurrentConfig

  /** The predefined name of each root key. */
  function RootKeyName(k: RootKey): string
  {
    match k
    case ClassesRoot => "HKEY_CLASSES_ROOT"
    case CurrentUser => "HKEY_CURRENT_USER"
    case LocalMachine => "HKEY_LOCAL_MACHINE"
    case Users => "HKEY_USERS"
    case PerformanceData => "HKEY_PERFORMANCE_DATA"
    case CurrentConfig => "HKEY_CURRENT_CONFIG"
  }

  /** get_root_key: no name means HKEY_CURRENT_USER, a predefined name its
      key, and any other name no key at all. */
  function GetRootKey(root: Option<string>): (r: Option<RootKey>)
    ensures root.None? ==> r == Some(CurrentUser)
    ensures root.Some? && r.Some? ==> RootKeyName(r.value) == root.value
    ensures root.Some? && r.None? ==> forall k: RootKey :: RootKeyName(k) != root.value
  {
    match root
    case None => Some(CurrentUser)
    case Some(name) =>
      if name == "HKEY_CLASSES_ROOT" then Some(ClassesRoot)
      else if name == "HKEY_CURRENT_USER" then Some(CurrentUser)
      else if name == "HKEY_LOCAL_MACHINE" then Some(LocalMachine)
      else if name == "HKEY_USERS" then Some(Users)
      else if name == "HKEY_PERFORMANCE_DATA" then Some(PerformanceData)
      else if name == "HKEY_CURRENT_CONFIG" then Some(CurrentConfig)
      else None
  }

  /** Every predefined name maps back to its own key. */
  lemma RootKeyNameInverse(k: RootKey)
    ensures GetRootKey(Some(RootKeyName(k))) == Some(k)
  {
    match k
    case ClassesRoot =>
    case CurrentUser =>
    case LocalMachine =>
    case Users =>
    case PerformanceData =>
    case CurrentConfig =>
  }

  datatype ValueType = RegSz | RegExpandSz | RegOther

  /** A registry value: its type and its raw data bytes. */
  datatype RegValue = RegValue(kind: ValueType, data: string)

  datatype Registry = Registry(keys: map<(RootKey, string), map<string, RegValue>>)

  /** What ExpandEnvironmentStrings reports for a buffer of some capacity:
      the size it needs, terminator included, or 0 on error, and the text
      it left in the buffer. */
  datatype ExpandAnswer = ExpandAnswer(ret: nat, text: string)

  /** The environment a lookup runs in. */
  datatype Win32 = Win32(registry: Registry,
                         expand: (string, nat) -> ExpandAnswer,
                         canAlloc: nat -> bool)

  /** The registry key of GnuPG's settings. */
  const RegKey: string := "Software\\GNU\\GnuPG"

  /** The value stored as NAME under the key, if the key opens and has it. */
  function Fetch(reg: Registry, k: RootKey, dir: string, name: string): Option<RegValue>
  {
    if (k, dir) in reg.keys && name in reg.keys[(k, dir)] then Some(reg.keys[(k, dir)][name])
    else None
  }

  /** The buffer of capacity `cap` holds a complete expansion of `s`, and
      `r` is the string in it. */
  predicate Completes(w: Win32, s: string, cap: nat, r: string)
  {
    0 < w.expand(s, cap).ret <= cap && r == CStr(w.expand(s, cap).text)
  }

  /** The first buffer, of `size` + 1000 bytes, is allocated and holds the
      whole expansion. */
  predicate FirstFits(w: Win32, s: string, size: nat)
  {
    w.canAlloc(size + 1001) && 0 < w.expand(s, size + 1000).ret <= size + 1000
  }

  /** The first expansion asks for a larger buffer, which is allocated and
      holds the whole second expansion. */
  predicate SecondFits(w: Win32, s: string, size: nat)
  {
    var n := w.expand(s, size + 1000).ret;
    w.canAlloc(size + 1001) && n > size + 1000 && w.canAlloc(n + 1) && 0 < w.expand(s, n).ret <= n
  }

  /** The REG_EXPAND_SZ step: the first buffer has room for `size` + 1000
      bytes and is resized once to the reported size. The value is
      replaced by the expansion that fits, and a failed allocation, an
      expansion error or a second truncation keeps the string as it
      was. */
  function ExpandValue(w: Win32, s: string, size: nat): (r: string)
    ensures r == s || Completes(w, s, size + 1000, r)
            || Completes(w, s, w.expand(s, size + 1000).ret, r)
    ensures FirstFits(w, s, size) ==> r == CStr(w.expand(s, size + 1000).text)
    ensures SecondFits(w, s, size) ==> r == CStr(w.expand(s, w.expand(s, size + 1000).ret).text)
    ensures !FirstFits(w, s, size) && !SecondFits(w, s, size) ==> r == s
  {
    var n1 := size + 1000;
    if !w.canAlloc(n1 + 1) then s
    else
      var a := w.expand(s, n1);
      if a.ret > n1 then
        if !w.canAlloc(a.ret + 1) then s
        else
          var b := w.expand(s, a.ret);
          if b.ret > a.ret || b.ret == 0 then s
          else CStr(b.text)
      else if a.ret != 0 then CStr(a.text)
      else s
  }

  /** The same step as src/registry.c writes it: when the resized second
      expansion reports an error (0), the terminator goes at index 0 of the
      new buffer and that empty string replaces the value. */
  function ExpandValueAsWritten(w: Win32, s: string, size: nat): (r: string)
    ensures r == s || r == [] || Completes(w, s, size + 1000, r)
            || Completes(w, s, w.expand(s, size + 1000).ret, r)
  {
    var n1 := size + 1000;
    if !w.canAlloc(n1 + 1) then s
    else
      var a := w.expand(s, n1);
      if a.ret > n1 then
        if !w.canAlloc(a.ret + 1) then s
        else
          var b := w.expand(s, a.ret);
          if b.ret > a.ret then s
          else if b.ret == 0 then []
          else CStr(b.text)
      else if a.ret != 0 then CStr(a.text)
      else s
  }

  /** The discrepancy: a first expansion that needs a larger buffer and a
      second one that fails make the code as written return an empty
      string, which is neither the value nor an expansion of it, while the
      intended step keeps the value. */
  lemma AsWrittenLosesValue(w: Win32, s: string, size: nat)
    requires s != []
    requires w.canAlloc(size + 1001)
    requires w.expand(s, size + 1000).ret > size + 1000
    requires w.canAlloc(w.expand(s, size + 1000).ret + 1)
    requires w.expand(s, w.expand(s, size + 1000).ret).ret == 0
    ensures ExpandValueAsWritten(w, s, size) == []
    ensures ExpandValueAsWritten(w, s, size) != s
    ensures !Completes(w, s, size + 1000, ExpandValueAsWritten(w, s, size))
    ensures !Completes(w, s, w.expand(s, size + 1000).ret, ExpandValueAsWritten(w, s, size))
    ensures ExpandValue(w, s, size) == s
  {
  }

  /** The two steps agree whenever the second expansion does not fail. */
  lemma AsWrittenAgreesOtherwise(w: Win32, s: string, size: nat)
    requires w.expand(s, w.expand(s, size + 1000).ret).ret != 0
    ensures ExpandValueAsWritten(w, s, size) == ExpandValue(w, s, size)
  {
  }

  /** The string a successfully read value yields: its data up to the
      first NUL, expanded when it is a REG_EXPAND_SZ holding a `%`. */
  function ValueString(w: Win32, v: RegValue): (r: string)
    ensures v.kind != RegExpandSz ==> r == CStr(v.data)
    ensures '%' !in CStr(v.data) ==> r == CStr(v.data)
  {
    var s := CStr(v.data);
    if v.kind == RegExpandSz && '%' in s then ExpandValue(w, s, |v.data|) else s
  }

  /** The value a lookup finds: under the given root only, or, without a
      root, under HKEY_CURRENT_USER and then HKEY_LOCAL_MACHINE. */
  function Found(w: Win32, root: Option<string>, dir: string, name: string): Option<RegValue>
  {
    match GetRootKey(root)
    case None => None
    case Some(k) =>
      if root.Some? || Fetch(w.registry, k, dir, name).Some? then Fetch(w.registry, k, dir, name)
      else Fetch(w.registry, LocalMachine, dir, name)
  }

  /** What read_w32_registry_string returns (None for NULL). */
  function Lookup(w: Win32, root: Option<string>, dir: string, name: string): (r: Option<string>)
    ensures r.None? <==> Found(w, root, dir, name).None? || !w.canAlloc(|Found(w, root, dir, name).value.data| + 1)
    ensures r.Some? && Found(w, root, dir, name).value.kind != RegExpandSz ==>
              r.value == CStr(Found(w, root, dir, name).value.data)
  {
    match Found(w, root, dir, name)
    case None => None
    case Some(v) => if w.canAlloc(|v.data| + 1) then Some(ValueString(w, v)) else None
  }

  /** A key handle opened or closed by the lookup. */
  datatype HandleEvent = Opened(key: (RootKey, string)) | Closed(key: (RootKey, string))

  /** Every handle that is opened is closed, once, before the next open. */
  predicate Balanced(log: seq<HandleEvent>)
  {
    log == [] || (|log| >= 2 && log[0].Opened? && log[1] == Closed(log[0].key) && Balanced(log[2..]))
  }

  lemma BalancedPair(k: (RootKey, string), rest: seq<HandleEvent>)
    requires Balanced(rest)
    ensures Balanced([Opened(k), Closed(k)] + rest)
  {
    assert ([Opened(k), Closed(k)] + rest)[2..] == rest;
  }

  /** The REG_EXPAND_SZ branch of read_w32_registry_string: expand into a
      buffer of `size` + 1000 bytes, and once more into one of the size
      the first call asks for. */
  method ExpandString(w: Win32, s: string, size: nat) returns (r: string)
    ensures r == ExpandValue(w, s, size)
  {
    r := s;
    var n1 := size + 1000;
    if !w.canAlloc(n1 + 1) {
      return;
    }
    var a := w.expand(s, n1);
    if a.ret != 0 && a.ret > n1 {
      n1 := a.ret;
      if !w.canAlloc(n1 + 1) {
        return;
      }
      var b := w.expand(s, n1);
      if b.ret != 0 && b.ret > n1 {
        return;
      }
      if b.ret != 0 {
        r := CStr(b.text);
      }
    } else if a.ret != 0 {
      // The shrunken copy and, when it cannot be allocated, the
      // expansion buffer itself hold the same string.
      r := CStr(a.text);
    }
  }

  /** read_w32_registry_string. A key the code opens is logged, and so is
      every RegCloseKey; the early returns of the source close nothing
      because they have nothing open. */
  method ReadRegistryString(w: Win32, root: Option<string>, dir: string, name: string)
    returns (result: Option<string>, log: seq<HandleEvent>)
    ensures result == Lookup(w, root, dir, name)
    ensures Balanced(log)
    ensures GetRootKey(root).None? ==> log == []
    ensures root.Some? && GetRootKey(root).Some? ==>
              forall e | e in log :: e.key == (GetRootKey(root).value, dir)
  {
    result := None;
    log := [];
    var rootKey := GetRootKey(root);
    if rootKey.None? {
      return;
    }
    var handle := (rootKey.value, dir);
    if handle !in w.registry.keys {
      if root.Some? {
        return;
      }
      handle := (LocalMachine, dir);
      if handle !in w.registry.keys {
        return;
      }
    }
    var reopened := false;
    label leave: {
      if name !in w.registry.keys[handle] {
        if root.Some? {
          assert Found(w, root, dir, name) == None;
          break leave;
        }
        log := [Opened(handle), Closed(handle)];
        reopened := true;
        handle := (LocalMachine, dir);
        if handle !in w.registry.keys {
          return;
        }
        if name !in w.registry.keys[handle] {
          assert Found(w, root, dir, name) == None;
          break leave;
        }
      }
      var value := w.registry.keys[handle][name];
      assert Found(w, root, dir, name) == Some(value);
      var nbytes := |value.data|;
      if !w.canAlloc(nbytes + 1) {
        break leave;
      }
      var s := CStr(value.data);
      result := Some(s);
      if value.kind == RegExpandSz && '%' in s {
        s := ExpandString(w, s, nbytes);
        result := Some(s);
      }
      assert result == Some(ValueString(w, value));
    }
    BalancedPair(handle, []);
    if reopened {
      BalancedPair(log[0].key, [Opened(handle), Closed(handle)]);
      log := log + [Opened(handle), Closed(handle)];
    } else {
      log := [Opened(handle), Closed(handle)];
    }
  }

  /** A lookup with a root name that is not predefined finds nothing. */
  lemma UnknownRootFindsNothing(w: Win32, root: string, dir: string, name: string)
    requires forall k: RootKey :: RootKeyName(k) != root
    ensures Lookup(w, Some(root), dir, name) == None
  {
  }

  /** With an explicit root there is no fallback: a key that does not open
      or lacks the value gives NULL whatever HKEY_LOCAL_MACHINE holds. */
  lemma ExplicitRootNoFallback(w: Win32, k: RootKey, dir: string, name: string)
    requires Fetch(w.registry, k, dir, name).None?
    ensures Lookup(w, Some(RootKeyName(k)), dir, name) == None
  {
    RootKeyNameInverse(k);
  }

  /** Without a root, a value present under HKEY_CURRENT_USER is read
      exactly as an explicit HKEY_CURRENT_USER lookup reads it. */
  lemma NullRootPrefersCurrentUser(w: Win32, dir: string, name: string)
    requires Fetch(w.registry, CurrentUser, dir, name).Some?
    ensures Lookup(w, None, dir, name) == Lookup(w, Some("HKEY_CURRENT_USER"), dir, name)
  {
  }

  /** Without a root, a missing HKEY_CURRENT_USER key or value falls back to
      an HKEY_LOCAL_MACHINE lookup. */
  lemma NullRootFallsBack(w: Win32, dir: string, name: string)
    requires Fetch(w.registry, CurrentUser, dir, name).None?
    ensures Lookup(w, None, dir, name) == Lookup(w, Some("HKEY_LOCAL_MACHINE"), dir, name)
  {
  }

  /** A value that is found and fits in memory yields its bytes up to the
      first NUL; a REG_EXPAND_SZ value holding a `%` is replaced by its
      expansion when that fits the first buffer or the resized one, and is
      kept as it is otherwise. */
  lemma LookupResult(w: Win32, root: Option<string>, dir: string, name: string)
    requires Lookup(w, root, dir, name).Some?
    ensures Found(w, root, dir, name).Some?
    ensures var s := CStr(Found(w, root, dir, name).value.data);
            var r := Lookup(w, root, dir, name).value;
            var size := |Found(w, root, dir, name).value.data|;
            r == s || Completes(w, s, size + 1000, r) || Completes(w, s, w.expand(s, size + 1000).ret, r)
    ensures var v := Found(w, root, dir, name).value;
            var s := CStr(v.data);
            var r := Lookup(w, root, dir, name).value;
            var expands := v.kind == RegExpandSz && '%' in s;
            && (!expands ==> r == s)
            && (expands && FirstFits(w, s, |v.data|) ==> r == CStr(w.expand(s, |v.data| + 1000).text))
            && (expands && SecondFits(w, s, |v.data|) ==>
                  r == CStr(w.expand(s, w.expand(s, |v.data| + 1000).ret).text))
            && (expands && !FirstFits(w, s, |v.data|) && !SecondFits(w, s, |v.data|) ==> r == s)
  {
  }
}
