/** The DLL-level helpers of src/main.cc: the locale directory, the debug
    log's set-up, filter and newline rule, and the two exported decision
    functions DllCanUnloadNow and DllGetClassObject. */
module Dll {
  import opened Common
  import opened W32Registry
  import opened DollarTemplate
  import opened ServerRef
  import opened ClassFactory

  // ---------------------------------------------------------------------
  // get_locale_dir

  /** Appended to the install directory to name the message catalogs. */
  const LocaleSubdir: string := "\\share\\locale"

  /** The install directory from HKEY_LOCAL_MACHINE. */
  function InstallDir(w: Win32): Option<string>
  {
    Lookup(w, Some("HKEY_LOCAL_MACHINE"), RegKey, "Install Directory")
  }

  /** The locale directory: the install directory followed by
      \share\locale. It starts with the install directory and ends in
      \share\locale, and it is missing only without an install directory
      or when the buffer for it cannot be allocated. */
  function LocaleDir(w: Win32): (r: Option<string>)
    ensures r.Some? ==>
      && InstallDir(w).Some?
      && |InstallDir(w).value| <= |r.value|
      && r.value[..|InstallDir(w).value|] == InstallDir(w).value
      && r.value[|InstallDir(w).value|..] == "\\share\\locale"
    ensures r.None? <==>
      InstallDir(w).None? || !w.canAlloc(|InstallDir(w).value| + |LocaleSubdir| + 1)
  {
    match InstallDir(w)
    case None => None
    case Some(dir) => if w.canAlloc(|dir| + |LocaleSubdir| + 1) then Some(dir + LocaleSubdir) else None
  }

  /** get_locale_dir: the two strcpy calls into a buffer of the summed
      lengths plus the terminator. */
  method GetLocaleDir(w: Win32) returns (r: Option<string>)
    ensures r == LocaleDir(w)
  {
    var instdir, _ := ReadRegistryString(w, Some("HKEY_LOCAL_MACHINE"), RegKey, "Install Directory");
    if instdir.None? {
      return None;
    }
    var dir := instdir.value;
    if !w.canAlloc(|dir| + |LocaleSubdir| + 1) {
      return None;
    }
    var dname := new char[|dir| + |LocaleSubdir| + 1];
    CopyAt(dname, 0, dir);
    assert dname[..|dir|] == dir;
    var p := |dir|;
    CopyAt(dname, p, LocaleSubdir);
    var full := dname[..p + |LocaleSubdir|];
    assert full == dir + LocaleSubdir;
    dname[p + |LocaleSubdir|] := '\0';
    assert dname[..p + |LocaleSubdir|] == full;
    r := Some(dname[..p + |LocaleSubdir|]);
  }

  // ---------------------------------------------------------------------
  // The debug log

  // The debug flags.
  const DebugInit: bv32 := 1
  const DebugContextMenu: bv32 := 2
  const DebugAssuan: bv32 := 4

  /** The flag set once the log file opened. */
  const AllDebugFlags: bv32 := DebugInit | DebugContextMenu | DebugAssuan

  /** The name of the debug log, from HKEY_LOCAL_MACHINE. */
  function DebugFileName(w: Win32): Option<string>
  {
    Lookup(w, Some("HKEY_LOCAL_MACHINE"), RegKey, "GpgEX Debug File")
  }

  /** A newline is added after a non-empty format that does not end in
      one. */
  predicate NeedsNewline(format: Option<string>)
  {
    format.Some? && format.value != [] && format.value[|format.value| - 1] != '\n'
  }

  /** What _gpgex_debug writes for a message: nothing unless its flags
      meet the enabled ones (so nothing before the log file opened);
      otherwise the formatted text, followed by exactly one added newline
      when the format does not end in one and nothing added otherwise. */
  function DebugOutput(enabled: bv32, flags: bv32, format: Option<string>, text: string): (out: string)
    ensures enabled & flags == 0 ==> out == []
    ensures enabled == 0 ==> out == []
    ensures enabled & flags != 0 ==>
      && (|out| == |text| || |out| == |text| + 1)
      && out[..|text|] == text
      && (|out| == |text| + 1 <==> NeedsNewline(format))
      && (NeedsNewline(format) ==> out[|text|] == '\n')
  {
    if enabled & flags == 0 then []
    else text + (if NeedsNewline(format) then "\n" else [])
  }

  /** A message without conversions is written as one complete line: it
      ends in a newline whether or not its format had one. */
  lemma PlainMessageIsOneLine(enabled: bv32, flags: bv32, format: string)
    requires enabled & flags != 0 && format != []
    ensures var out := DebugOutput(enabled, flags, Some(format), format);
      out != [] && out[|out| - 1] == '\n'
  {
    var out := DebugOutput(enabled, flags, Some(format), format);
    if !NeedsNewline(Some(format)) {
      assert out == format;
    }
  }

  class DebugLog {
    /** debug_file: the name of the open log file, None for NULL. */
    var file: Option<string>
    /** debug_flags. */
    var enabled: bv32
    /** Everything written to the log file. */
    var written: string
    /** The C library's errno. */
    var errno: int

    constructor ()
      ensures file == None && enabled == 0 && written == []
    {
      file := None;
      enabled := 0;
      written := [];
    }

    /** debug_init: nothing when the file is already open; otherwise the
        file named in the registry is opened for appending and, when that
        works, all flags are enabled. `openOk` tells whether fopen
        succeeds for a name. */
    method Init(w: Win32, openOk: string -> bool)
      modifies this
      ensures written == old(written) && errno == old(errno)
      ensures old(file).Some? ==> file == old(file) && enabled == old(enabled)
      ensures old(file).None? && DebugFileName(w).Some? && openOk(DebugFileName(w).value) ==>
                file == DebugFileName(w) && enabled == AllDebugFlags
      ensures old(file).None? && (DebugFileName(w).None? || !openOk(DebugFileName(w).value)) ==>
                file == None && enabled == old(enabled)
    {
      if file.Some? {
        return;
      }
      var filename, _ := ReadRegistryString(w, Some("HKEY_LOCAL_MACHINE"), RegKey, "GpgEX Debug File");
      if filename.None? {
        return;
      }
      if !openOk(filename.value) {
        return;
      }
      file := filename;
      enabled := DebugInit | DebugContextMenu | DebugAssuan;
    }

    /** debug_deinit: the file is closed and forgotten, so a second call
        does nothing. */
    method Deinit()
      modifies this
      ensures file == None
      ensures enabled == old(enabled) && written == old(written) && errno == old(errno)
    {
      if file.Some? {
        file := None;
      }
    }

    /** _gpgex_debug for a message with the given flags and format, whose
        formatted text is `text`; `errnoAfter` is what the output calls
        leave in errno, which is restored on every path. */
    method Debug(flags: bv32, format: Option<string>, text: string, errnoAfter: int)
      modifies this
      ensures written == old(written) + DebugOutput(old(enabled), flags, format, text)
      ensures errno == old(errno)
      ensures file == old(file) && enabled == old(enabled)
    {
      var savedErrno := errno;
      if enabled & flags == 0 {
        return;
      }
      written := written + text;
      errno := errnoAfter;
      if format.Some? && |format.value| > 0 && format.value[|format.value| - 1] != '\n' {
        written := written + "\n";
      }
      errno := savedErrno;
    }
  }

  // ---------------------------------------------------------------------
  // The exported decisions

  /** DllCanUnloadNow: S_OK exactly when no reference to the server
      component is held, S_FALSE otherwise. */
  function DllCanUnloadNow(server: Server): (hr: int)
    reads server
    ensures hr == S_OK <==> server.refcount == 0
    ensures hr == S_OK || hr == S_FALSE
  {
    if server.refcount == 0 then S_OK else S_FALSE
  }

  /** The class ids asked for. */
  datatype Clsid = ClsidGpgex | OtherClsid(guid: nat)

  /** DllGetClassObject: the factory's QueryInterface for GpgEX's class
      id; CLASS_E_CLASSNOTAVAILABLE and a NULL *ppv for any other. The
      source stores NULL through ppv there without a check, so ppv must
      not be NULL for other class ids. */
  function DllGetClassObject(clsid: Clsid, iid: Iid, ppvNull: bool): (r: (int, Option<Iid>))
    requires clsid == ClsidGpgex || !ppvNull
    ensures clsid != ClsidGpgex ==> r == (CLASS_E_CLASSNOTAVAILABLE, None)
    ensures r.0 == S_OK <==> clsid == ClsidGpgex && !ppvNull && FactoryExposed(iid)
    ensures r.0 != S_OK ==> r.1 == None && Failed(r.0)
  {
    if clsid == ClsidGpgex then FactoryQuery(iid, ppvNull)
    else (CLASS_E_CLASSNOTAVAILABLE, None)
  }
}
