/** The Explorer shell extension object of src/gpgex.cc: the files it was
    initialised with, whether all of them look like OpenPGP or CMS data,
    the context menu it inserts, the help texts of its commands and the
    dispatch of an invoked command to the Assuan client.

    Menus are sequences of items; the Win32 menu calls are an oracle
    (`MenuApi`) telling which of them succeed. */
module ShellExtension {
  import opened Common
  import opened ServerRef
  import opened Client

  // The command ids of the context menu, relative to idCmdFirst.
  const IdHelp: nat := 0
  const IdDecryptVerify: nat := 1
  const IdDecrypt: nat := 2
  const IdVerify: nat := 3
  const IdSignEncrypt: nat := 4
  const IdEncrypt: nat := 5
  const IdSign: nat := 6
  const IdImport: nat := 7
  const IdCreateChecksums: nat := 8
  const IdVerifyChecksums: nat := 9
  const IdPopup: nat := 10
  const IdMax: nat := 10

  // ---------------------------------------------------------------------
  // Classifying file names

  /** The endings, compared without regard to case, of files that are
      taken to be OpenPGP or CMS data. */
  const GpgEndings: seq<string> := ["gpg", "pgp", "asc", "sig", "pem", "p7m", "p7s"]

  function LowerAscii(c: char): char
  {
    if 'A' <= c <= 'Z' then (c as int + 32) as char else c
  }

  /** strcasecmp(a, b) == 0 in the C locale. */
  predicate SameIgnoringCase(a: string, b: string)
  {
    |a| == |b| && forall i | 0 <= i < |a| :: LowerAscii(a[i]) == LowerAscii(b[i])
  }

  /** strrchr(s, '.'): the index of the last dot, if there is one. */
  function LastDot(s: string): (r: Option<nat>)
    ensures r.Some? ==> r.value < |s| && s[r.value] == '.' && '.' !in s[r.value + 1..]
    ensures r.None? <==> '.' !in s
  {
    if s == [] then None
    else if s[|s| - 1] == '.' then Some(|s| - 1)
    else
      var r := LastDot(s[..|s| - 1]);
      assert s == s[..|s| - 1] + [s[|s| - 1]];
      if r.Some? then
        assert s[r.value + 1..] == s[..|s| - 1][r.value + 1..] + [s[|s| - 1]];
        r
      else r
  }

  predicate IsGpgEnding(e: string)
  {
    exists k | 0 <= k < |GpgEndings| :: SameIgnoringCase(e, GpgEndings[k])
  }

  /** The name ends in a dot followed by one of the GnuPG endings. */
  predicate IsGpgName(name: string)
  {
    LastDot(name).Some? && IsGpgEnding(name[LastDot(name).value + 1..])
  }

  /** The last dot of a name made of a stem, a dot and a dot-free ending
      is the one before the ending. */
  lemma {:induction false} LastDotOfSplit(stem: string, ending: string)
    requires '.' !in ending
    ensures LastDot(stem + "." + ending) == Some(|stem|)
  {
    var s := stem + "." + ending;
    if ending != [] {
      var shorter := ending[..|ending| - 1];
      assert '.' !in shorter by {
        forall i | 0 <= i < |shorter|
          ensures shorter[i] != '.'
        {
          assert shorter[i] == ending[i];
        }
      }
      LastDotOfSplit(stem, shorter);
      assert s[..|s| - 1] == stem + "." + shorter;
      assert s[|s| - 1] == ending[|ending| - 1];
    }
  }

  /** A dot that no other dot follows is the last dot. */
  lemma {:induction false} LastDotIsUnique(name: string, d: nat)
    requires d < |name| && name[d] == '.' && '.' !in name[d + 1..]
    decreases |name|
    ensures LastDot(name) == Some(d)
  {
    if d < |name| - 1 {
      var shorter := name[..|name| - 1];
      assert name[|name| - 1] == name[d + 1..][|name| - d - 2];
      assert shorter[d] == '.';
      assert shorter[d + 1..] == name[d + 1..][..|name| - d - 2];
      LastDotIsUnique(shorter, d);
    }
  }

  /** The classification of a name, read from its form: a name is a GnuPG
      file exactly when it is some stem, a dot and a dot-free GnuPG
      ending. */
  lemma IsGpgNameIff(name: string)
    ensures IsGpgName(name) <==>
      exists d | 0 <= d < |name| :: name[d] == '.' && '.' !in name[d + 1..] && IsGpgEnding(name[d + 1..])
  {
    if IsGpgName(name) {
      var d := LastDot(name).value;
      assert name[d] == '.' && '.' !in name[d + 1..] && IsGpgEnding(name[d + 1..]);
    }
    if d :| 0 <= d < |name| && name[d] == '.' && '.' !in name[d + 1..] && IsGpgEnding(name[d + 1..]) {
      LastDotIsUnique(name, d);
    }
  }

  /** A name without a dot is never a GnuPG file, whatever it says. */
  lemma NoDotNotGpg(name: string)
    requires '.' !in name
    ensures !IsGpgName(name)
  {
  }

  /** The ending is compared without regard to case: "report.GPG" is a
      GnuPG file. */
  lemma UpperCaseEndingCounts()
    ensures IsGpgName("report.GPG")
  {
    LastDotOfSplit("report", "GPG");
    assert "report" + "." + "GPG" == "report.GPG";
    assert "report.GPG"[7..] == "GPG";
    assert SameIgnoringCase("GPG", GpgEndings[0]);
  }

  /** Only the text after the last dot counts: "notes.gpg.txt" is not a
      GnuPG file. */
  lemma OnlyLastEndingCounts()
    ensures !IsGpgName("notes.gpg.txt")
  {
    LastDotOfSplit("notes.gpg", "txt");
    assert "notes.gpg" + "." + "txt" == "notes.gpg.txt";
    var e := "notes.gpg.txt"[10..];
    assert e == "txt";
    assert LowerAscii(e[0]) == 't' && LowerAscii(e[1]) == 'x';
    forall k | 0 <= k < |GpgEndings|
      ensures !SameIgnoringCase(e, GpgEndings[k])
    {
      var g := GpgEndings[k];
      assert |g| == 3;
      assert LowerAscii(g[0]) != 't' || LowerAscii(g[1]) != 'x';
    }
  }

  // ---------------------------------------------------------------------
  // IShellExtInit::Initialize

  /** What the data object handed to Initialize yields: no object (NULL),
      an object without a file drop, or the names the drop lists, as
      DragQueryFile returns them. */
  datatype DataObject = NoDataObject | NoDrop | Drop(names: seq<string>)

  /** Every name of the list is a GnuPG file. */
  predicate AllGpg(names: seq<string>)
  {
    forall i | 0 <= i < |names| :: IsGpgName(names[i])
  }

  /** A drop Initialize accepts: at least one name, and none empty. */
  predicate Acceptable(names: seq<string>)
  {
    names != [] && forall i | 0 <= i < |names| :: names[i] != []
  }

  datatype InitResult = InitResult(hr: int, filenames: seq<string>, allFilesGpg: bool)

  /** The result and the new state of Initialize. */
  function InitOutcome(data: DataObject): (r: InitResult)
    ensures r.hr == S_OK || r.hr == E_INVALIDARG
    ensures r.hr == E_INVALIDARG <==> data.Drop? && !Acceptable(data.names)
    ensures r.hr != S_OK || !data.Drop? ==> r.filenames == [] && r.allFilesGpg
    ensures r.hr == S_OK && data.Drop? ==>
              r.filenames == data.names && (r.allFilesGpg <==> forall i | 0 <= i < |data.names| :: IsGpgName(data.names[i]))
  {
    match data
    case Drop(names) =>
      if Acceptable(names) then InitResult(S_OK, names, AllGpg(names))
      else InitResult(E_INVALIDARG, [], true)
    case _ => InitResult(S_OK, [], true)
  }

  /** Extending the list by one name keeps the flag exactly when that
      name is a GnuPG file. */
  lemma AllGpgStep(names: seq<string>, i: nat)
    requires i < |names|
    ensures AllGpg(names[..i + 1]) <==> AllGpg(names[..i]) && IsGpgName(names[i])
  {
    var a, b := names[..i], names[..i + 1];
    assert b == a + [names[i]];
    if AllGpg(a) && IsGpgName(names[i]) {
      forall j | 0 <= j < |b|
        ensures IsGpgName(b[j])
      {
        if j < i {
          assert b[j] == a[j];
        }
      }
    }
    if AllGpg(b) {
      assert IsGpgName(b[i]);
      forall j | 0 <= j < |a|
        ensures IsGpgName(a[j])
      {
        assert a[j] == b[j];
      }
    }
  }

  /** The list of endings is the source's chain of seven comparisons. */
  lemma EndingChain(e: string)
    ensures IsGpgEnding(e) <==>
      SameIgnoringCase(e, "gpg") || SameIgnoringCase(e, "pgp") || SameIgnoringCase(e, "asc")
      || SameIgnoringCase(e, "sig") || SameIgnoringCase(e, "pem") || SameIgnoringCase(e, "p7m")
      || SameIgnoringCase(e, "p7s")
  {
    var g := GpgEndings;
    assert g[0] == "gpg" && g[1] == "pgp" && g[2] == "asc" && g[3] == "sig";
    assert g[4] == "pem" && g[5] == "p7m" && g[6] == "p7s";
    if k :| 0 <= k < |g| && SameIgnoringCase(e, g[k]) {
      assert k == 0 || k == 1 || k == 2 || k == 3 || k == 4 || k == 5 || k == 6;
    }
  }

  /** The test on one name: strrchr for the last dot, then the
      case-insensitive comparison of what follows with each ending. */
  method ClassifyName(filename: string) returns (gpg: bool)
    ensures gpg == IsGpgName(filename)
  {
    var dot := LastDot(filename);
    gpg := false;
    if dot.Some? {
      var ending := filename[dot.value + 1..];
      gpg := SameIgnoringCase(ending, "gpg") || SameIgnoringCase(ending, "pgp")
          || SameIgnoringCase(ending, "asc") || SameIgnoringCase(ending, "sig")
          || SameIgnoringCase(ending, "pem") || SameIgnoringCase(ending, "p7m")
          || SameIgnoringCase(ending, "p7s");
      EndingChain(ending);
    }
  }

  /** Initialize fails only on a drop without names or with an empty one,
      and a failure leaves the instance reset. */
  lemma InitializeRejects(data: DataObject)
    ensures var r := InitOutcome(data);
      && (r.hr == S_OK || r.hr == E_INVALIDARG)
      && (r.hr == E_INVALIDARG <==> data.Drop? && (data.names == [] || exists i | 0 <= i < |data.names| :: data.names[i] == []))
      && (r.hr != S_OK ==> r.filenames == [] && r.allFilesGpg)
      && (!data.Drop? ==> r.filenames == [] && r.allFilesGpg)
  {
  }

  /** After a successful Initialize the list is the dropped names in
      order, and the flag is set exactly when every name ends in a dot and
      a GnuPG ending; a single name without a dot clears it. */
  lemma InitializeClassifies(names: seq<string>, i: nat)
    requires Acceptable(names)
    requires i < |names|
    ensures InitOutcome(Drop(names)).hr == S_OK
    ensures InitOutcome(Drop(names)).filenames == names
    ensures InitOutcome(Drop(names)).allFilesGpg ==> IsGpgName(names[i])
    ensures '.' !in names[i] ==> !InitOutcome(Drop(names)).allFilesGpg
  {
    if '.' !in names[i] {
      NoDotNotGpg(names[i]);
    }
  }

  // ---------------------------------------------------------------------
  // IContextMenu::QueryContextMenu

  /** A menu entry: a separator, a command with its id, or the entry that
      opens the popup, with its id. */
  datatype Item = Separator | Command(id: nat) | Submenu(id: nat)

  /** Which menu calls succeed. The insertions into either menu are
      numbered in the order they are made; GetLastError's value after a
      failure is `lastError`. */
  datatype MenuApi = MenuApi(insertOk: nat -> bool, popupOk: bool, bitmapOk: bool, lastError: DWord)

  /** The HRESULT and what was inserted into the context menu and into
      the popup. */
  datatype MenuResult = MenuResult(hr: int, menu: seq<Item>, popup: seq<Item>)

  /** CMF_DEFAULTONLY. */
  predicate DefaultOnly(flags: DWord)
  {
    flags % 2 == 1
  }

  /** The command shown directly in the context menu. */
  function TopItem(allGpg: bool, first: nat): Item
  {
    Command(first + (if allGpg then IdDecryptVerify else IdSignEncrypt))
  }

  /** The popup's k-th item, in the order they are inserted. */
  function PopupItem(first: nat, k: nat): (it: Item)
    ensures it.Command? ==> first <= it.id <= first + IdMax
    ensures !it.Submenu?
  {
    if k == 0 then Command(first + IdDecrypt)
    else if k == 1 then Command(first + IdVerify)
    else if k == 2 then Command(first + IdDecryptVerify)
    else if k == 3 then Command(first + IdEncrypt)
    else if k == 4 then Command(first + IdSign)
    else if k == 5 then Command(first + IdSignEncrypt)
    else if k == 6 then Command(first + IdImport)
    else if k == 7 then Command(first + IdCreateChecksums)
    else if k == 8 then Command(first + IdVerifyChecksums)
    else if k == 9 then Separator
    else Command(first + IdHelp)
  }

  /** The popup's eleven items. */
  function PopupItems(first: nat): (items: seq<Item>)
    ensures |items| == 11
    ensures forall k | 0 <= k < 11 :: items[k] == PopupItem(first, k)
  {
    seq(11, k requires 0 <= k < 11 => PopupItem(first, k))
  }

  /** How many of `n` insertions numbered from `start` succeed before the
      first failure. */
  function Run(ok: nat -> bool, start: nat, n: nat): (r: nat)
    ensures r <= n
    decreases n
  {
    if n == 0 || !ok(start) then 0 else 1 + Run(ok, start + 1, n - 1)
  }

  /** One more attempted insertion extends the run only when all earlier
      ones succeeded and it succeeds too. */
  lemma {:induction false} RunStep(ok: nat -> bool, start: nat, k: nat)
    decreases k
    ensures Run(ok, start, k + 1) ==
      if Run(ok, start, k) == k && ok(start + k) then k + 1 else Run(ok, start, k)
  {
    if k > 0 && ok(start) {
      RunStep(ok, start + 1, k - 1);
    }
  }

  /** The run counts exactly the leading insertions that succeed. */
  lemma {:induction false} RunIsLeadingSuccesses(ok: nat -> bool, start: nat, n: nat)
    decreases n
    ensures forall j | start <= j < start + Run(ok, start, n) :: ok(j)
    ensures Run(ok, start, n) < n ==> !ok(start + Run(ok, start, n))
  {
    if n > 0 && ok(start) {
      RunIsLeadingSuccesses(ok, start + 1, n - 1);
    }
  }

  /** What QueryContextMenu inserts and returns. */
  function ContextMenu(allGpg: bool, keyBitmap: bool, flags: DWord, first: nat, api: MenuApi): (r: MenuResult)
    ensures DefaultOnly(flags) ==> r == MenuResult(S_OK, [], [])
    ensures !DefaultOnly(flags) ==> (r.menu == [] <==> !api.insertOk(0))
    ensures |r.menu| <= 4 && |r.popup| <= 11
    ensures r.popup != [] ==> |r.menu| == 4
    ensures r.menu != [] ==> r.menu[0] == Separator
    ensures !DefaultOnly(flags) ==> (|r.menu| >= 2 <==> api.insertOk(0) && api.insertOk(1))
    ensures |r.menu| >= 2 ==> r.menu[1] == TopItem(allGpg, first)
    ensures |r.menu| >= 3 ==> r.menu[2] == Submenu(first + IdPopup)
    ensures |r.menu| == 4 ==> r.menu[3] == Separator
  {
    var err := HResultFromWin32(api.lastError);
    if DefaultOnly(flags) then MenuResult(S_OK, [], [])
    else if !api.insertOk(0) then MenuResult(err, [], [])
    else if !api.insertOk(1) then MenuResult(err, [Separator], [])
    else if !api.popupOk || !api.insertOk(2) then MenuResult(err, [Separator, TopItem(allGpg, first)], [])
    else
      var head := [Separator, TopItem(allGpg, first), Submenu(first + IdPopup)];
      if (keyBitmap && !api.bitmapOk) || !api.insertOk(3) then MenuResult(err, head, [])
      else
        var n := Run(api.insertOk, 4, 11);
        MenuResult(if n == 11 then IdMax + 1 else err, head + [Separator], PopupItems(first)[..n])
  }

  /** With CMF_DEFAULTONLY nothing is inserted and the offset is 0. */
  lemma DefaultOnlyInsertsNothing(allGpg: bool, keyBitmap: bool, flags: DWord, first: nat, api: MenuApi)
    requires DefaultOnly(flags)
    ensures ContextMenu(allGpg, keyBitmap, flags, first, api) == MenuResult(0, [], [])
  {
  }

  /** When every call succeeds the menu gets a separator, the top command
      (decrypt-and-verify when all files are GnuPG files, sign-and-encrypt
      otherwise), the popup entry and a separator; the popup gets all
      eleven items in order; and the offset 11 past the last id is
      returned. */
  lemma FullMenu(allGpg: bool, keyBitmap: bool, flags: DWord, first: nat, api: MenuApi)
    requires !DefaultOnly(flags)
    requires api.popupOk && api.bitmapOk
    requires forall k | 0 <= k < 15 :: api.insertOk(k)
    ensures var r := ContextMenu(allGpg, keyBitmap, flags, first, api);
      && r.hr == IdMax + 1
      && r.menu == [Separator, Command(first + (if allGpg then IdDecryptVerify else IdSignEncrypt)),
                    Submenu(first + IdPopup), Separator]
      && r.popup == PopupItems(first)
  {
    RunIsLeadingSuccesses(api.insertOk, 4, 11);
    assert api.insertOk(4 + Run(api.insertOk, 4, 11)) || Run(api.insertOk, 4, 11) == 11;
  }

  /** Whatever fails, the popup holds a prefix of its items in order, the
      call succeeds only with the whole popup, a failure returns the
      error of the failing call, and every id used lies in
      [first, first + 10]. */
  lemma MenuStopsAtFirstFailure(allGpg: bool, keyBitmap: bool, flags: DWord, first: nat, api: MenuApi)
    requires !DefaultOnly(flags)
    ensures var r := ContextMenu(allGpg, keyBitmap, flags, first, api);
      && |r.popup| <= |PopupItems(first)| && r.popup == PopupItems(first)[..|r.popup|]
      && (r.hr == IdMax + 1 <==> r.popup == PopupItems(first))
      && (r.hr != IdMax + 1 ==> r.hr == HResultFromWin32(api.lastError))
      && (forall j | 4 <= j < 4 + |r.popup| :: api.insertOk(j))
      && (|r.popup| < 11 && |r.menu| == 4 ==> !api.insertOk(4 + |r.popup|))
      && (forall it | it in r.menu + r.popup && !it.Separator? :: first <= it.id <= first + IdMax)
  {
    var r := ContextMenu(allGpg, keyBitmap, flags, first, api);
    RunIsLeadingSuccesses(api.insertOk, 4, 11);
    forall it | it in r.menu + r.popup && !it.Separator?
      ensures first <= it.id <= first + IdMax
    {
      if it in r.popup {
        assert it in PopupItems(first);
      }
    }
  }

  // ---------------------------------------------------------------------
  // IContextMenu::GetCommandString

  /** GCS_HELPTEXT, GCS_UNICODE. */
  predicate WantsHelpText(flags: DWord)
  {
    flags % 2 == 1
  }

  predicate WantsUnicode(flags: DWord)
  {
    flags / 4 % 2 == 1
  }

  /** The help text of each command id, the popup entry's included. */
  function HelpText(id: nat): (t: Option<string>)
    ensures t.Some? <==> id <= IdMax
  {
    if id == IdHelp then Some("Invoke the GpgEX documentation.")
    else if id == IdDecryptVerify then Some("Decrypt and verify the marked files.")
    else if id == IdDecrypt then Some("Decrypt the marked files.")
    else if id == IdVerify then Some("Verify the marked files.")
    else if id == IdSignEncrypt then Some("Sign and encrypt the marked files.")
    else if id == IdEncrypt then Some("Encrypt the marked files.")
    else if id == IdSign then Some("Sign the marked files.")
    else if id == IdImport then Some("Import the marked files.")
    else if id == IdCreateChecksums then Some("Create checksums.")
    else if id == IdVerifyChecksums then Some("Verify checksums.")
    else if id == IdPopup then Some("Show more GpgEX options.")
    else None
  }

  const UnicodeUnavailable: string := "(Unicode help not available yet)"

  /** lstrcpyn into a buffer of `size` characters: at most size - 1 of
      them and the terminator; nothing at all into an empty buffer. */
  function CopyBounded(text: string, size: DWord): (r: Option<string>)
    ensures size == 0 <==> r.None?
    ensures r.Some? ==> |r.value| < size && |r.value| <= |text| && r.value == text[..|r.value|]
    ensures r.Some? && |text| < size ==> r.value == text
    ensures r.Some? && |text| >= size ==> r.value == text[..size - 1]
  {
    if size == 0 then None
    else if |text| < size then Some(text)
    else Some(text[..size - 1])
  }

  /** GetCommandString: the HRESULT and the string written to pszName. */
  function GetCommandString(id: DWord, flags: DWord, size: DWord): (r: (int, Option<string>))
    ensures r.0 == S_OK <==> WantsHelpText(flags) && id <= IdMax
    ensures r.0 != S_OK ==> r == (E_INVALIDARG, None)
    ensures r.0 == S_OK ==> (r.1.None? <==> size == 0)
  {
    if !WantsHelpText(flags) || id > IdMax then (E_INVALIDARG, None)
    else
      var text := HelpText(id).value;
      (S_OK, CopyBounded(if WantsUnicode(flags) then UnicodeUnavailable else text, size))
  }

  /** Help text is given for every id up to 10 when GCS_HELPTEXT is set,
      and E_INVALIDARG is returned, with nothing written, otherwise. What
      is written is the command's help text, or with GCS_UNICODE the
      placeholder, whole when the buffer has room for it and its
      terminator, and otherwise its first size - 1 characters. */
  lemma GetCommandStringRules(id: DWord, flags: DWord, size: DWord)
    ensures var (hr, written) := GetCommandString(id, flags, size);
      && (hr == S_OK <==> WantsHelpText(flags) && id <= IdMax)
      && (hr != S_OK ==> hr == E_INVALIDARG && written.None?)
      && (hr == S_OK ==>
            var text := if WantsUnicode(flags) then UnicodeUnavailable else HelpText(id).value;
            && (size == 0 ==> written.None?)
            && (|text| < size ==> written == Some(text))
            && (0 < size <= |text| ==> written == Some(text[..size - 1])))
  {
  }

  // ---------------------------------------------------------------------
  // IContextMenu::InvokeCommand

  /** What a command id does. */
  datatype Action = ShowHelp | RunClient(op: Operation)

  /** The dispatch of InvokeCommand; the popup's own id does nothing. */
  function ActionFor(id: nat): Option<Action>
  {
    if id == IdHelp then Some(ShowHelp)
    else if id == IdDecryptVerify then Some(RunClient(DecryptVerify))
    else if id == IdDecrypt then Some(RunClient(Decrypt))
    else if id == IdVerify then Some(RunClient(Verify))
    else if id == IdSignEncrypt then Some(RunClient(EncryptSign))
    else if id == IdEncrypt then Some(RunClient(Encrypt))
    else if id == IdSign then Some(RunClient(Sign))
    else if id == IdImport then Some(RunClient(Import))
    else if id == IdCreateChecksums then Some(RunClient(CreateChecksums))
    else if id == IdVerifyChecksums then Some(RunClient(VerifyChecksums))
    else None
  }

  /** The menu id of each client operation. */
  function IdOf(op: Operation): (id: nat)
    ensures id <= IdMax
  {
    match op
    case DecryptVerify => IdDecryptVerify
    case Decrypt => IdDecrypt
    case Verify => IdVerify
    case EncryptSign => IdSignEncrypt
    case Encrypt => IdEncrypt
    case Sign => IdSign
    case Import => IdImport
    case CreateChecksums => IdCreateChecksums
    case VerifyChecksums => IdVerifyChecksums
  }

  /** Each id dispatches to one client operation at most and each
      operation has exactly one id. */
  lemma DispatchIsOneToOne(id: nat, op: Operation)
    ensures ActionFor(IdOf(op)) == Some(RunClient(op))
    ensures ActionFor(id) == Some(RunClient(op)) ==> id == IdOf(op)
    ensures ActionFor(id).Some? <==> id < IdPopup
  {
  }

  /** Every command the menus show has an action, and the popup entry
      none. */
  lemma MenuCommandsDispatch(first: nat, allGpg: bool)
    ensures forall it | it in PopupItems(first) && it.Command? :: ActionFor(it.id - first).Some?
    ensures ActionFor(TopItem(allGpg, first).id - first).Some?
    ensures ActionFor(IdPopup).None?
  {
  }

  /** HIWORD and LOWORD of the 32-bit lpVerb. */
  function HighWord(x: DWord): nat
  {
    x / 0x1_0000
  }

  function LowWord(x: DWord): nat
  {
    x % 0x1_0000
  }

  /** What InvokeCommand did: nothing, the help browser, or a client call
      with its result and trace. */
  datatype Invocation = NotRun | HelpShown | Ran(op: Operation, ok: bool, trace: seq<Event>)

  // ---------------------------------------------------------------------
  // The object

  class Extension {
    /** The server component's count, released when the object is
        deleted. */
    const server: Server
    var refcount: int
    var filenames: seq<string>
    var allFilesGpg: bool
    /** Whether the "Key" bitmap loaded. */
    const keyBitmap: bool

    /** gpgex_t: a zero count and one more server reference. The flag is
        left uninitialised by the source and only set by reset. */
    constructor (server: Server, keyBitmap: bool)
      modifies server
      ensures this.server == server && this.keyBitmap == keyBitmap
      ensures refcount == 0 && filenames == []
      ensures server.refcount == old(server.refcount) + 1
    {
      this.server := server;
      this.keyBitmap := keyBitmap;
      refcount := 0;
      filenames := [];
      new;
      var _ := server.AddRef();
    }

    /** reset: no files and the flag set. */
    method Reset()
      modifies this
      ensures filenames == [] && allFilesGpg
      ensures refcount == old(refcount)
    {
      filenames := [];
      allFilesGpg := true;
    }

    /** QueryInterface: IUnknown, IShellExtInit and IContextMenu are
        handed out with a new reference; IContextMenu2 and IContextMenu3
        are not. */
    method QueryInterface(iid: Iid, ppvNull: bool) returns (hr: int, ppv: Option<Iid>)
      modifies this
      ensures ppvNull ==> hr == E_INVALIDARG && ppv == None && refcount == old(refcount)
      ensures !ppvNull && Exposed(iid) ==> hr == S_OK && ppv == Some(iid) && refcount == old(refcount) + 1
      ensures !ppvNull && !Exposed(iid) ==> hr == E_NOINTERFACE && ppv == None && refcount == old(refcount)
      ensures filenames == old(filenames) && allFilesGpg == old(allFilesGpg)
    {
      if ppvNull {
        return E_INVALIDARG, None;
      }
      ppv := None;
      if iid == IUnknown || iid == IShellExtInit || iid == IContextMenu {
        ppv := Some(iid);
      } else {
        return E_NOINTERFACE, ppv;
      }
      var _ := AddRef();
      hr := S_OK;
    }

    /** AddRef: the new count. */
    method AddRef() returns (count: int)
      modifies this
      ensures refcount == old(refcount) + 1 && count == refcount
      ensures filenames == old(filenames) && allFilesGpg == old(allFilesGpg)
    {
      refcount := refcount + 1;
      count := refcount;
    }

    /** Release: the new count; the object is deleted, and its server
        reference dropped, exactly when the count reaches zero. */
    method Release() returns (count: int, deleted: bool)
      modifies this, server
      ensures refcount == old(refcount) - 1 && count == refcount
      ensures deleted <==> count == 0
      ensures server.refcount == old(server.refcount) - (if deleted then 1 else 0)
      ensures filenames == old(filenames) && allFilesGpg == old(allFilesGpg)
    {
      refcount := refcount - 1;
      count := refcount;
      deleted := count == 0;
      if deleted {
        var _ := server.Release();
      }
    }

    /** Initialize: reset, then take the dropped names in order, clearing
        the flag for any name that is not a GnuPG file; a drop without
        names or with an empty name is rejected and the instance reset. */
    method Initialize(data: DataObject) returns (hr: int)
      modifies this
      ensures InitResult(hr, filenames, allFilesGpg) == InitOutcome(data)
      ensures refcount == old(refcount)
    {
      Reset();
      hr := S_OK;
      if data.Drop? {
        var names := data.names;
        if |names| == 0 {
          hr := E_INVALIDARG;
        } else {
          var i := 0;
          while i < |names|
            invariant 0 <= i <= |names|
            invariant hr == S_OK
            invariant filenames == names[..i]
            invariant allFilesGpg == AllGpg(names[..i])
            invariant forall j | 0 <= j < i :: names[j] != []
            invariant refcount == old(refcount)
          {
            var filename := names[i];
            if |filename| == 0 {
              hr := E_INVALIDARG;
              break;
            }
            AllGpgStep(names, i);
            var gpg := ClassifyName(filename);
            if !gpg {
              allFilesGpg := false;
            }
            filenames := filenames + [filename];
            i := i + 1;
          }
          assert hr == S_OK ==> names[..i] == names;
        }
      }
      if hr != S_OK {
        Reset();
      }
    }

    /** InvokeCommand: a string verb or an id without an action is
        rejected; the help id opens the documentation; every other id runs
        its client operation on the initialised files. */
    method InvokeCommand(verb: DWord, caches: Caches, host: Host) returns (hr: int, done: Invocation)
      modifies caches
      ensures HighWord(verb) != 0 || ActionFor(LowWord(verb)).None? ==>
                hr == E_INVALIDARG && done == NotRun
      ensures HighWord(verb) == 0 && ActionFor(LowWord(verb)) == Some(ShowHelp) ==>
                hr == S_OK && done == HelpShown
      ensures done.Ran? <==> HighWord(verb) == 0 && ActionFor(LowWord(verb)).Some? && ActionFor(LowWord(verb)).value.RunClient?
      ensures done.Ran? ==>
                && hr == S_OK
                && ActionFor(LowWord(verb)) == Some(RunClient(done.op))
                && (done.ok, done.trace) == Session(ConnectOutcome(old(caches.socketName), old(caches.cmdline), host),
                                                    Verb(done.op), filenames, host.transactRc)
      ensures done.Ran? ==>
                (caches.socketName, caches.cmdline) == CachesAfterConnect(old(caches.socketName), old(caches.cmdline), host)
      ensures !done.Ran? ==> caches.socketName == old(caches.socketName) && caches.cmdline == old(caches.cmdline)
    {
      if HighWord(verb) != 0 {
        return E_INVALIDARG, NotRun;
      }
      var action := ActionFor(LowWord(verb));
      match action {
        case None =>
          return E_INVALIDARG, NotRun;
        case Some(ShowHelp) =>
          done := HelpShown;
        case Some(RunClient(op)) =>
          var ok, trace := caches.Perform(op, filenames, host);
          done := Ran(op, ok, trace);
      }
      hr := S_OK;
    }

    /** QueryContextMenu. */
    method QueryContextMenu(flags: DWord, first: nat, api: MenuApi)
      returns (hr: int, menu: seq<Item>, popup: seq<Item>)
      ensures MenuResult(hr, menu, popup) == ContextMenu(allFilesGpg, keyBitmap, flags, first, api)
    {
      menu, popup := [], [];
      if DefaultOnly(flags) {
        return 0, menu, popup;
      }
      var err := HResultFromWin32(api.lastError);
      if !api.insertOk(0) {
        return err, menu, popup;
      }
      menu := menu + [Separator];
      if allFilesGpg {
        if !api.insertOk(1) {
          return err, menu, popup;
        }
        menu := menu + [Command(first + IdDecryptVerify)];
      } else {
        if !api.insertOk(1) {
          return err, menu, popup;
        }
        menu := menu + [Command(first + IdSignEncrypt)];
      }
      if !api.popupOk {
        return err, menu, popup;
      }
      if !api.insertOk(2) {
        // The popup is destroyed again.
        return err, menu, popup;
      }
      menu := menu + [Submenu(first + IdPopup)];
      var res := true;
      if keyBitmap {
        res := api.bitmapOk;
      }
      if res {
        res := api.insertOk(3);
        if res {
          menu := menu + [Separator];
        }
      }
      if !res {
        return err, menu, popup;
      }
      res, popup := FillPopup(api.insertOk, first);
      if !res {
        return err, menu, popup;
      }
      hr := IdMax + 1;
    }
  }

  /** The interfaces the extension object hands out. */
  predicate Exposed(iid: Iid)
  {
    iid == IUnknown || iid == IShellExtInit || iid == IContextMenu
  }

  /** The chain of popup insertions, each made only while the earlier
      ones succeeded; they are the insertions numbered 4 to 14. */
  method FillPopup(ok: nat -> bool, first: nat) returns (res: bool, popup: seq<Item>)
    ensures res == (Run(ok, 4, 11) == 11)
    ensures popup == PopupItems(first)[..Run(ok, 4, 11)]
  {
    res, popup := true, [];
    res, popup := InsertIf(ok, first, 0, Command(first + IdDecrypt), res, popup);
    res, popup := InsertIf(ok, first, 1, Command(first + IdVerify), res, popup);
    res, popup := InsertIf(ok, first, 2, Command(first + IdDecryptVerify), res, popup);
    res, popup := InsertIf(ok, first, 3, Command(first + IdEncrypt), res, popup);
    res, popup := InsertIf(ok, first, 4, Command(first + IdSign), res, popup);
    res, popup := InsertIf(ok, first, 5, Command(first + IdSignEncrypt), res, popup);
    res, popup := InsertIf(ok, first, 6, Command(first + IdImport), res, popup);
    res, popup := InsertIf(ok, first, 7, Command(first + IdCreateChecksums), res, popup);
    res, popup := InsertIf(ok, first, 8, Command(first + IdVerifyChecksums), res, popup);
    res, popup := InsertIf(ok, first, 9, Separator, res, popup);
    res, popup := InsertIf(ok, first, 10, Command(first + IdHelp), res, popup);
  }

  /** One `if (res) res = InsertMenu (popup, idx++, ...)` step: the k-th
      popup insertion, made only while all earlier ones succeeded. */
  method InsertIf(ok: nat -> bool, first: nat, k: nat, item: Item, res: bool, popup: seq<Item>)
    returns (res': bool, popup': seq<Item>)
    requires k < 11 && item == PopupItem(first, k)
    requires res == (Run(ok, 4, k) == k)
    requires popup == PopupItems(first)[..Run(ok, 4, k)]
    ensures res' == (Run(ok, 4, k + 1) == k + 1)
    ensures popup' == PopupItems(first)[..Run(ok, 4, k + 1)]
  {
    RunStep(ok, 4, k);
    res', popup' := res, popup;
    if res {
      res' := ok(4 + k);
      if res' {
        popup' := popup + [item];
      }
    }
  }
}
