# GpgEX, modelled in Dafny

GpgEX is a Windows Explorer shell extension. It adds a GnuPG context
menu to selected files and hands the chosen operation over Assuan to a
UI server (Kleopatra). This project models GpgEX's decision and string
logic and proves what that logic promises:

- **Assuan client** (`client.dfy`, `escape.dfy`, `dollar.dfy`):
  - the percent-escaping of file names, with its length law and its
    round trip;
  - the two-pass `$s` template expander, whose first pass measures
    exactly what the second pass writes;
  - the cached socket name and UI server command line;
  - the connect / spawn / retry policy of `uiserver_connect`;
  - the request transcript of `call_assuan`: `FILE` lines in order, then
    `<VERB> --nohup`, a stop at the first error, one disconnect, and a
    message exactly on failure.
- **Registry lookup** (`registry.dfy`): the root-name mapping, the
  HKCU → HKLM fallback for a NULL root, the REG_EXPAND_SZ step, and the
  balanced opening and closing of key handles. The registry is a map.
  Environment expansion and allocation success are parameters.
- **Shell extension** (`shellext.dfy`, `server.dfy`):
  - `Initialize` classifies the selection by the text after the last dot;
  - `QueryContextMenu` inserts items in a fixed order and stops at the
    first failed insertion;
  - `GetCommandString` and `InvokeCommand` validate and dispatch ids;
  - the COM reference counts of the object and of the server component.
- **Class factory** (`factory.dfy`): `QueryInterface`, `CreateInstance`
  (which deletes the object on failure) and `LockServer`.
- **Bitmaps** (`bitmaps.dfy`): the size choice and the resource name of
  src/bitmaps.cc.
- **DLL helpers** (`dll.dfy`): the locale directory, the debug log's
  set-up, filter and newline rule, `DllCanUnloadNow` and
  `DllGetClassObject`.

State the C++ code updates in place is modelled by classes with
`modifies` clauses:

- `Client.Caches` holds the two static string caches.
- `ShellExtension.Extension` holds the COM object's fields.
- `ServerRef.Server` holds the component's global reference count.
- `BitmapRes.Bitmaps` holds the static size.
- `Dll.DebugLog` holds the debug globals.

Loops become methods with invariants, proved against specification
functions: `Escaped`, `Expanded`, `RetryTrace`, `Transcript`,
`ContextMenu`, `Choose` and `Lookup`.

Things outside the program are parameters of the model:

- the Assuan library: connect and transaction results, indexed by
  attempt;
- process spawning: a result per command line;
- the home directory;
- `malloc` success;
- menu API success, per insertion call;
- `fopen` success.

## Model

| member | source | states |
|---|---|---|
| Common.HResultFromWin32 | src/gpgex.cc:372-373 | HRESULT_FROM_WIN32 is a failure code exactly for a non-zero Win32 error, and keeps the error number in its low word |
| Common.CStr | src/registry.c:135 | the C string in a buffer is its prefix up to the first NUL, which it does not contain |
| PercentEscape.HexDigit | src/client.cc:184 | tohex_lower gives a lowercase hex digit that reads back to its value and is neither `%` nor in the extra set |
| PercentEscape.EscapedLength | src/client.cc:199-201 | the escaped string is the input length plus two per escaped character (the allocation size) |
| PercentEscape.EscapedUnchanged | src/client.cc:203-229 | escaping leaves a string unchanged exactly when none of its characters needs escaping |
| PercentEscape.CountZero | src/client.cc:199-201 | the first pass counts nothing exactly when no character is `:`, `%` or in the extra set |
| PercentEscape.NoEscapeIdentity | src/client.cc:226-227 | a string without `:`, `%` or extra characters is copied unchanged |
| PercentEscape.UnescapeChar | src/client.cc:206-227 | decoding the output for one character (`%3a`, `%25`, `%XX` or the character itself) recovers that character |
| PercentEscape.RoundTrip | src/client.cc:203-229 | decoding every `%XX` triple of the escaped string recovers the input: escaping is injective |
| PercentEscape.EscapedHasNoSpace | src/client.cc:239 | with the extra set `"+= "` the escaped name contains no space, so it is a single Assuan argument |
| PercentEscape.EscapedStep | src/client.cc:203-229 | one character of the conversion loop extends the output by that character's escape |
| PercentEscape.PutEscaped | src/client.cc:206-228 | writing one character's escape at index i extends the buffer by it and advances i by its length |
| PercentEscape.PercentEscapeInto | src/client.cc:191-233 | percent_escape's two passes produce exactly the escaped string |
| PercentEscape.Escape | src/client.cc:237-248 | escape gives the escaped string with extra `"+= "`, which decodes back to the file name and has the predicted length |
| DollarTemplate.SizeMatches | src/client.cc:77-100 | the first pass's count equals the length of the expansion the second pass writes |
| DollarTemplate.StepAt | src/client.cc:104-130 | one loop step: an ordinary character is copied, `$s` becomes the quoted socket, `$c` becomes `c`, a trailing `$` ends the string |
| DollarTemplate.ExpandStep | src/client.cc:104-130 | the same step stated on the output written so far |
| DollarTemplate.Quoted | src/client.cc:64-66 | builds the `$`-doubled template of a text, which ExpandQuotedPrefix proves expands back to that text; doubling never shortens it |
| DollarTemplate.ExpandQuotedPrefix | src/client.cc:120-124 | `$$` expands to `$`, so a `$`-doubled text expands back to itself |
| DollarTemplate.NoDollarQuoted | src/client.cc:64-66 | text without `$` needs no quoting |
| DollarTemplate.ExpandNoDollarPrefix | src/client.cc:125-127 | characters other than `$` are copied through |
| DollarTemplate.SocketExpands | src/client.cc:112-119 | `$s` expands to the socket name between double quotes |
| DollarTemplate.LiteralThenSocket | src/client.cc:104-130 | a `$`-free text followed by `$s` expands to that text and the quoted socket |
| DollarTemplate.Put | src/client.cc:125-127 | writing one character through dst extends the output by it |
| DollarTemplate.CopyAt | src/client.cc:116 | the memcpy of the socket name appends it at the write position |
| DollarTemplate.PutQuoted | src/client.cc:114-118 | the quote, socket name and quote are appended at the write position |
| DollarTemplate.MeasureTemplate | src/client.cc:77-100 | the first pass returns the expansion's length plus one for the terminator |
| DollarTemplate.WriteExpansion | src/client.cc:104-130 | the second pass writes exactly the expansion followed by NUL into the measured buffer, without overrun |
| DollarTemplate.ReplaceDollarS | src/client.cc:68-133 | replace_dollar_s returns the expansion, or NULL when the buffer cannot be allocated |
| W32Registry.GetRootKey | src/registry.c:70-92 | NULL maps to HKCU; a name maps to the root it names; any other name gives NULL |
| W32Registry.RootKeyNameInverse | src/registry.c:77-88 | each of the six root names maps back to its own root |
| W32Registry.ExpandValue | src/registry.c:136-173 | the REG_EXPAND_SZ step gives the expansion when it fits the size + 1000 buffer, else the expansion into the buffer resized to the reported length when that one fits, and the unexpanded value in every other case (corrected for the finding below) |
| W32Registry.ExpandValueAsWritten | src/registry.c:143-158 | as written, the step can also give the empty string |
| W32Registry.AsWrittenLosesValue | src/registry.c:150-157 | a failing second expansion replaces the value by an empty string, which is neither the value nor an expansion, while the intended step keeps the value |
| W32Registry.AsWrittenAgreesOtherwise | src/registry.c:143-172 | in every other case the code as written and the corrected step agree |
| W32Registry.ValueString | src/registry.c:135-136 | a value that is not REG_EXPAND_SZ, or that contains no `%`, is returned as the C string stored |
| W32Registry.BalancedPair | src/registry.c:122 | a key closed right after it was opened leaves the handle log balanced |
| W32Registry.ExpandString | src/registry.c:136-173 | the expansion code computes the corrected REG_EXPAND_SZ step |
| W32Registry.ReadRegistryString | src/registry.c:98-178 | read_w32_registry_string returns the lookup policy's answer; every key it opens is closed exactly once, an unknown root opens nothing, and an explicit root touches only that root |
| W32Registry.UnknownRootFindsNothing | src/registry.c:105-106 | an unknown root name returns NULL |
| W32Registry.ExplicitRootNoFallback | src/registry.c:108-120 | with an explicit root, a missing key or value gives NULL with no HKLM fallback |
| W32Registry.NullRootPrefersCurrentUser | src/registry.c:108-118 | with a NULL root, a value present under HKCU is read from HKCU |
| W32Registry.NullRootFallsBack | src/registry.c:112-126 | with a NULL root, a missing HKCU key or value falls back to HKLM |
| W32Registry.LookupResult | src/registry.c:128-173 | a found value other than REG_EXPAND_SZ with `%` is returned NUL-terminated and unchanged; one with `%` is replaced by the first or the resized expansion when that fits, and kept otherwise |
| W32Registry.Lookup | src/registry.c:99-178 | the answer is NULL exactly when no value is found under the lookup policy or its buffer cannot be allocated; a found non-REG_EXPAND_SZ value is returned as its NUL-terminated string |
| Client.SocketNameAfter | src/client.cc:44-61 | the socket-name cache keeps a non-empty name; it stays empty only without a home directory; otherwise it becomes homedir + `\S.uiserver` |
| Client.DefaultTemplateExpands | src/client.cc:146-150 | the default template expands to `bin\kleopatra.exe --uiserver-socket "<socket>"` |
| Client.DefaultCmdlineRunsKleopatra | src/client.cc:137-183 | without a "UI Server" value the command line is installdir + `\` + the expanded default |
| Client.CustomCmdlineVerbatim | src/client.cc:144-172 | a configured UI server without `$` is used verbatim after installdir + `\` |
| Client.RetryTraceShape | src/client.cc:280-286 | the retry loop makes at most 10 connects numbered in order; all but the last fail; a failing last one means all 10 were used |
| Client.RetryTraceNumbered | src/client.cc:280-286 | the attempts after `done` are numbered consecutively from done + 1, each logged with its own result, and never past 10 |
| Client.RetryTraceFailsBeforeLast | src/client.cc:280-286 | every attempt before the last logged one failed |
| Client.RetriesSucceededIff | src/client.cc:280-286 | the retries end in success exactly when one of the logged attempts succeeded, and every logged event is a connect |
| Client.RetryTraceEnds | src/client.cc:280-286 | at least one attempt is made, and a failure after the loop means all 10 were used |
| Client.SpawnOnceAfterFailedConnect | src/client.cc:265-286 | spawning happens at most once, only after the first connect failed, and only connects follow it |
| Client.SpawnErrorReturned | src/client.cc:274-276 | a spawn error is returned at once, with no further connect |
| Client.SpawnThenRetries | src/client.cc:265-286 | after a failed first connect and a successful spawn the trace is connect, spawn, then the retries, and the result is the last retry's |
| Client.PrefixedRetries | src/client.cc:265-286 | a failed connect and a spawn in front of the retries do not change whether some attempt succeeded |
| Client.ConnectedIffSomeAttemptSucceeded | src/client.cc:252-289 | uiserver_connect returns 0 exactly when some connect attempt succeeded |
| Client.RetryConnect | src/client.cc:280-286 | the retry loop performs exactly the specified attempts and returns the last result |
| Client.RetryStep | src/client.cc:280-286 | one iteration extends the trace by one connect and stops exactly on success |
| Client.Request | src/client.cc:307-323 | the request is one `FILE <escaped name>` line per file, in order, then `<verb> --nohup` |
| Client.FileLineDecodes | src/client.cc:311 | a FILE line carries one space-free argument that decodes back to the file name |
| Client.TranscriptBounded | src/client.cc:307-326 | no more lines are sent than the request has |
| Client.TranscriptNumbered | src/client.cc:307-326 | the i-th send carries the i-th request line and that transaction's result |
| Client.TranscriptSucceedsBeforeLast | src/client.cc:309-319 | every transaction before the last one sent succeeded |
| Client.TranscriptEnds | src/client.cc:307-326 | a request with lines sends at least one, and a successful last send means every line was sent |
| Client.TranscriptShape | src/client.cc:307-326 | lines are sent in order; all sends before the last succeeded; a successful last send means all lines were sent |
| Client.SendRequest | src/client.cc:307-326 | the send loop sends exactly the specified transcript and returns the last result |
| Client.TranscriptStep | src/client.cc:313-318 | one transaction extends the transcript and stops exactly on failure |
| Client.SessionTrace | src/client.cc:293-351 | after a successful connect: connect trace, sends, one disconnect, and a message exactly when a send failed; success iff the last send succeeded |
| Client.SessionLayout | src/client.cc:293-351 | where in the call_assuan trace the connect part, sends, disconnect and message sit |
| Client.Concat3 | src/client.cc:338-347 | positions in the concatenated trace map back to their parts |
| Client.TraceLayout | src/client.cc:338-347 | in connect + sends + disconnect + message, each position holds the part it should: the sends carry the request lines in order, one disconnect follows them and only messages come after |
| Client.SessionAfterFailedConnect | src/client.cc:302-304 | a failed connect sends nothing, does not disconnect, shows the message and returns false |
| Client.SessionDisconnectsOnce | src/client.cc:340-341 | a connected session disconnects exactly once |
| Client.SingleIndex | src/client.cc:340-341 | a trace with a disconnect at one position and none elsewhere has exactly one disconnect |
| Client.SessionSendsRequest | src/client.cc:307-326 | every line sent is the request line of its position: the files in list order, then the verb |
| Client.SessionOkIffNoMessage | src/client.cc:342-350 | call_assuan returns true exactly when no message is shown |
| Client.Verb | src/client.cc:352-414 | the nine wrappers' verbs (DECRYPT_VERIFY_FILES, VERIFY_FILES, DECRYPT_FILES, ENCRYPT_SIGN_FILES, ENCRYPT_FILES, SIGN_FILES, IMPORT_FILES, CHECKSUM_CREATE_FILES, CHECKSUM_VERIFY_FILES), each a single non-empty Assuan command word of capitals and underscores |
| Client.VerbInjective | src/client.cc:355-414 | each wrapper passes its own verb: different operations send different verbs |
| Client.Caches.constructor | src/client.cc:46 | both caches start empty |
| Client.Caches.DefaultSocketName | src/client.cc:44-61 | default_socket_name updates its cache as specified and returns it |
| Client.CachesAfterCmdline | src/client.cc:137-183 | after default_uiserver_cmdline a filled command-line cache leaves both caches as they were; an empty one is filled with the composed line when there is one and stays empty otherwise; a filled socket cache is kept |
| Client.CachesAfterConnect | src/client.cc:252-289 | after uiserver_connect the socket cache is default_socket_name's; the command-line cache changes only when it was empty, the socket name is known and the first connect failed, and then it holds the composed line |
| Client.FilledCachesStay | src/client.cc:137-183 | once both caches are filled, a connect leaves them unchanged and spawns the cached command line |
| Client.CachesOnlyFill | src/client.cc:44-61 | a connect never empties a cache, and a filled cache keeps its value |
| Client.Caches.DefaultUiServerCmdline | src/client.cc:137-183 | default_uiserver_cmdline returns the cached or composed command line and leaves the caches as CachesAfterCmdline states |
| Client.ConnectOutcome | src/client.cc:252-289 | uiserver_connect's events are empty exactly when there is no socket name, and then the result is GPG_ERR_INV_ARG; otherwise they start with the first connect, the result is the last event's, and a first connect that succeeds is the whole trace |
| Client.ConnectOutcomeEvents | src/client.cc:252-289 | uiserver_connect only connects and spawns: every event is a Connect or a Spawn |
| Client.Caches.UiServerConnect | src/client.cc:252-289 | uiserver_connect yields ConnectOutcome's result and events and leaves the caches as CachesAfterConnect states |
| Client.Session | src/client.cc:293-351 | call_assuan's trace extends the connect trace; success needs a successful connect and ends with a disconnect; failure ends with a message of a non-zero code; a failed connect adds only its message |
| Client.CallAssuanRules | src/client.cc:293-351 | for the actual connect outcome, call_assuan succeeds exactly when no message is shown; a connected session disconnects exactly once; a failed connect sends nothing and does not disconnect |
| Client.Caches.CallAssuan | src/client.cc:293-351 | call_assuan yields Session's result and trace and leaves the caches as CachesAfterConnect states |
| Client.Caches.Perform | src/client.cc:355-414 | each wrapper runs call_assuan with its verb and leaves the caches as CachesAfterConnect states |
| ShellExtension.LastDot | src/gpgex.cc:197-199 | strrchr finds the last dot: a dot with none after it, or none at all |
| ShellExtension.LastDotOfSplit | src/gpgex.cc:197-199 | for stem + "." + a dot-free ending, the last dot is the one before the ending |
| ShellExtension.LastDotIsUnique | src/gpgex.cc:197-199 | a dot with no dot after it is the one strrchr finds |
| ShellExtension.IsGpgNameIff | src/gpgex.cc:197-217 | a name counts as GnuPG data exactly when it has a dot and the text after the last one is one of the seven endings, ignoring case |
| ShellExtension.EndingChain | src/gpgex.cc:200-211 | the chain of seven case-insensitive comparisons accepts exactly the GnuPG endings |
| ShellExtension.ClassifyName | src/gpgex.cc:196-217 | the per-file test yields exactly whether the name is GnuPG data |
| ShellExtension.AllGpgStep | src/gpgex.cc:187-217 | after one more file, all files are GnuPG data exactly when they were before and the new one is |
| ShellExtension.NoDotNotGpg | src/gpgex.cc:199-217 | a name without a dot is not GnuPG data |
| ShellExtension.UpperCaseEndingCounts | src/gpgex.cc:200-214 | the ending comparison ignores case ("report.GPG") |
| ShellExtension.OnlyLastEndingCounts | src/gpgex.cc:197-217 | only the text after the last dot counts ("notes.gpg.txt") |
| ShellExtension.InitializeRejects | src/gpgex.cc:163-194 | no data object gives S_OK with an empty list; zero files or an empty name give E_INVALIDARG with the reset state |
| ShellExtension.InitializeClassifies | src/gpgex.cc:187-220 | a valid drop stores the names in order, and all_files_gpg holds only if each name is GnuPG data; a dot-free name forces FALSE |
| ShellExtension.PopupItem | src/gpgex.cc:335-373 | every popup item is a command with an id in [idCmdFirst, idCmdFirst + 10], or a separator |
| ShellExtension.PopupItems | src/gpgex.cc:335-373 | the popup has eleven items in the fixed order |
| ShellExtension.Run | src/gpgex.cc:335-373 | the number of insertions made is at most the number attempted |
| ShellExtension.RunStep | src/gpgex.cc:335-373 | one more `if (res)` insertion extends the run only if all before it succeeded |
| ShellExtension.RunIsLeadingSuccesses | src/gpgex.cc:335-373 | the insertions made are exactly the leading successes: the one after them failed |
| ShellExtension.DefaultOnlyInsertsNothing | src/gpgex.cc:274-275 | with CMF_DEFAULTONLY nothing is inserted and offset 0 is returned |
| ShellExtension.FullMenu | src/gpgex.cc:277-379 | when every call succeeds: separator, top item (Decrypt-and-verify if all files are GnuPG data, else Sign-and-encrypt), popup, separator; eleven popup items; result 11 |
| ShellExtension.MenuStopsAtFirstFailure | src/gpgex.cc:277-373 | a failed insertion stops the menu, returns the Win32 error as HRESULT, and every inserted id lies in [idCmdFirst, idCmdFirst + 10] |
| ShellExtension.HelpText | src/gpgex.cc:400-454 | a help text exists exactly for ids up to 10 |
| ShellExtension.CopyBounded | src/gpgex.cc:456-463 | lstrcpyn copies nothing for size 0, the whole text when it fits, and exactly its first size - 1 characters otherwise |
| ShellExtension.GetCommandString | src/gpgex.cc:390-466 | S_OK exactly when GCS_HELPTEXT is set and id <= 10, with nothing written for size 0; every other request gives E_INVALIDARG and writes nothing |
| ShellExtension.GetCommandStringRules | src/gpgex.cc:390-466 | E_INVALIDARG unless GCS_HELPTEXT is set and id <= 10; otherwise S_OK, writing for GCS_UNICODE the placeholder and else the help text: all of it when it fits, exactly size - 1 characters when it does not, nothing for size 0 |
| ShellExtension.IdOf | src/gpgex.cc:45-56 | every client operation has a menu id up to ID_CMD_MAX |
| ShellExtension.DispatchIsOneToOne | src/gpgex.cc:571-616 | each id below the popup id dispatches to exactly one client operation, and each operation has exactly one id |
| ShellExtension.MenuCommandsDispatch | src/gpgex.cc:335-373 | every command in the menu dispatches to an action, and the popup's own id does not |
| ShellExtension.Extension.constructor | src/gpgex.h:110-120 | a new object has count 0 and no files, and takes a server reference |
| ShellExtension.Extension.Reset | src/gpgex.cc:71-76 | reset empties the file list and sets all_files_gpg |
| ShellExtension.Extension.QueryInterface | src/gpgex.cc:79-119 | NULL ppv gives E_INVALIDARG; IUnknown, IShellExtInit and IContextMenu give S_OK with one more reference; others give E_NOINTERFACE and a NULL *ppv |
| ShellExtension.Extension.AddRef | src/gpgex.cc:122-129 | AddRef increments the count and returns the new count |
| ShellExtension.Extension.Release | src/gpgex.cc:132-145 | Release decrements the count, returns it, and deletes the object (giving back the server reference) exactly when it reaches 0; the file list and all_files_gpg are unchanged |
| ShellExtension.InitOutcome | src/gpgex.cc:151-252 | Initialize returns S_OK or E_INVALIDARG, E_INVALIDARG exactly for a drop with an unacceptable name; without a successful drop the list is empty and all_files_gpg is set; after one the list is the dropped names and all_files_gpg holds exactly when every name is GnuPG data |
| ShellExtension.Extension.Initialize | src/gpgex.cc:150-252 | Initialize's loop leaves the result, file list and classification that InitOutcome specifies |
| ShellExtension.Extension.InvokeCommand | src/gpgex.cc:556-619 | string verbs and unknown ids give E_INVALIDARG and run nothing; the help id shows help; every other id runs exactly its client operation and leaves the caches as CachesAfterConnect states |
| ShellExtension.ContextMenu | src/gpgex.cc:261-380 | CMF_DEFAULTONLY gives S_OK and inserts nothing; otherwise the menu is empty exactly when the first insertion fails and reaches two items exactly when the first two succeed; the items in order are a separator, the top item (Decrypt-and-verify if all files are GnuPG data, else Sign-and-encrypt), the popup entry and a separator, whatever later call fails; at most four menu and eleven popup items, and a non-empty popup means all four menu items |
| ShellExtension.Extension.QueryContextMenu | src/gpgex.cc:260-380 | the insertion sequence produces exactly the specified menu, popup and result |
| ShellExtension.FillPopup | src/gpgex.cc:335-373 | the chain of `if (res)` insertions inserts the leading successful popup items in order |
| ShellExtension.InsertIf | src/gpgex.cc:335-373 | one guarded insertion keeps the popup equal to the leading successful items |
| ServerRef.Server.constructor | src/main.cc:45 | the server count starts at zero |
| ServerRef.Server.AddRef | src/main.h:60-65 | add_ref increments the count and returns the new count |
| ServerRef.Server.Release | src/main.h:67-72 | release decrements the count and returns the new count |
| ClassFactory.FactoryQueryRules | src/gpgex-factory.cc:35-59 | NULL ppv gives E_INVALIDARG; only IUnknown and IClassFactory give S_OK; otherwise *ppv is NULL and the result is a failure |
| ClassFactory.Factory.AddRef | src/gpgex-factory.cc:62-68 | the factory's AddRef returns 1 and changes nothing |
| ClassFactory.Factory.Release | src/gpgex-factory.cc:71-77 | the factory's Release returns 1 and changes nothing |
| ClassFactory.Factory.QueryInterface | src/gpgex-factory.cc:35-59 | the factory's QueryInterface follows the rules above |
| ClassFactory.Factory.CreateInstance | src/gpgex-factory.cc:82-104 | an outer object gives CLASS_E_NOAGGREGATION and a failed allocation E_OUTOFMEMORY; an unsupported interface deletes the new object, so the server count is back where it was; success gives a fresh object with one reference |
| ClassFactory.Factory.LockServer | src/gpgex-factory.cc:107-118 | TRUE takes a server reference and FALSE gives one back, so a lock/unlock pair leaves the count unchanged |
| BitmapRes.MaxSize | src/bitmaps.cc:60 | max_size is the smaller of width and height |
| BitmapRes.ChooseLargestFitting | src/bitmaps.cc:62-67 | for ascending sizes the scan ends on the largest size that fits, which is one of the sizes, or keeps the prior size when none fits |
| BitmapRes.AvailableSizeChoice | src/bitmaps.cc:41 | with sizes 12 and 16: 16 from 16 pixels up, 12 from 12 to 15, the prior size below 12 |
| BitmapRes.Digits | src/bitmaps.cc:81 | the decimal form of a number is a non-empty string of digits |
| BitmapRes.DigitsRoundTrip | src/bitmaps.cc:81 | the decimal digits read back to the number |
| BitmapRes.ResourceNameParts | src/bitmaps.cc:81 | the resource name is the name, a dash, and the size's decimal digits |
| BitmapRes.Bitmaps.constructor | src/bitmaps.cc:48-72 | the constructor chooses the size from the check-mark metrics, starting from 0 |
| BitmapRes.Bitmaps.SelectSize | src/bitmaps.cc:62-67 | the scan loop sets the size the specification's scan chooses |
| BitmapRes.Bitmaps.LoadBitmap | src/bitmaps.cc:76-93 | load_bitmap asks for the resource `name-size` |
| Dll.LocaleDir | src/main.cc:48-76 | the locale directory is the install directory followed by `\share\locale`; it is NULL exactly without an install directory or memory |
| Dll.GetLocaleDir | src/main.cc:48-76 | the two strcpy calls build exactly that directory |
| Dll.DebugOutput | src/main.cc:164-185 | nothing is written unless the message's flags meet the enabled ones; otherwise the text, with one newline added exactly when the format is non-empty and does not end in one |
| Dll.PlainMessageIsOneLine | src/main.cc:179-180 | an enabled message without conversions always ends in a newline |
| Dll.DebugLog.constructor | src/main.cc:113-115 | the log starts closed with no flags |
| Dll.DebugLog.Init | src/main.cc:127-149 | debug_init does nothing when the file is open; the flags become INIT, CONTEXT_MENU and ASSUAN only when the file opens |
| Dll.DebugLog.Deinit | src/main.cc:152-160 | debug_deinit closes and forgets the file, so a second call changes nothing |
| Dll.DebugLog.Debug | src/main.cc:164-185 | _gpgex_debug appends the specified output and restores errno |
| Dll.DllCanUnloadNow | src/main.cc:233-238 | S_OK exactly when the server count is 0, S_FALSE otherwise |
| Dll.DllGetClassObject | src/main.cc:273-292 | GpgEX's class id is forwarded to the factory's QueryInterface; any other gives CLASS_E_CLASSNOTAVAILABLE and a NULL *ppv |

## Left out

- Assuan, process creation and the home directory are foreign code. Their
  results are parameters: `Host.connectRc`, `spawnRc`, `transactRc` and
  `homedir`.
- `Sleep(1000)` between connect attempts is timing only. The model keeps
  just the attempt count.
- The `chdir` into the install directory (src/client.cc:172-173) is a
  process-wide side effect and is not modelled.
- The spawn lock is not modelled. It is declared in src/exechelp.h and
  never called.
- `MessageBox` is modelled as a `Message(rc)` event. Its text is not.
- The `bad_alloc` and other exceptions in call_assuan are not modelled.
  `escape` is total because allocation failure is not modelled for it.
- PercentEscape.PercentEscapeInto: the unchecked `malloc` in
  percent_escape is not modelled. The buffer is assumed to exist.
- `InterlockedIncrement` and `InterlockedDecrement` are modelled as plain
  sequential updates. Concurrency is not modelled.
- ShellExtension.Extension.Initialize:
  - `bad_alloc` (E_OUTOFMEMORY) and other exceptions (E_UNEXPECTED) from
    `push_back` are not modelled;
  - the data object and `DragQueryFile` are modelled as a list of
    already-complete names, so length truncation is not modelled;
  - the `GlobalLock` / `GlobalUnlock` / `ReleaseStgMedium` calls are not
    modelled.
- ShellExtension.Extension.constructor: the source leaves
  `all_files_gpg` uninitialised, so the contract says nothing about it.
  The flag is set by `Initialize`, through reset.
- Real `HMENU` handles, `CreatePopupMenu`, `SetMenuItemBitmaps` and
  `GetLastError` are outcome parameters (`MenuApi`).
- Menu texts go through gettext and are not modelled. Items carry only
  their ids.
- `start_help` (browser automation through COM) is not modelled. The help
  command is modelled only as the `HelpShown` outcome.
- ShellExtension.GetCommandStringRules: the Unicode placeholder is modelled
  as a character string. Wide-character conversion is not modelled.
- `LoadBitmap`, `GetSystemMetrics` and the bitmap handle are not modelled.
  The check-mark width and height are parameters.
- `ExpandEnvironmentStrings` is a parameter of the model. The registry is
  a map.
- W32Registry.ReadRegistryString: the second `RegQueryValueEx`, which
  reads the data after sizing it, is taken to succeed and to return the
  stored value. Its failure path, which returns NULL, is not modelled.
- PercentEscape.Escaped and DollarTemplate.Expanded: the strings are taken
  to hold no NUL character. The C loops stop at the first NUL, while the
  model's strings have no terminator, so an embedded NUL is not modelled.
- Dll.DebugLog.Deinit: debug_deinit (src/main.cc:153-160) closes the file
  but leaves the debug flags set, so a later `_gpgex_debug` would pass a
  NULL file to `vfprintf`. The model's Debug records the text instead, and
  this crash is not modelled.
- Dll.DllGetClassObject: requires a non-NULL ppv for other class ids,
  because the source stores NULL through ppv there without a check.
- Dll.DebugLog.Debug: the `vfprintf` formatting is a parameter, the
  formatted text. The critical section, `fflush` and file errors are not
  modelled.
- `DllMain`, `WSAStartup`, gettext initialisation, the trace macros of
  src/debug.h, registration (src/gpgex-class.cc), `DllRegisterServer` and
  `DllUnregisterServer` are initialisation or registry I/O, and are not
  modelled.
- The sources disagree in two places:
  - src/gpgex.h:36-40 defines the command ids with `ID_CMD_MAX 3`, while
    src/gpgex.cc:45-56 redefines them with `ID_CMD_MAX 10`. The model
    uses the gpgex.cc values.
  - src/gpgex.cc:590 calls `client.sign_encrypt`, which src/client.cc
    does not define. The model dispatches that id to `encrypt_sign`,
    whose verb is `ENCRYPT_SIGN_FILES`.

## Findings

| source | as written | input that shows it | evidently intended | confidence | as-written member | corrected member |
|---|---|---|---|---|---|---|
| src/registry.c:150-157 | after resizing, a second `ExpandEnvironmentStrings` that returns 0 (an error) passes the truncation check. `tmp[0]` is set to NUL and the empty string replaces the value. | a REG_EXPAND_SZ value containing `%` whose first expansion needs more than size + 1000 bytes and whose second expansion fails | an expansion error keeps the unexpanded value, as the first expansion's error branch does (lines 170-172) | not executed | W32Registry.AsWrittenLosesValue | W32Registry.ExpandValue |
