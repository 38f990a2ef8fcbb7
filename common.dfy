/** Values shared by the whole model of GpgEX: an optional value (a C
    pointer that may be NULL), the HRESULT codes of the COM entry points,
    the interface identifiers they are asked for, and C-string helpers.

    Throughout the model a `string` stands for the bytes of a C string
    before its terminating NUL; one `char` stands for one byte. */
module Common {

  datatype Option<+T> = None | Some(value: T)
  {
    function GetOr(default: T): T
    {
      match this
      case Some(v) => v
      case None => default
    }
  }

  /** A 32-bit unsigned Win32 quantity (DWORD, UINT). */
  type DWord = x: int | 0 <= x < 0x1_0000_0000

  // HRESULT values, written as their unsigned 32-bit patterns.
  const S_OK: int := 0
  const S_FALSE: int := 1
  const E_NOINTERFACE: int := 0x8000_4002
  const E_OUTOFMEMORY: int := 0x8007_000E
  const E_INVALIDARG: int := 0x8007_0057
  const CLASS_E_NOAGGREGATION: int := 0x8004_0110
  const CLASS_E_CLASSNOTAVAILABLE: int := 0x8004_0111

  /** FAILED(hr): the severity bit of the HRESULT is set. */
  predicate Failed(hr: int)
  {
    hr >= 0x8000_0000
  }

  /** HRESULT_FROM_WIN32 applied to the value of GetLastError(). A zero
      error code maps to S_OK; codes that already look like an HRESULT
      pass through; others get the Win32 facility and the failure bit. */
  function HResultFromWin32(e: DWord): (hr: int)
    ensures Failed(hr) <==> e != 0
    ensures e < 0x8000_0000 && e != 0 ==> hr % 0x1_0000 == e % 0x1_0000
  {
    if e == 0 || e >= 0x8000_0000 then e else 0x8007_0000 + e % 0x1_0000
  }

  /** The COM interface identifiers the server is asked for. */
  datatype Iid = IUnknown | IShellExtInit | IContextMenu | IContextMenu2
               | IContextMenu3 | IClassFactory | OtherIid(guid: nat)

  /** The C string stored in a buffer holding `s`: everything before the
      first NUL, or all of `s` when the buffer's terminator is appended
      after it. */
  function CStr(s: string): (r: string)
    ensures |r| <= |s| && r == s[..|r|]
    ensures '\0' !in r
    ensures |r| < |s| ==> s[|r|] == '\0'
  {
    if s == [] then []
    else if s[0] == '\0' then []
    else [s[0]] + CStr(s[1..])
  }
}
