/** The reference count of the whole server component (gpgex_server in
    src/main.h): every live COM object and every LockServer(TRUE) holds
    one reference, and the DLL may be unloaded only when none is held.
    The interlocked updates are modelled as plain sequential ones. */
module ServerRef {

  class Server {
    /** gpgex_server::refcount, a static LONG that starts at zero. */
    var refcount: int

    constructor ()
      ensures refcount == 0
    {
      refcount := 0;
    }

    /** add_ref: one more reference; the new count is returned. */
    method AddRef() returns (count: int)
      modifies this
      ensures refcount == old(refcount) + 1
      ensures count == refcount
    {
      refcount := refcount + 1;
      count := refcount;
    }

    /** release: one reference fewer; the new count is returned. */
    method Release() returns (count: int)
      modifies this
      ensures refcount == old(refcount) - 1
      ensures count == refcount
    {
      refcount := refcount - 1;
      count := refcount;
    }
  }
}
